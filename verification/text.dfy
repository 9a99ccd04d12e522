/** Splitting and joining strings at a one-character separator, as Go's `strings.Split` and `strings.Join` do. */
module Text {

  /** True iff `c` does not occur in `s`. */
  predicate Avoids(s: string, c: char) {
    c !in s
  }

  predicate AllAvoid(parts: seq<string>, c: char) {
    forall i :: 0 <= i < |parts| ==> Avoids(parts[i], c)
  }

  function Join(parts: seq<string>, sep: char): string {
    if parts == [] then ""
    else if |parts| == 1 then parts[0]
    else parts[0] + [sep] + Join(parts[1..], sep)
  }

  /** The index of the first `c` in `s`, or `|s|` if there is none. */
  function IndexOf(s: string, c: char): (i: nat)
    ensures i <= |s|
    ensures Avoids(s[..i], c)
    ensures i < |s| ==> s[i] == c
  {
    if s == "" || s[0] == c then 0 else 1 + IndexOf(s[1..], c)
  }

  function Split(s: string, sep: char): (parts: seq<string>)
    ensures parts != [] && AllAvoid(parts, sep)
    decreases |s|
  {
    var i := IndexOf(s, sep);
    if i == |s| then [s] else [s[..i]] + Split(s[i + 1..], sep)
  }

  /** `IndexOf` finds exactly the first separator of `a + [sep] + b` when `a` has none. */
  lemma {:induction false} IndexOfAfterPrefix(a: string, b: string, sep: char)
    requires Avoids(a, sep)
    ensures IndexOf(a + [sep] + b, sep) == |a|
  {
    if a != "" {
      assert (a + [sep] + b)[1..] == a[1..] + [sep] + b;
      IndexOfAfterPrefix(a[1..], b, sep);
    }
  }

  lemma {:induction false} IndexOfAbsent(a: string, sep: char)
    requires Avoids(a, sep)
    ensures IndexOf(a, sep) == |a|
  {
    if a != "" {
      IndexOfAbsent(a[1..], sep);
    }
  }

  /** Joining and splitting again gives the parts back. */
  lemma {:induction false} SplitJoin(parts: seq<string>, sep: char)
    requires parts != [] && AllAvoid(parts, sep)
    ensures Split(Join(parts, sep), sep) == parts
  {
    if |parts| == 1 {
      IndexOfAbsent(parts[0], sep);
    } else {
      var rest := Join(parts[1..], sep);
      IndexOfAfterPrefix(parts[0], rest, sep);
      assert Join(parts, sep)[..|parts[0]|] == parts[0];
      assert Join(parts, sep)[|parts[0]| + 1..] == rest;
      SplitJoin(parts[1..], sep);
    }
  }

  /** Splitting and joining again gives the string back. */
  lemma {:induction false} JoinSplit(s: string, sep: char)
    ensures Join(Split(s, sep), sep) == s
    decreases |s|
  {
    var i := IndexOf(s, sep);
    if i < |s| {
      JoinSplit(s[i + 1..], sep);
      assert Split(s, sep)[1..] == Split(s[i + 1..], sep);
    }
  }

  lemma JoinCons(first: string, rest: seq<string>, sep: char)
    requires rest != []
    ensures Join([first] + rest, sep) == first + [sep] + Join(rest, sep)
  {
    assert ([first] + rest)[1..] == rest;
  }
}
