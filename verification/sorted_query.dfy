/** `BuildSortedQuery` of internal/auth/sign.go: a query string that does not depend on map iteration order. */
module SortedQuery {
  import Text

  type Params = map<string, seq<string>>

  // ---------- Byte order on strings ----------

  predicate Less(a: string, b: string) {
    b != "" && (a == "" || a[0] < b[0] || (a[0] == b[0] && Less(a[1..], b[1..])))
  }

  lemma {:induction false} LessTransitive(a: string, b: string, c: string)
    requires Less(a, b) && Less(b, c)
    ensures Less(a, c)
  {
    if a != "" && a[0] == b[0] == c[0] {
      LessTransitive(a[1..], b[1..], c[1..]);
    }
  }

  lemma {:induction false} LessIrreflexive(a: string)
    ensures !Less(a, a)
  {
    if a != "" {
      LessIrreflexive(a[1..]);
    }
  }

  lemma {:induction false} LessTotal(a: string, b: string)
    ensures a == b || Less(a, b) || Less(b, a)
  {
    if a != "" && b != "" && a[0] == b[0] {
      LessTotal(a[1..], b[1..]);
      assert a == [a[0]] + a[1..] && b == [b[0]] + b[1..];
    }
  }

  /** Dictionary order: the first difference decides, and a proper prefix comes first. */
  ghost predicate ComesBefore(a: string, b: string) {
    exists i: nat :: DiffersAt(a, b, i)
  }

  predicate DiffersAt(a: string, b: string, i: nat) {
    i <= |a| && i < |b| && a[..i] == b[..i] && (i == |a| || a[i] < b[i])
  }

  lemma DiffersLater(a: string, b: string, i: nat)
    requires a != "" && b != "" && a[0] == b[0]
    ensures DiffersAt(a[1..], b[1..], i) <==> DiffersAt(a, b, i + 1)
  {
    if i < |a| && i + 1 < |b| {
      assert a[..i + 1] == [a[0]] + a[1..][..i] && b[..i + 1] == [b[0]] + b[1..][..i];
    }
  }

  lemma {:induction false} LessIff(a: string, b: string)
    ensures Less(a, b) <==> ComesBefore(a, b)
  {
    if a != "" && b != "" && a[0] == b[0] {
      LessIff(a[1..], b[1..]);
      if i: nat :| DiffersAt(a[1..], b[1..], i) {
        DiffersLater(a, b, i);
      }
      if i: nat :| DiffersAt(a, b, i) {
        DiffersLater(a, b, i - 1);
      }
    } else {
      assert DiffersAt(a, b, 0) <==> Less(a, b);
      forall i: nat | i > 0 && i <= |a| && i < |b| ensures a[..i] != b[..i] {
        assert a[..i][0] == a[0] && b[..i][0] == b[0];
      }
    }
  }

  predicate Sorted(xs: seq<string>) {
    forall i, j :: 0 <= i < j < |xs| ==> Less(xs[i], xs[j])
  }

  function Elements(xs: seq<string>): set<string> {
    set x | x in xs
  }

  /** A set of strings has only one sorted listing. */
  lemma {:induction false} SortedUnique(xs: seq<string>, ys: seq<string>)
    requires Sorted(xs) && Sorted(ys) && Elements(xs) == Elements(ys)
    ensures xs == ys
  {
    assert forall x :: x in xs <==> x in Elements(xs);
    assert forall y :: y in ys <==> y in Elements(ys);
    if ys != [] {
      NonEmptyElements(ys);
    }
    if xs != [] {
      assert xs[0] in ys;
      HeadsAgree(xs, ys);
      TailElements(xs);
      TailElements(ys);
      SortedUnique(xs[1..], ys[1..]);
    }
  }

  lemma NonEmptyElements(xs: seq<string>)
    requires xs != []
    ensures Elements(xs) != {}
  {
    assert xs[0] in Elements(xs);
  }

  lemma HeadsAgree(xs: seq<string>, ys: seq<string>)
    requires Sorted(xs) && Sorted(ys) && Elements(xs) == Elements(ys) && xs != [] && ys != []
    ensures xs[0] == ys[0]
  {
    assert xs[0] in Elements(ys) && ys[0] in Elements(xs) by {
      assert xs[0] in Elements(xs) && ys[0] in Elements(ys);
    }
    var i :| 0 <= i < |ys| && ys[i] == xs[0];
    var j :| 0 <= j < |xs| && xs[j] == ys[0];
    if i > 0 && j > 0 {
      LessTransitive(ys[0], ys[i], xs[j]);
      LessIrreflexive(ys[0]);
    }
  }

  lemma TailElements(xs: seq<string>)
    requires Sorted(xs) && xs != []
    ensures Elements(xs[1..]) == Elements(xs) - {xs[0]}
  {
    LessIrreflexive(xs[0]);
    forall x | x in Elements(xs) - {xs[0]} ensures x in Elements(xs[1..]) {
      var i :| 0 <= i < |xs| && xs[i] == x;
      assert xs[1..][i - 1] == x;
    }
  }

  // ---------- Sorting ----------

  function Insert(x: string, xs: seq<string>): seq<string> {
    if xs == [] || Less(x, xs[0]) then [x] + xs else [xs[0]] + Insert(x, xs[1..])
  }

  lemma {:induction false} InsertSorted(x: string, xs: seq<string>)
    requires Sorted(xs) && x !in xs
    ensures Sorted(Insert(x, xs)) && Elements(Insert(x, xs)) == Elements(xs) + {x}
  {
    if xs == [] {
    } else if Less(x, xs[0]) {
      forall j | 0 < j <= |xs| ensures Less(x, ([x] + xs)[j]) {
        if j > 1 {
          LessTransitive(x, xs[0], xs[j - 1]);
        }
      }
    } else {
      LessTotal(x, xs[0]);
      var rest := Insert(x, xs[1..]);
      InsertSorted(x, xs[1..]);
      assert xs == [xs[0]] + xs[1..];
      assert Elements(xs) == {xs[0]} + Elements(xs[1..]);
      forall j | 0 <= j < |rest| ensures Less(xs[0], rest[j]) {
        assert rest[j] in Elements(rest);
      }
    }
  }

  /** Insertion sort stands in for `sort.Strings`; only its result matters. */
  method SortStrings(keys: seq<string>) returns (sorted: seq<string>)
    requires forall i, j :: 0 <= i < j < |keys| ==> keys[i] != keys[j]
    ensures Sorted(sorted) && Elements(sorted) == Elements(keys)
  {
    sorted := [];
    for i := 0 to |keys|
      invariant Sorted(sorted) && Elements(sorted) == Elements(keys[..i])
    {
      assert keys[i] !in Elements(keys[..i]);
      InsertSorted(keys[i], sorted);
      sorted := Insert(keys[i], sorted);
      assert keys[..i + 1] == keys[..i] + [keys[i]];
    }
    assert keys[..|keys|] == keys;
  }

  // ---------- The query ----------

  /** The keys that carry at least one value. */
  ghost function UsedKeys(params: Params): set<string> {
    set k | k in params && params[k] != []
  }

  ghost function FirstValues(params: Params): map<string, string> {
    map k | k in params && params[k] != [] :: params[k][0]
  }

  function Pair(k: string, v: string): string {
    k + "=" + v
  }

  function Pairs(keys: seq<string>, params: Params): (ps: seq<string>)
    requires forall k :: k in keys ==> k in params && params[k] != []
    ensures |ps| == |keys|
    ensures forall i :: 0 <= i < |keys| ==> ps[i] == Pair(keys[i], params[keys[i]][0])
  {
    if keys == [] then [] else [Pair(keys[0], params[keys[0]][0])] + Pairs(keys[1..], params)
  }

  /** `q` joins the pairs of `params` in increasing key order. */
  ghost predicate IsCanonical(params: Params, q: string) {
    exists keys :: CanonicalFor(params, keys, q)
  }

  ghost predicate CanonicalFor(params: Params, keys: seq<string>, q: string) {
    && Sorted(keys) && Elements(keys) == UsedKeys(params)
    && (forall k :: k in keys ==> k in Elements(keys))
    && (forall k :: k in keys ==> k in params && params[k] != [])
    && q == Text.Join(Pairs(keys, params), '&')
  }

  /** Only the first values matter, and they determine the query: no map order and no later value enters it. */
  lemma CanonicalUnique(params: Params, q: string, params': Params, q': string)
    requires IsCanonical(params, q) && IsCanonical(params', q')
    requires FirstValues(params) == FirstValues(params')
    ensures q == q'
  {
    var keys :| CanonicalFor(params, keys, q);
    var keys' :| CanonicalFor(params', keys', q');
    assert UsedKeys(params) == FirstValues(params).Keys == FirstValues(params').Keys == UsedKeys(params');
    SortedUnique(keys, keys');
    PairsAgree(keys, params, params');
  }

  lemma PairsAgree(keys: seq<string>, params: Params, params': Params)
    requires forall k :: k in keys ==> k in params && params[k] != []
    requires forall k :: k in keys ==> k in params' && params'[k] != []
    requires FirstValues(params) == FirstValues(params')
    ensures Pairs(keys, params) == Pairs(keys, params')
  {
    forall i | 0 <= i < |keys| ensures Pairs(keys, params)[i] == Pairs(keys, params')[i] {
      assert params[keys[i]][0] == FirstValues(params)[keys[i]] == FirstValues(params')[keys[i]];
    }
  }

  /** The map is walked in an arbitrary order, as Go walks it. */
  method BuildSortedQuery(params: Params) returns (q: string)
    ensures IsCanonical(params, q)
  {
    if |params| == 0 {
      assert CanonicalFor(params, [], "");
      return "";
    }
    var keys: seq<string> := [];
    var rest := params.Keys;
    while rest != {}
      invariant rest <= params.Keys
      invariant forall i, j :: 0 <= i < j < |keys| ==> keys[i] != keys[j]
      invariant forall k :: k in keys <==> k in params && k !in rest && params[k] != []
    {
      var k :| k in rest;
      rest := rest - {k};
      if |params[k]| > 0 {
        keys := keys + [k];
      }
    }
    ghost var unsorted := keys;
    keys := SortStrings(keys);
    assert forall k :: k in keys <==> k in Elements(keys);
    assert forall k :: k in unsorted <==> k in Elements(unsorted);
    var parts: seq<string> := [];
    for i := 0 to |keys|
      invariant |parts| == i
      invariant forall j :: 0 <= j < i ==> keys[j] in params && params[keys[j]] != []
                                           && parts[j] == Pair(keys[j], params[keys[j]][0])
    {
      assert keys[i] in Elements(keys);
      parts := parts + [keys[i] + "=" + params[keys[i]][0]];
    }
    assert parts == Pairs(keys, params);
    q := Text.Join(parts, '&');
    assert CanonicalFor(params, keys, q);
  }

  lemma NotAfter(a: string, b: string)
    requires ComesBefore(a, b)
    ensures Less(a, b) && !Less(b, a) && a != b
  {
    LessIff(a, b);
    LessIrreflexive(a);
    if Less(b, a) {
      LessTransitive(a, b, a);
    }
  }

  lemma TwoPairs(a: string, v: string, b: string, w: string)
    ensures Text.Join([Pair(a, v), Pair(b, w)], '&') == a + "=" + v + "&" + b + "=" + w
  {
    Text.JoinCons(Pair(a, v), [Pair(b, w)], '&');
    assert [Pair(a, v)] + [Pair(b, w)] == [Pair(a, v), Pair(b, w)];
  }

  /** Two parameters: the smaller key first, each with its first value. */
  lemma TwoParameters(params: Params, a: string, b: string, q: string)
    requires IsCanonical(params, q) && ComesBefore(a, b)
    requires params.Keys == {a, b} && params[a] != [] && params[b] != []
    ensures q == a + "=" + params[a][0] + "&" + b + "=" + params[b][0]
  {
    NotAfter(a, b);
    var keys :| CanonicalFor(params, keys, q);
    assert Sorted([a, b]) && Elements([a, b]) == {a, b} == UsedKeys(params);
    SortedUnique(keys, [a, b]);
    assert Pairs(keys, params) == [Pair(a, params[a][0]), Pair(b, params[b][0])];
    TwoPairs(a, params[a][0], b, params[b][0]);
  }

  // ---------- Reading it back ----------

  function ParsePair(p: string): (kv: (string, string))
    requires Text.Avoids(p, '&')
    ensures Text.Avoids(kv.0, '=') && Text.Avoids(kv.0, '&') && Text.Avoids(kv.1, '&')
  {
    var i := Text.IndexOf(p, '=');
    if i == |p| then (p, "") else (p[..i], p[i + 1..])
  }

  predicate Clean(m: map<string, string>) {
    forall k :: k in m ==> Text.Avoids(k, '=') && Text.Avoids(k, '&') && Text.Avoids(m[k], '&')
  }

  function ParsePairs(ps: seq<string>): (m: map<string, string>)
    requires Text.AllAvoid(ps, '&')
    ensures Clean(m)
  {
    if ps == [] then map[]
    else
      var kv := ParsePair(ps[0]);
      ParsePairs(ps[1..])[kv.0 := kv.1]
  }

  /** The natural reading of a query: pairs between ampersands, each cut at its first equals sign. */
  function Parse(q: string): (m: map<string, string>)
    ensures Clean(m)
  {
    if q == "" then map[] else ParsePairs(Text.Split(q, '&'))
  }

  /** The first values of the listed keys. */
  ghost function Select(keys: seq<string>, params: Params): map<string, string>
    requires forall k :: k in keys ==> k in params && params[k] != []
  {
    map k | k in keys :: params[k][0]
  }

  lemma ParseOnePair(k: string, v: string)
    requires Text.Avoids(k, '=') && Text.Avoids(k, '&') && Text.Avoids(v, '&')
    ensures Text.Avoids(Pair(k, v), '&') && ParsePair(Pair(k, v)) == (k, v)
  {
    Text.IndexOfAfterPrefix(k, v, '=');
    var p := Pair(k, v);
    assert p == k + ['='] + v;
    assert p[..|k|] == k && p[|k| + 1..] == v;
  }

  lemma {:induction false} ParsePairsOfPairs(keys: seq<string>, params: Params)
    requires forall k :: k in keys ==> k in params && params[k] != []
    requires Clean(Select(keys, params))
    ensures Text.AllAvoid(Pairs(keys, params), '&')
    ensures ParsePairs(Pairs(keys, params)) == Select(keys, params)
  {
    var m := Select(keys, params);
    forall i | 0 <= i < |keys| ensures Text.Avoids(Pairs(keys, params)[i], '&') {
      assert keys[i] in m;
      ParseOnePair(keys[i], params[keys[i]][0]);
    }
    if keys != [] {
      var m1 := Select(keys[1..], params);
      forall k | k in m1 ensures k in m && m[k] == m1[k] {
      }
      ParsePairsOfPairs(keys[1..], params);
      assert keys[0] in m;
      ParseOnePair(keys[0], params[keys[0]][0]);
      assert Pairs(keys, params)[1..] == Pairs(keys[1..], params);
      SelectStep(keys, params);
    }
  }

  lemma SelectStep(keys: seq<string>, params: Params)
    requires keys != []
    requires forall k :: k in keys ==> k in params && params[k] != []
    ensures Select(keys, params) == Select(keys[1..], params)[keys[0] := params[keys[0]][0]]
  {
    assert forall k :: k in keys <==> k == keys[0] || k in keys[1..];
  }

  /**
   The canonical query reads back as the first-value map exactly when no key holds '=' or '&' and no first value
   holds '&'.
   */
  lemma ParseCanonical(params: Params, q: string)
    requires IsCanonical(params, q)
    ensures Parse(q) == FirstValues(params) <==> Clean(FirstValues(params))
  {
    var keys :| CanonicalFor(params, keys, q);
    assert Select(keys, params) == FirstValues(params) by {
      assert forall k :: k in keys <==> k in UsedKeys(params);
    }
    if Clean(FirstValues(params)) {
      ParsePairsOfPairs(keys, params);
      if keys != [] {
        Text.SplitJoin(Pairs(keys, params), '&');
        JoinNotEmpty(Pairs(keys, params));
      }
    }
  }

  lemma JoinNotEmpty(ps: seq<string>)
    requires ps != [] && ps[0] != ""
    ensures Text.Join(ps, '&') != ""
  {
  }

  /** So clean queries are told apart by their canonical strings. */
  lemma CanonicalInjective(params: Params, params': Params, q: string)
    requires IsCanonical(params, q) && IsCanonical(params', q)
    requires Clean(FirstValues(params)) && Clean(FirstValues(params'))
    ensures FirstValues(params) == FirstValues(params')
  {
    ParseCanonical(params, q);
    ParseCanonical(params', q);
  }
}
