/** The string that a request signature covers, and the canonical query in it: internal/auth/sign.go. */
module Signing {
  import Text

  datatype Fields = Fields(httpMethod: string, path: string, query: string,
                           timestamp: string, nonce: string, bodyMd5: string)
  {
    function List(): seq<string> {
      [httpMethod, path, query, timestamp, nonce, bodyMd5]
    }
  }

  function Payload(f: Fields): string {
    Text.Join(f.List(), '\n')
  }

  /** A keyed hash; the signature of `f` under `secret` is `mac(secret, Payload(f))`. */
  type Mac = (string, string) -> string

  function CalcSign(mac: Mac, f: Fields, secret: string): string {
    mac(secret, Payload(f))
  }

  lemma PrefixUnique(a: string, rest: string, a': string, rest': string, c: char)
    requires Text.Avoids(a, c) && Text.Avoids(a', c)
    requires a + [c] + rest == a' + [c] + rest'
    ensures a == a' && rest == rest'
  {
    Text.IndexOfAfterPrefix(a, rest, c);
    Text.IndexOfAfterPrefix(a', rest', c);
    assert (a + [c] + rest)[..|a|] == a && (a' + [c] + rest')[..|a'|] == a';
    assert (a + [c] + rest)[|a| + 1..] == rest && (a' + [c] + rest')[|a'| + 1..] == rest';
  }

  lemma NothingAfterLast(front: string, b: string, c: char, i: nat)
    requires Text.Avoids(b, c) && |front| < i <= |front| + |b|
    ensures (front + [c] + b)[i] != c
  {
    assert (front + [c] + b)[i] == b[i - |front| - 1];
  }

  lemma LastNotLater(front: string, b: string, front': string, b': string, c: char)
    requires Text.Avoids(b, c)
    requires front + [c] + b == front' + [c] + b'
    ensures |front'| <= |front|
  {
    assert (front' + [c] + b')[|front'|] == c;
    forall i | |front| < i <= |front| + |b| ensures (front + [c] + b)[i] != c {
      NothingAfterLast(front, b, c, i);
    }
  }

  lemma SuffixUnique(front: string, b: string, front': string, b': string, c: char)
    requires Text.Avoids(b, c) && Text.Avoids(b', c)
    requires front + [c] + b == front' + [c] + b'
    ensures front == front' && b == b'
  {
    LastNotLater(front, b, front', b', c);
    LastNotLater(front', b', front, b, c);
    var s := front + [c] + b;
    assert s[..|front|] == front && s[..|front'|] == front';
    assert s[|front| + 1..] == b && s[|front'| + 1..] == b';
  }

  /** The part of the payload that path and query make up. */
  function Middle(f: Fields): string {
    f.path + "\n" + f.query
  }

  lemma PayloadLayout(f: Fields)
    ensures Payload(f)
         == f.httpMethod + "\n" + (Middle(f) + "\n" + f.timestamp + "\n" + f.nonce + "\n" + f.bodyMd5)
  {
    Text.JoinCons(f.nonce, [f.bodyMd5], '\n');
    Text.JoinCons(f.timestamp, [f.nonce] + [f.bodyMd5], '\n');
    Text.JoinCons(f.query, [f.timestamp] + ([f.nonce] + [f.bodyMd5]), '\n');
    Text.JoinCons(f.path, [f.query] + ([f.timestamp] + ([f.nonce] + [f.bodyMd5])), '\n');
    Text.JoinCons(f.httpMethod, [f.path] + ([f.query] + ([f.timestamp] + ([f.nonce] + [f.bodyMd5]))), '\n');
    assert f.List() == [f.httpMethod] + ([f.path] + ([f.query] + ([f.timestamp] + ([f.nonce] + [f.bodyMd5]))));
  }

  /** The four fields that cannot hold a line feed: an HTTP method and header values, and a hex digest. */
  predicate OuterFieldsPlain(f: Fields) {
    && Text.Avoids(f.httpMethod, '\n') && Text.Avoids(f.timestamp, '\n')
    && Text.Avoids(f.nonce, '\n') && Text.Avoids(f.bodyMd5, '\n')
  }

  /**
   Equal payloads agree on method, timestamp, nonce and body digest, and on path and query taken together, even
   when a percent-decoded path or query holds line feeds.
   */
  lemma PayloadDeterminesOuterFields(f: Fields, g: Fields)
    requires OuterFieldsPlain(f) && OuterFieldsPlain(g)
    requires Payload(f) == Payload(g)
    ensures f.httpMethod == g.httpMethod && f.timestamp == g.timestamp
    ensures f.nonce == g.nonce && f.bodyMd5 == g.bodyMd5
    ensures Middle(f) == Middle(g)
  {
    PayloadLayout(f);
    PayloadLayout(g);
    var f1, g1 := Middle(f) + "\n" + f.timestamp, Middle(g) + "\n" + g.timestamp;
    var f2, g2 := f1 + "\n" + f.nonce, g1 + "\n" + g.nonce;
    PrefixUnique(f.httpMethod, f2 + "\n" + f.bodyMd5, g.httpMethod, g2 + "\n" + g.bodyMd5, '\n');
    SuffixUnique(f2, f.bodyMd5, g2, g.bodyMd5, '\n');
    SuffixUnique(f1, f.nonce, g1, g.nonce, '\n');
    SuffixUnique(Middle(f), f.timestamp, Middle(g), g.timestamp, '\n');
  }

  /** When path and query hold no line feed either, the payload determines all six fields. */
  lemma PayloadInjective(f: Fields, g: Fields)
    requires Text.AllAvoid(f.List(), '\n') && Text.AllAvoid(g.List(), '\n')
    requires Payload(f) == Payload(g)
    ensures f == g
  {
    Text.SplitJoin(f.List(), '\n');
    Text.SplitJoin(g.List(), '\n');
    assert f.List()[0] == g.List()[0] && f.List()[1] == g.List()[1] && f.List()[2] == g.List()[2];
    assert f.List()[3] == g.List()[3] && f.List()[4] == g.List()[4] && f.List()[5] == g.List()[5];
  }
}
