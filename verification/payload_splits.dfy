/**
 When another request has the same signing payload: payload fields are separated by line feeds, and a percent-decoded
 path or query may hold one.
 */
module PayloadSplits {
  import opened Signing
  import Decimal
  import SortedQuery
  import Text

  // ---------- Queries the middleware can build ----------

  /** `BuildSortedQuery` answers `q` for some parameters. */
  ghost predicate Built(q: string) {
    exists params :: SortedQuery.IsCanonical(params, q)
  }

  lemma BuiltHasEquals(params: SortedQuery.Params, keys: seq<string>, q: string)
    requires SortedQuery.CanonicalFor(params, keys, q)
    ensures q == "" || '=' in q
  {
    if keys != [] {
      var ps := SortedQuery.Pairs(keys, params);
      assert ps[0] == keys[0] + "=" + params[keys[0]][0];
      assert ps[0][|keys[0]|] == '=';
      assert ps[0] <= q;
    }
  }

  lemma OnePairBuilt(k: string, v: string)
    ensures Built(k + "=" + v)
  {
    var params: SortedQuery.Params := map[k := [v]];
    assert SortedQuery.Pairs([k], params) == [SortedQuery.Pair(k, v)];
    assert SortedQuery.Elements([k]) == {k} == SortedQuery.UsedKeys(params);
    assert SortedQuery.CanonicalFor(params, [k], k + "=" + v);
    assert SortedQuery.IsCanonical(params, k + "=" + v);
  }

  /** The query of a request is empty or holds an equals sign, and every such string is the query of some request. */
  lemma BuiltIff(q: string)
    ensures Built(q) <==> q == "" || '=' in q
  {
    if Built(q) {
      var params :| SortedQuery.IsCanonical(params, q);
      var keys :| SortedQuery.CanonicalFor(params, keys, q);
      BuiltHasEquals(params, keys, q);
    }
    if q == "" {
      assert SortedQuery.CanonicalFor(map[], [], "");
      assert SortedQuery.IsCanonical(map[], "");
    } else if '=' in q {
      var i :| 0 <= i < |q| && q[i] == '=';
      assert q == q[..i] + "=" + q[i + 1..];
      OnePairBuilt(q[..i], q[i + 1..]);
    }
  }

  // ---------- Other ways to split path and query ----------

  /** A line feed of the path-and-query text that is not the separator. */
  predicate Splits(f: Fields, i: nat) {
    i < |Middle(f)| && i != |f.path| && Middle(f)[i] == '\n'
  }

  function Resplit(f: Fields, i: nat): Fields
    requires i < |Middle(f)|
  {
    f.(path := Middle(f)[..i], query := Middle(f)[i + 1..])
  }

  lemma MiddleParts(f: Fields)
    ensures Middle(f)[|f.path|] == '\n' && Middle(f)[..|f.path|] == f.path && Middle(f)[|f.path| + 1..] == f.query
  {
  }

  lemma ResplitSamePayload(f: Fields, i: nat)
    requires Splits(f, i)
    ensures Resplit(f, i) != f && Payload(Resplit(f, i)) == Payload(f)
  {
    var g := Resplit(f, i);
    assert |g.path| != |f.path|;
    assert Middle(g) == Middle(f);
    PayloadLayout(f);
    PayloadLayout(g);
  }

  lemma OtherSplit(f: Fields, g: Fields)
    requires OuterFieldsPlain(f) && OuterFieldsPlain(g) && g != f && Payload(g) == Payload(f)
    ensures Splits(f, |g.path|) && g == Resplit(f, |g.path|)
  {
    PayloadDeterminesOuterFields(f, g);
    MiddleParts(f);
    MiddleParts(g);
  }

  lemma SplitsIff(f: Fields)
    ensures (exists i: nat :: Splits(f, i)) <==> '\n' in f.path || '\n' in f.query
  {
    var m := Middle(f);
    if i: nat :| Splits(f, i) {
      if i < |f.path| {
        assert f.path[i] == '\n';
      } else {
        assert f.query[i - |f.path| - 1] == '\n';
      }
    }
    if '\n' in f.path {
      var i :| 0 <= i < |f.path| && f.path[i] == '\n';
      assert Splits(f, i);
    } else if '\n' in f.query {
      var i :| 0 <= i < |f.query| && f.query[i] == '\n';
      assert m[|f.path| + 1 + i] == '\n';
      assert Splits(f, |f.path| + 1 + i);
    }
  }

  /** As fields alone: another field list has the payload of `f` exactly when its path or query holds a line feed. */
  lemma AmbiguousIff(f: Fields)
    requires OuterFieldsPlain(f)
    ensures
      (exists g :: OuterFieldsPlain(g) && g != f && Payload(g) == Payload(f))
      <==> ('\n' in f.path || '\n' in f.query)
  {
    SplitsIff(f);
    if g :| OuterFieldsPlain(g) && g != f && Payload(g) == Payload(f) {
      OtherSplit(f, g);
    }
    if i: nat :| Splits(f, i) {
      ResplitSamePayload(f, i);
    }
  }

  // ---------- Requests the middleware can receive ----------

  /** Whether a method and a path, as `Sign` sees them, belong to a registered route: no other request gets there. */
  type Router = (string, string) -> bool

  /**
   What the fields of a request that reaches the comparison look like: a route matches, its timestamp parses, its query
   was built, and method, nonce header and hex digest hold no line feed.
   */
  ghost predicate Receivable(routed: Router, f: Fields) {
    && routed(f.httpMethod, f.path) && Decimal.Atoi(f.timestamp).Some? && Built(f.query)
    && Text.Avoids(f.httpMethod, '\n') && Text.Avoids(f.nonce, '\n') && Text.Avoids(f.bodyMd5, '\n')
  }

  lemma ReceivablePlain(routed: Router, f: Fields)
    requires Receivable(routed, f)
    ensures OuterFieldsPlain(f)
  {
    Decimal.AtoiNeedsDigits(f.timestamp, '\n');
  }

  /** Line feed `i` can be the separator: a route matches what precedes it, and what follows can be a query. */
  predicate Readable(routed: Router, f: Fields, i: nat) {
    Splits(f, i) && routed(f.httpMethod, Middle(f)[..i]) && (Middle(f)[i + 1..] == "" || '=' in Middle(f)[i + 1..])
  }

  /** Another request that can be received has the payload of `f`. */
  ghost predicate Ambiguous(routed: Router, f: Fields) {
    exists g :: Receivable(routed, g) && g != f && Payload(g) == Payload(f)
  }

  /**
   A received request shares its payload with another request that can be received exactly when its path-and-query text
   has a line feed, other than the separator, such that a route matches the part before it and the part after it is
   empty or holds an equals sign.
   */
  lemma ReceivableAmbiguousIff(routed: Router, f: Fields)
    requires Receivable(routed, f)
    ensures Ambiguous(routed, f) <==> exists i: nat :: Readable(routed, f, i)
  {
    ReceivablePlain(routed, f);
    if g :| Receivable(routed, g) && g != f && Payload(g) == Payload(f) {
      ReceivablePlain(routed, g);
      OtherSplit(f, g);
      BuiltIff(g.query);
      assert Readable(routed, f, |g.path|);
    }
    if i: nat :| Readable(routed, f, i) {
      ResplitSamePayload(f, i);
      BuiltIff(Middle(f)[i + 1..]);
      assert Receivable(routed, Resplit(f, i));
    }
  }

  // ---------- Routes ----------

  /** A pattern segment that starts with a colon matches any one segment that is not empty. */
  predicate SegmentMatches(pattern: string, segment: string) {
    if pattern != "" && pattern[0] == ':' then segment != "" else segment == pattern
  }

  predicate PatternMatches(pattern: seq<string>, segments: seq<string>) {
    |pattern| == |segments| && forall i :: 0 <= i < |pattern| ==> SegmentMatches(pattern[i], segments[i])
  }

  datatype Route = Route(httpMethod: string, pattern: seq<string>)

  /** The router of a list of routes, whose patterns are the segments between slashes. */
  function RouterOf(routes: seq<Route>): Router {
    (m, path) =>
      exists r <- routes :: r.httpMethod == m && PatternMatches(r.pattern, Text.Split(path, '/'))
  }

  const USERS: Route := Route("GET", ["", "users"])
  const ONE_USER: Route := Route("GET", ["", "users", ":id"])

  lemma UserPath(routes: seq<Route>, id: string)
    requires ONE_USER in routes && id != "" && Text.Avoids(id, '/')
    ensures RouterOf(routes)("GET", "/users/" + id)
  {
    var segments := ["", "users", id];
    var path := "/users/" + id;
    Text.JoinCons("users", [id], '/');
    Text.JoinCons("", ["users"] + [id], '/');
    assert segments == [""] + (["users"] + [id]);
    assert path == Text.Join(segments, '/');
    Text.SplitJoin(segments, '/');
    assert PatternMatches(ONE_USER.pattern, Text.Split(path, '/'));
  }

  /** A line feed at the end of the query can as well stand for an empty query. */
  lemma TrailingLineFeed(f: Fields, path: string, query: string)
    requires f.path == path + "\n" + query && f.query == ""
    ensures Payload(f) == Payload(f.(path := path, query := query + "\n"))
  {
    var g := f.(path := path, query := query + "\n");
    assert Middle(f) == Middle(g);
    PayloadLayout(f);
    PayloadLayout(g);
  }

  /** A request for user 5 in the two readings. */
  const NARROW: Fields := Fields("GET", "/users/" + "5\nx=1", "", "1", "n", "")
  const WIDE: Fields := Fields("GET", "/users/" + "5", "x=1\n", "1", "n", "")

  lemma NarrowReceivable(routes: seq<Route>)
    requires ONE_USER in routes
    ensures Receivable(RouterOf(routes), NARROW)
  {
    UserPath(routes, "5\nx=1");
    BuiltIff(NARROW.query);
    Decimal.AtoiDigits("1");
  }

  lemma WideReceivable(routes: seq<Route>)
    requires ONE_USER in routes
    ensures Receivable(RouterOf(routes), WIDE)
  {
    UserPath(routes, "5");
    assert WIDE.query[1] == '=';
    BuiltIff(WIDE.query);
    Decimal.AtoiDigits("1");
  }

  lemma SamePayload()
    ensures NARROW != WIDE && Payload(NARROW) == Payload(WIDE)
  {
    var path := "/users/" + "5";
    assert NARROW.path == path + "\n" + "x=1" && WIDE.query == "x=1" + "\n";
    TrailingLineFeed(NARROW, path, "x=1");
    assert |NARROW.path| != |WIDE.path|;
  }

  /**
   Two requests that the route for one user receives, with one payload: the first has %0Ax=1 in its path, the second
   sends x=1%0A as its query.
   */
  lemma LineFeedAmbiguity(routes: seq<Route>)
    requires ONE_USER in routes
    ensures Receivable(RouterOf(routes), NARROW) && Receivable(RouterOf(routes), WIDE)
    ensures NARROW != WIDE && Payload(NARROW) == Payload(WIDE)
  {
    NarrowReceivable(routes);
    WideReceivable(routes);
    SamePayload();
  }

  // ---------- A single line feed in the query ----------

  lemma QueryParts(f: Fields, before: string, rest: string)
    requires f.query == before + "\n" + rest
    ensures
      var i, m := |f.path| + 1 + |before|, Middle(f);
      i < |m| && m[i] == '\n' && m[..i] == f.path + "\n" + before && m[i + 1..] == rest
  {
    assert Middle(f) == (f.path + "\n" + before) + "\n" + rest;
  }

  lemma OnlyThere(f: Fields, before: string, rest: string)
    requires f.query == before + "\n" + rest
    requires Text.Avoids(f.path, '\n') && Text.Avoids(before, '\n') && Text.Avoids(rest, '\n')
    ensures forall j: nat :: Splits(f, j) ==> j == |f.path| + 1 + |before|
  {
    var m := Middle(f);
    forall j: nat | j < |m| && j != |f.path| && j != |f.path| + 1 + |before| ensures m[j] != '\n' {
      if j < |f.path| {
        assert m[j] == f.path[j];
      } else if j < |f.path| + 1 + |before| {
        assert m[j] == before[j - |f.path| - 1];
      } else {
        assert m[j] == rest[j - |f.path| - |before| - 2];
      }
    }
  }

  lemma SingleSplit(routed: Router, f: Fields, i: nat)
    requires Receivable(routed, f) && forall j: nat :: Splits(f, j) ==> j == i
    ensures Ambiguous(routed, f) <==> Readable(routed, f, i)
  {
    ReceivableAmbiguousIff(routed, f);
  }

  /** With one line feed in all, in the query, the part before it has to be a path of some route. */
  lemma SingleLineFeed(routed: Router, f: Fields, before: string, rest: string)
    requires Receivable(routed, f) && f.query == before + "\n" + rest
    requires Text.Avoids(f.path, '\n') && Text.Avoids(before, '\n') && Text.Avoids(rest, '\n')
    ensures Ambiguous(routed, f) <==>
      routed(f.httpMethod, f.path + "\n" + before) && (rest == "" || '=' in rest)
  {
    QueryParts(f, before, rest);
    OnlyThere(f, before, rest);
    SingleSplit(routed, f, |f.path| + 1 + |before|);
  }

  /** No pattern holds a line feed, and no pattern has a parameter right below the root. */
  predicate PlainRoutes(routes: seq<Route>) {
    forall r :: r in routes ==>
      && (forall i :: 0 <= i < |r.pattern| ==> Text.Avoids(r.pattern[i], '\n'))
      && (|r.pattern| == 2 ==> r.pattern[1] == "" || r.pattern[1][0] != ':')
  }

  lemma OneSegment(name: string)
    requires Text.Avoids(name, '/')
    ensures Text.Split("/" + name, '/') == ["", name]
  {
    Text.JoinCons("", [name], '/');
    assert [""] + [name] == ["", name] && "/" + name == Text.Join(["", name], '/');
    Text.SplitJoin(["", name], '/');
  }

  lemma NoSuchRoute(routes: seq<Route>, name: string)
    requires PlainRoutes(routes) && Text.Avoids(name, '/') && '\n' in name
    ensures !RouterOf(routes)("GET", "/" + name)
  {
    OneSegment(name);
    forall r | r in routes ensures !PatternMatches(r.pattern, ["", name]) {
      if |r.pattern| == 2 {
        assert !SegmentMatches(r.pattern[1], name);
      }
    }
  }

  /** No partner for a request to a path of one segment whose query holds one line feed. */
  lemma BelowRootUnambiguous(routes: seq<Route>, f: Fields, name: string, before: string, rest: string)
    requires PlainRoutes(routes) && Receivable(RouterOf(routes), f) && f.httpMethod == "GET"
    requires f.path == "/" + name && f.query == before + "\n" + rest && Text.Avoids(name + before, '/')
    requires Text.Avoids(f.path, '\n') && Text.Avoids(before, '\n') && Text.Avoids(rest, '\n')
    ensures !Ambiguous(RouterOf(routes), f)
  {
    var joined := name + "\n" + before;
    assert f.path + "\n" + before == "/" + joined;
    forall k | 0 <= k < |joined| ensures joined[k] != '/' {
      assert k < |name| ==> joined[k] == (name + before)[k];
      assert k > |name| ==> joined[k] == (name + before)[k - 1];
    }
    assert joined[|name|] == '\n';
    NoSuchRoute(routes, joined);
    SingleLineFeed(RouterOf(routes), f, before, rest);
  }

  const LIST: Fields := Fields("GET", "/" + "users", "x=1" + "\n" + "y=2", "1", "n", "")

  lemma UsersRouted(routes: seq<Route>)
    requires USERS in routes
    ensures RouterOf(routes)("GET", "/" + "users")
  {
    OneSegment("users");
    assert PatternMatches(USERS.pattern, ["", "users"]);
  }

  lemma ListReceivable(routes: seq<Route>)
    requires USERS in routes
    ensures Receivable(RouterOf(routes), LIST)
  {
    UsersRouted(routes);
    assert LIST.query[1] == '=';
    BuiltIff(LIST.query);
    Decimal.AtoiDigits("1");
  }

  lemma ListTexts()
    ensures LIST.httpMethod == "GET" && LIST.path == "/" + "users" && LIST.query == "x=1" + "\n" + "y=2"
    ensures Text.Avoids("users" + "x=1", '/') && Text.Avoids(LIST.path, '\n')
    ensures Text.Avoids("x=1", '\n') && Text.Avoids("y=2", '\n')
  {
  }

  /**
   So the routes decide: the list of users with the query x=1%0Ay=2 has a line feed with an equals sign after it, but
   no route matches what precedes it, and no other request that can be received has this payload.
   */
  lemma ListIsUnambiguous(routes: seq<Route>)
    requires USERS in routes && PlainRoutes(routes)
    ensures Receivable(RouterOf(routes), LIST) && !Ambiguous(RouterOf(routes), LIST)
  {
    ListReceivable(routes);
    ListTexts();
    BelowRootUnambiguous(routes, LIST, "users", "x=1", "y=2");
  }
}
