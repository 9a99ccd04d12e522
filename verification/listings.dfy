/** Ordered query results: ORDER BY id DESC with OFFSET and LIMIT. */
module Listings {
  predicate Descending(list: seq<nat>) {
    forall i, j :: 0 <= i < j < |list| ==> list[i] > list[j]
  }

  ghost predicate Lists(list: seq<nat>, ids: set<nat>) {
    Descending(list) && |list| == |ids| && forall id :: id in list <==> id in ids
  }

  function Elements(list: seq<nat>): set<nat> {
    set id | id in list
  }

  predicate IsMax(ids: set<nat>, m: nat) {
    m in ids && forall id :: id in ids ==> id <= m
  }

  lemma {:induction false} MaxExists(ids: set<nat>)
    requires ids != {}
    ensures exists m :: IsMax(ids, m)
  {
    assert |ids| > 0;
    var x :| x in ids;
    if ids == {x} {
      assert IsMax(ids, x);
    } else {
      MaxExists(ids - {x});
      var y :| IsMax(ids - {x}, y);
      var m := if x > y then x else y;
      forall id | id in ids ensures id <= m {
        assert id == x || id in ids - {x};
      }
      assert IsMax(ids, m);
    }
  }

  /** ORDER BY id DESC. */
  function Desc(ids: set<nat>): (list: seq<nat>)
    ensures Lists(list, ids)
  {
    if ids == {} then []
    else
      MaxExists(ids);
      var m :| IsMax(ids, m);
      ListsCons(m, Desc(ids - {m}), ids);
      [m] + Desc(ids - {m})
  }

  lemma ListsCons(m: nat, rest: seq<nat>, ids: set<nat>)
    requires IsMax(ids, m) && Lists(rest, ids - {m})
    ensures Lists([m] + rest, ids)
  {
    var list := [m] + rest;
    forall i, j | 0 <= i < j < |list| ensures list[i] > list[j] {
      assert rest[j - 1] in rest;
    }
    forall id | id in ids ensures id in list {
      assert id == m || id in rest;
    }
  }

  /** Only one list has the ids of a set in descending order. */
  lemma {:induction false} ListsUnique(a: seq<nat>, b: seq<nat>, ids: set<nat>)
    requires Lists(a, ids) && Lists(b, ids)
    ensures a == b
    decreases |a|
  {
    if a != [] {
      assert a[0] in ids;
      assert a[0] in b;
      assert b[0] in ids;
      assert b[0] in a;
      assert a[0] == b[0];
      forall id ensures id in a[1..] <==> id in ids - {a[0]} {
        assert a == [a[0]] + a[1..];
      }
      forall id ensures id in b[1..] <==> id in ids - {a[0]} {
        assert b == [b[0]] + b[1..];
      }
      ListsUnique(a[1..], b[1..], ids - {a[0]});
    }
  }

  /** OFFSET and LIMIT. */
  function Window<T>(list: seq<T>, offset: nat, limit: nat): seq<T> {
    if offset >= |list| then []
    else if offset + limit >= |list| then list[offset..] else list[offset..offset + limit]
  }

  function Upto<T>(list: seq<T>, n: nat): seq<T> {
    list[..if n < |list| then n else |list|]
  }

  lemma WindowsJoin<T>(list: seq<T>, offset: nat, limit: nat)
    ensures Upto(list, offset) + Window(list, offset, limit) == Upto(list, offset + limit)
  {
  }

  /** total divided by size, rounded up. */
  function PageCount(total: nat, size: nat): (n: nat)
    requires size > 0
    ensures n * size >= total && (n > 0 ==> (n - 1) * size < total)
  {
    (total + size - 1) / size
  }

  /** The first `k` windows of `n` elements, one after the other. */
  function Windows<T>(list: seq<T>, n: nat, k: nat): seq<T> {
    if k == 0 then [] else Windows(list, n, k - 1) + Window(list, (k - 1) * n, n)
  }

  lemma NextOffset(k: nat, n: nat)
    requires k >= 1
    ensures (k - 1) * n >= 0 && (k - 1) * n + n == k * n
  {
  }

  lemma {:induction false} WindowsArePrefix<T>(list: seq<T>, n: nat, k: nat)
    ensures Windows(list, n, k) == Upto(list, k * n)
  {
    if k > 0 {
      NextOffset(k, n);
      WindowsArePrefix(list, n, k - 1);
      WindowsJoin(list, (k - 1) * n, n);
    }
  }

  lemma Scaled(a: nat, b: nat, n: nat)
    requires a <= b
    ensures a * n <= b * n
  {
  }

  /** How many elements window `k` has, counting from 1. */
  lemma WindowLength<T>(list: seq<T>, n: nat, k: nat)
    requires k >= 1 && n >= 1
    ensures
      var last, shown := PageCount(|list|, n), |Window(list, (k - 1) * n, n)|;
      && (k <= last ==> shown > 0) && (k < last ==> shown == n) && (k > last ==> shown == 0)
  {
    var last := PageCount(|list|, n);
    NextOffset(k, n);
    if k <= last {
      Scaled(k - 1, last - 1, n);
    } else {
      Scaled(last, k - 1, n);
    }
    if k < last {
      Scaled(k, last - 1, n);
    }
  }
}
