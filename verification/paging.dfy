/** The user list of internal/service/data_service.go: paging, per-user device counts and online counts. */
module Paging {
  import opened Wrappers
  import opened Listings

  datatype User = User(username: string, disabled: int)

  /** A row of `devices`, whose primary key this is. */
  datatype Device = Device(user: nat, device: string)

  /** `username LIKE '%keyword%'`, whose wildcards and collation belong to the database. */
  type Like = (string, string) -> bool

  /** The rows one request sees; `online` holds the online hash of each user and is None without a Redis client. */
  datatype Snapshot = Snapshot(users: map<nat, User>, devices: set<Device>, online: Option<map<nat, set<string>>>)

  datatype Query = Query(keyword: string, disabled: int)

  datatype UserVO = UserVO(id: nat, username: string, disabled: bool, deviceCount: nat, onlineCount: nat)

  datatype Page = Page(list: seq<UserVO>, total: nat, page: nat, size: nat)

  const DEFAULT_SIZE: nat := 20
  const MAX_SIZE: nat := 200

  function NormalPage(page: int): (p: nat)
    ensures p >= 1 && (page >= 1 ==> p == page) && (page < 1 ==> p == 1)
  {
    if page <= 0 then 1 else page
  }

  function NormalSize(size: int): (s: nat)
    ensures 1 <= s <= MAX_SIZE && (1 <= size <= MAX_SIZE ==> s == size)
    ensures !(1 <= size <= MAX_SIZE) ==> s == DEFAULT_SIZE
  {
    if size <= 0 || size > MAX_SIZE then DEFAULT_SIZE else size
  }

  // ---------- What a list should be ----------

  predicate Matching(like: Like, q: Query, u: User) {
    && (q.keyword != "" ==> like(u.username, q.keyword))
    && (q.disabled >= 0 ==> u.disabled == q.disabled)
  }

  function MatchingIds(like: Like, s: Snapshot, q: Query): set<nat> {
    set id | id in s.users && Matching(like, q, s.users[id])
  }

  function DevicesOf(s: Snapshot, ids: set<nat>): set<Device> {
    set d | d in s.devices && d.user in ids
  }

  function OnlineCount(s: Snapshot, id: nat): nat {
    if s.online.Some? && id in s.online.value then |s.online.value[id]| else 0
  }

  function Entry(s: Snapshot, id: nat): UserVO
    requires id in s.users
  {
    UserVO(id, s.users[id].username, s.users[id].disabled != 0, |DevicesOf(s, {id})|, OnlineCount(s, id))
  }

  function Entries(s: Snapshot, ids: seq<nat>): (r: seq<UserVO>)
    requires forall i :: 0 <= i < |ids| ==> ids[i] in s.users
    ensures |r| == |ids|
  {
    seq(|ids|, i requires 0 <= i < |ids| => Entry(s, ids[i]))
  }

  /** The ids of the matching users, newest first. */
  function MatchingUsers(like: Like, s: Snapshot, q: Query): (ids: seq<nat>)
    ensures Lists(ids, MatchingIds(like, s, q))
    ensures forall i :: 0 <= i < |ids| ==> ids[i] in s.users
  {
    var ids := Desc(MatchingIds(like, s, q));
    assert forall i :: 0 <= i < |ids| ==> ids[i] in MatchingIds(like, s, q);
    ids
  }

  function PageFrom(s: Snapshot, ids: seq<nat>, offset: nat, p: nat, n: nat): Page
    requires forall i :: 0 <= i < |ids| ==> ids[i] in s.users
  {
    Page(Window(Entries(s, ids), offset, n), |ids|, p, n)
  }

  /** The answer to a list request: a window on the matching users, newest id first. */
  function UserPage(like: Like, s: Snapshot, q: Query, page: int, size: int): Page {
    var ids := MatchingUsers(like, s, q);
    var p, n := NormalPage(page), NormalSize(size);
    PageFrom(s, ids, (p - 1) * n, p, n)
  }

  /** A page or size out of range asks for the first page or for twenty entries; the answer names what it used. */
  lemma OutOfRangeFallsBack(like: Like, s: Snapshot, q: Query, page: int, size: int)
    ensures page < 1 ==> UserPage(like, s, q, page, size) == UserPage(like, s, q, 1, size)
    ensures !(1 <= size <= 200) ==> UserPage(like, s, q, page, size) == UserPage(like, s, q, page, 20)
    ensures 1 <= page && 1 <= size <= 200 ==>
      UserPage(like, s, q, page, size).page == page && UserPage(like, s, q, page, size).size == size
  {
  }

  // ---------- As the source computes it ----------

  class AdminDataService {
    const like: Like
    var store: Snapshot

    constructor (like: Like, store: Snapshot)
      ensures this.like == like && this.store == store
    {
      this.like, this.store := like, store;
    }

    /** SELECT user_id, COUNT(*) ... WHERE user_id IN ids GROUP BY user_id: users without a device have no row. */
    method CountDevices(ids: seq<nat>) returns (counts: seq<(nat, nat)>)
      ensures forall i :: 0 <= i < |counts| ==>
                counts[i].0 in ids && counts[i].1 == |DevicesOf(store, {counts[i].0})| && counts[i].1 > 0
      ensures forall d :: d in store.devices && d.user in ids ==>
                exists i :: 0 <= i < |counts| && counts[i].0 == d.user
    {
      counts := [];
      var rest := set d | d in store.devices && d.user in ids :: d.user;
      ghost var all := rest;
      while rest != {}
        invariant rest <= all
        invariant forall i :: 0 <= i < |counts| ==>
                    counts[i].0 in ids && counts[i].1 == |DevicesOf(store, {counts[i].0})| && counts[i].1 > 0
        invariant forall u :: u in all && u !in rest ==> exists i :: 0 <= i < |counts| && counts[i].0 == u
      {
        var u :| u in rest;
        ghost var d :| d in store.devices && d.user == u;
        assert d in DevicesOf(store, {u});
        ghost var before := counts;
        counts := counts + [(u, |DevicesOf(store, {u})|)];
        rest := rest - {u};
        forall v | v in all && v !in rest ensures exists i :: 0 <= i < |counts| && counts[i].0 == v {
          if v == u {
            assert counts[|before|].0 == v;
          } else {
            var i :| 0 <= i < |before| && before[i].0 == v;
            assert counts[i].0 == v;
          }
        }
      }
      forall d | d in store.devices && d.user in ids ensures exists i :: 0 <= i < |counts| && counts[i].0 == d.user {
        assert d.user in all;
      }
    }

    /** The counts by user; a user without a device is absent, which Go's map reads as zero. */
    method DeviceMap(users: seq<nat>) returns (devMap: map<nat, nat>)
      ensures forall u :: u in users ==> (if u in devMap then devMap[u] else 0) == |DevicesOf(store, {u})|
    {
      var devCounts := [];
      if |users| > 0 {
        devCounts := CountDevices(users);
      }
      devMap := map[];
      for i := 0 to |devCounts|
        invariant forall u :: u in devMap ==> devMap[u] == |DevicesOf(store, {u})|
        invariant forall k :: 0 <= k < i ==> devCounts[k].0 in devMap
      {
        devMap := devMap[devCounts[i].0 := devCounts[i].1];
      }
      forall u | u in users && u !in devMap ensures |DevicesOf(store, {u})| == 0 {
        NoDevice(store, users, devCounts, devMap, u);
      }
    }

    method ListUsers(keyword: string, disabled: int, page: int, size: int) returns (result: Page)
      ensures result == UserPage(like, store, Query(keyword, disabled), page, size)
    {
      var p, n := NormalPage(page), NormalSize(size);
      result := ReadPage(Query(keyword, disabled), p, n, (p - 1) * n);
    }

    /** The count, the rows of the page and their device counts. */
    method ReadPage(q: Query, p: nat, n: nat, offset: nat) returns (result: Page)
      ensures result == PageFrom(store, MatchingUsers(like, store, q), offset, p, n)
    {
      var ids := MatchingUsers(like, store, q);
      var total := |ids|;
      var users := Window(ids, offset, n);
      PageEntries(store, ids, offset, p, n);
      var devMap := DeviceMap(users);
      var list := Assemble(users, devMap);
      return Page(list, total, p, n);
    }

    method Assemble(users: seq<nat>, devMap: map<nat, nat>) returns (list: seq<UserVO>)
      requires forall i :: 0 <= i < |users| ==> users[i] in store.users
      requires forall u :: u in users ==> (if u in devMap then devMap[u] else 0) == |DevicesOf(store, {u})|
      ensures list == Entries(store, users)
    {
      list := [];
      for i := 0 to |users|
        invariant list == Entries(store, users)[..i]
      {
        var id := users[i];
        var u := store.users[id];
        var count := if id in devMap then devMap[id] else 0;
        list := list + [UserVO(id, u.username, u.disabled != 0, count, OnlineCount(store, id))];
      }
    }
  }

  lemma NoDevice(s: Snapshot, users: seq<nat>, counts: seq<(nat, nat)>, devMap: map<nat, nat>, id: nat)
    requires id in users && id !in devMap
    requires forall k :: 0 <= k < |counts| ==> counts[k].0 in devMap
    requires forall d :: d in s.devices && d.user in users ==> exists i :: 0 <= i < |counts| && counts[i].0 == d.user
    ensures |DevicesOf(s, {id})| == 0
  {
    assert DevicesOf(s, {id}) == {};
  }

  /** A page holds the entries of the window of ids. */
  lemma PageEntries(s: Snapshot, ids: seq<nat>, offset: nat, p: nat, n: nat)
    requires forall i :: 0 <= i < |ids| ==> ids[i] in s.users
    ensures forall i :: 0 <= i < |Window(ids, offset, n)| ==> Window(ids, offset, n)[i] in s.users
    ensures PageFrom(s, ids, offset, p, n) == Page(Entries(s, Window(ids, offset, n)), |ids|, p, n)
  {
    WindowEntries(s, ids, offset, n);
  }

  lemma WindowEntries(s: Snapshot, ids: seq<nat>, offset: nat, limit: nat)
    requires forall i :: 0 <= i < |ids| ==> ids[i] in s.users
    ensures forall i :: 0 <= i < |Window(ids, offset, limit)| ==> Window(ids, offset, limit)[i] in s.users
    ensures Window(Entries(s, ids), offset, limit) == Entries(s, Window(ids, offset, limit))
  {
  }

  // ---------- Partition ----------

  /** The first `k` pages, one after the other. */
  function Pages(like: Like, s: Snapshot, q: Query, size: int, k: nat): seq<UserVO> {
    if k == 0 then [] else Pages(like, s, q, size, k - 1) + UserPage(like, s, q, k, size).list
  }

  lemma {:induction false} PagesAreWindows(like: Like, s: Snapshot, q: Query, size: int, k: nat)
    ensures Pages(like, s, q, size, k) == Windows(Entries(s, MatchingUsers(like, s, q)), NormalSize(size), k)
  {
    if k > 0 {
      PagesAreWindows(like, s, q, size, k - 1);
    }
  }

  /**
   On a fixed snapshot the pages 1 to ceil(total / size) put together are exactly the matching users, each once, in
   descending order of id.
   */
  lemma PagesPartition(like: Like, s: Snapshot, q: Query, size: int)
    ensures
      var ids := MatchingUsers(like, s, q);
      Pages(like, s, q, size, PageCount(|ids|, NormalSize(size))) == Entries(s, ids)
  {
    var ids, n := MatchingUsers(like, s, q), NormalSize(size);
    PagesAreWindows(like, s, q, size, PageCount(|ids|, n));
    WindowsArePrefix(Entries(s, ids), n, PageCount(|ids|, n));
  }

  /** Each of these pages has an entry, all but the last are full, and later pages are empty. */
  lemma PageLength(like: Like, s: Snapshot, q: Query, size: int, k: nat)
    requires k >= 1
    ensures
      var total, n := |MatchingUsers(like, s, q)|, NormalSize(size);
      var last, shown := PageCount(total, n), |UserPage(like, s, q, k, size).list|;
      && (k <= last ==> shown > 0) && (k < last ==> shown == n) && (k > last ==> shown == 0)
  {
    WindowLength(Entries(s, MatchingUsers(like, s, q)), NormalSize(size), k);
  }

  // ---------- Conservation ----------

  function SumCounts(list: seq<UserVO>): nat {
    if list == [] then 0 else list[0].deviceCount + SumCounts(list[1..])
  }

  /** Devices are counted once: users apart have devices apart. */
  lemma DevicesApart(s: Snapshot, id: nat, others: set<nat>)
    requires id !in others
    ensures |DevicesOf(s, {id} + others)| == |DevicesOf(s, {id})| + |DevicesOf(s, others)|
  {
    assert DevicesOf(s, {id} + others) == DevicesOf(s, {id}) + DevicesOf(s, others);
    assert DevicesOf(s, {id}) !! DevicesOf(s, others);
  }

  lemma ElementsCons(ids: seq<nat>)
    requires Descending(ids) && ids != []
    ensures Elements(ids) == {ids[0]} + Elements(ids[1..]) && ids[0] !in Elements(ids[1..])
  {
    assert ids == [ids[0]] + ids[1..];
  }

  lemma {:induction false} CountsAdd(s: Snapshot, ids: seq<nat>)
    requires Descending(ids) && forall i :: 0 <= i < |ids| ==> ids[i] in s.users
    ensures SumCounts(Entries(s, ids)) == |DevicesOf(s, Elements(ids))|
    decreases |ids|
  {
    if ids == [] {
      assert DevicesOf(s, Elements(ids)) == {};
    } else {
      CountsAdd(s, ids[1..]);
      assert Entries(s, ids)[1..] == Entries(s, ids[1..]);
      ElementsCons(ids);
      DevicesApart(s, ids[0], Elements(ids[1..]));
    }
  }

  lemma AllCounts(like: Like, s: Snapshot, q: Query)
    ensures SumCounts(Entries(s, MatchingUsers(like, s, q))) == |DevicesOf(s, MatchingIds(like, s, q))|
  {
    var ids := MatchingUsers(like, s, q);
    assert Elements(ids) == MatchingIds(like, s, q);
    CountsAdd(s, ids);
  }

  /** The device counts shown on all pages add up to the number of devices of matching users. */
  lemma DeviceCountsAddUp(like: Like, s: Snapshot, q: Query, size: int)
    ensures
      var last := PageCount(|MatchingUsers(like, s, q)|, NormalSize(size));
      SumCounts(Pages(like, s, q, size, last)) == |DevicesOf(s, MatchingIds(like, s, q))|
  {
    PagesPartition(like, s, q, size);
    AllCounts(like, s, q);
  }

  /** The pairs in the online hashes of some users; without a Redis client there are none. */
  function OnlinePairs(s: Snapshot, ids: set<nat>): set<(nat, string)> {
    if s.online.None? then {}
    else set id, d | id in ids && id in s.online.value && d in s.online.value[id] :: (id, d)
  }

  function SumOnline(list: seq<UserVO>): nat {
    if list == [] then 0 else list[0].onlineCount + SumOnline(list[1..])
  }

  lemma OnlineOfOne(s: Snapshot, id: nat)
    ensures |OnlinePairs(s, {id})| == OnlineCount(s, id)
  {
    if s.online.Some? && id in s.online.value {
      PairsOf(s.online.value[id], id);
      assert OnlinePairs(s, {id}) == set d | d in s.online.value[id] :: (id, d);
    } else {
      assert OnlinePairs(s, {id}) == {};
    }
  }

  lemma {:induction false} PairsOf(ds: set<string>, id: nat)
    ensures |set d | d in ds :: (id, d)| == |ds|
  {
    if ds == {} {
      assert (set d | d in ds :: (id, d)) == {};
    } else {
      var d :| d in ds;
      PairsOf(ds - {d}, id);
      assert (set e | e in ds :: (id, e)) == (set e | e in ds - {d} :: (id, e)) + {(id, d)};
    }
  }

  lemma {:induction false} OnlineAdds(s: Snapshot, ids: seq<nat>)
    requires Descending(ids) && forall i :: 0 <= i < |ids| ==> ids[i] in s.users
    ensures SumOnline(Entries(s, ids)) == |OnlinePairs(s, Elements(ids))|
    decreases |ids|
  {
    if ids == [] {
      assert OnlinePairs(s, Elements(ids)) == {};
    } else {
      OnlineAdds(s, ids[1..]);
      assert Entries(s, ids)[1..] == Entries(s, ids[1..]);
      ElementsCons(ids);
      OnlineOfOne(s, ids[0]);
      OnlineApart(s, ids[0], Elements(ids[1..]));
    }
  }

  lemma OnlineApart(s: Snapshot, id: nat, others: set<nat>)
    requires id !in others
    ensures |OnlinePairs(s, {id} + others)| == |OnlinePairs(s, {id})| + |OnlinePairs(s, others)|
  {
    assert OnlinePairs(s, {id} + others) == OnlinePairs(s, {id}) + OnlinePairs(s, others);
    assert OnlinePairs(s, {id}) !! OnlinePairs(s, others);
  }

  /** The online counts shown on all pages add up to the online devices of matching users, and to 0 without Redis. */
  lemma OnlineCountsAddUp(like: Like, s: Snapshot, q: Query, size: int)
    ensures
      var last := PageCount(|MatchingUsers(like, s, q)|, NormalSize(size));
      SumOnline(Pages(like, s, q, size, last)) == |OnlinePairs(s, MatchingIds(like, s, q))|
  {
    PagesPartition(like, s, q, size);
    var ids := MatchingUsers(like, s, q);
    assert Elements(ids) == MatchingIds(like, s, q);
    OnlineAdds(s, ids);
  }

  // ---------- Filters ----------

  /** What an entry shows of its user's row. */
  predicate Shows(s: Snapshot, e: UserVO) {
    && e.id in s.users && e.username == s.users[e.id].username && (e.disabled <==> s.users[e.id].disabled != 0)
    && e.deviceCount == |set d | d in s.devices && d.user == e.id|
  }

  predicate Asked(like: Like, q: Query, u: User) {
    && (q.keyword == "" || like(u.username, q.keyword)) && (q.disabled < 0 || u.disabled == q.disabled)
  }

  lemma EntriesShow(s: Snapshot, ids: seq<nat>)
    requires Descending(ids) && forall i :: 0 <= i < |ids| ==> ids[i] in s.users
    ensures forall i :: 0 <= i < |ids| ==> Shows(s, Entries(s, ids)[i])
    ensures forall i, j :: 0 <= i < j < |ids| ==> Entries(s, ids)[i].id > Entries(s, ids)[j].id
  {
    forall i | 0 <= i < |ids| ensures Shows(s, Entries(s, ids)[i]) {
      assert DevicesOf(s, {ids[i]}) == set d | d in s.devices && d.user == ids[i];
    }
  }

  lemma EntryOf(s: Snapshot, ids: seq<nat>, id: nat)
    requires forall i :: 0 <= i < |ids| ==> ids[i] in s.users
    ensures id in ids <==> exists i :: 0 <= i < |ids| && Entries(s, ids)[i].id == id
  {
    if id in ids {
      var i :| 0 <= i < |ids| && ids[i] == id;
      assert Entries(s, ids)[i].id == id;
    }
  }

  /**
   The pages of a list show exactly the users whose name matches a given keyword and whose disabled column is the number
   asked for, newest first; an empty keyword and a negative number ask for nothing. The total is the same on every page.
   */
  lemma ListedIff(like: Like, s: Snapshot, q: Query, size: int, id: nat)
    ensures
      var all := Pages(like, s, q, size, PageCount(|MatchingUsers(like, s, q)|, NormalSize(size)));
      && (forall i :: 0 <= i < |all| ==> Shows(s, all[i]))
      && (forall k :: UserPage(like, s, q, k, size).total == |all|)
      && (forall i, j :: 0 <= i < j < |all| ==> all[i].id > all[j].id)
      && ((exists i :: 0 <= i < |all| && all[i].id == id) <==> id in s.users && Asked(like, q, s.users[id]))
  {
    var ids := MatchingUsers(like, s, q);
    PagesPartition(like, s, q, size);
    EntriesShow(s, ids);
    EntryOf(s, ids, id);
    assert id in ids <==> id in MatchingIds(like, s, q);
  }

  /** Where the disabled column is 0 or 1, the list of the enabled and that of the disabled make up the whole list. */
  lemma FilterSplits(like: Like, s: Snapshot, keyword: string)
    requires forall id :: id in s.users ==> s.users[id].disabled == 0 || s.users[id].disabled == 1
    ensures
      |MatchingUsers(like, s, Query(keyword, -1))|
      == |MatchingUsers(like, s, Query(keyword, 0))| + |MatchingUsers(like, s, Query(keyword, 1))|
  {
    var all, on, off := MatchingIds(like, s, Query(keyword, -1)), MatchingIds(like, s, Query(keyword, 0)),
                        MatchingIds(like, s, Query(keyword, 1));
    assert all == on + off && on !! off;
  }
}
