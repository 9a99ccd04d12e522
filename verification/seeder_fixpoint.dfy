/** Running the seeder again: what a second run leaves alone, when it is a no-op, and what no run ever takes away. */
module SeederFixpoint {
  import opened Wrappers
  import opened Tables
  import opened Seeder
  import opened SeederConvergence
  import Policies

  // ---------- The permission table alone ----------

  /** The upserts of a list of permission seeds, without their bindings. */
  function PermFold(t: Table<PermRow>, pss: seq<PermSeed>): Table<PermRow>
    decreases |pss|
  {
    if pss == [] then t else PermFold(UpsertPermRow(t, pss[0]).0, pss[1..])
  }

  lemma {:induction false} PermFoldAppend(t: Table<PermRow>, a: seq<PermSeed>, b: seq<PermSeed>)
    ensures PermFold(t, a + b) == PermFold(PermFold(t, a), b)
    decreases |a|
  {
    if a == [] {
      assert a + b == b;
    } else {
      assert (a + b)[1..] == a[1..] + b;
      PermFoldAppend(UpsertPermRow(t, a[0]).0, a[1..], b);
    }
  }

  lemma {:induction false} PermFoldEffect(db: Db, pss: seq<PermSeed>)
    requires Ok(db) && MethodsOk(pss)
    ensures
      var db' := db.(perms := PermFold(db.perms, pss));
      Ok(db') && PermsKept(db, db')
    decreases |pss|
  {
    if pss != [] {
      var db1 := db.(perms := UpsertPermRow(db.perms, pss[0]).0);
      UpsertPermRowEffect(db.perms, pss[0], "", 0);
      forall r, m | FirstPerm(db.perms, r, m).Some? ensures FirstPerm(db1.perms, r, m) == FirstPerm(db.perms, r, m) {
        UpsertPermRowEffect(db.perms, pss[0], r, m);
      }
      PermFoldEffect(db1, pss[1..]);
      PermsKeptTrans(db, db1, db.(perms := PermFold(db.perms, pss)));
    }
  }

  // ---------- A forest already in place ----------

  lemma SettledRowStays(t: Table<MenuRow>, parent: nat, s: MenuSeed)
    requires FirstMenu(t, s.code).Some? && RowSettled(t.rows[FirstMenu(t, s.code).value], parent, s)
    ensures UpsertRow(t, parent, s) == (t, FirstMenu(t, s.code).value)
  {
    var id := FirstMenu(t, s.code).value;
    assert Refresh(t.rows[id], parent, s) == t.rows[id];
    assert t.rows[id := t.rows[id]] == t.rows;
  }

  lemma {:induction false} PlacedPermsStay(db: Db, menu: nat, pss: seq<PermSeed>)
    requires Ok(db) && MethodsOk(pss) && PermsPlaced(db, menu, pss)
    ensures UpsertPerms(db, menu, pss) == db.(perms := PermFold(db.perms, pss))
    decreases |pss|
  {
    if pss != [] {
      assert PermPlaced(db, menu, pss[0]);
      var db1 := UpsertPerm(db, menu, pss[0]);
      assert db1 == db.(perms := UpsertPermRow(db.perms, pss[0]).0);
      UpsertPermEffect(db, menu, pss[0]);
      forall i | 0 <= i < |pss[1..]| ensures PermPlaced(db1, menu, pss[1..][i]) {
        assert PermPlaced(db, menu, pss[i + 1]);
      }
      PlacedPermsStay(db1, menu, pss[1..]);
    }
  }

  /** Upserting a forest that is in place rewrites permission rows and nothing else. */
  lemma {:induction false} PlacedForestStays(db: Db, parent: nat, ss: seq<MenuSeed>)
    requires Ok(db) && MethodsOk(PermSeeds(ss)) && ForestPlaced(db, parent, ss)
    ensures UpsertForest(db, parent, ss) == db.(perms := PermFold(db.perms, PermSeeds(ss)))
    decreases ss
  {
    if ss != [] {
      var s := ss[0];
      var own, below, rest := s.perms, PermSeeds(s.children), PermSeeds(ss[1..]);
      var id := FirstMenu(db.menus, s.code).value;
      MethodsSplit(own, below, rest);
      SettledRowStays(db.menus, parent, s);
      PlacedPermsStay(db, id, own);
      var db1 := db.(perms := PermFold(db.perms, own));
      PermFoldEffect(db, own);
      ForestKept(db, db1, id, s.children);
      PlacedForestStays(db1, id, s.children);
      var db2 := db1.(perms := PermFold(db1.perms, below));
      PermFoldEffect(db1, below);
      PermsKeptTrans(db, db1, db2);
      ForestKept(db, db2, parent, ss[1..]);
      PlacedForestStays(db2, parent, ss[1..]);
      PermFoldAppend(db.perms, own, below);
      PermFoldAppend(db.perms, own + below, rest);
    }
  }

  lemma SweepTwice(t: Table<MenuRow>, codes: seq<string>)
    ensures Sweep(Sweep(t, codes), codes) == Sweep(t, codes)
  {
  }

  /**
   Fixpoint. A second run changes no menu row, no row id, no tombstone and no binding: it only rewrites columns of
   permission rows.
   */
  lemma SecondRun(db: Db, tree: seq<MenuSeed>)
    requires Ok(db) && NoDup(Codes(tree)) && MethodsOk(PermSeeds(tree))
    ensures
      var once := Seed(db, tree);
      Seed(once, tree) == once.(perms := PermFold(once.perms, PermSeeds(tree)))
  {
    SeedConverges(db, tree);
    PlacedForestStays(Seed(db, tree), 0, tree);
    SweepTwice(UpsertForest(db, 0, tree).menus, Codes(tree));
  }

  // ---------- What the rewriting comes to ----------

  predicate ForKey(ps: PermSeed, route: string, m: int) {
    ps.route == route && ps.httpMethod == m
  }

  function Count(pss: seq<PermSeed>, route: string, m: int): nat {
    if pss == [] then 0 else (if ForKey(pss[0], route, m) then 1 else 0) + Count(pss[1..], route, m)
  }

  /** The last seed for a route and method. */
  function LastSeed(pss: seq<PermSeed>, route: string, m: int): (r: Option<PermSeed>)
    ensures r.Some? <==> Count(pss, route, m) > 0
    ensures r.Some? ==> r.value in pss && ForKey(r.value, route, m)
  {
    if pss == [] then None
    else
      var later := LastSeed(pss[1..], route, m);
      if later.Some? then later else if ForKey(pss[0], route, m) then Some(pss[0]) else None
  }

  predicate AllPresent(t: Table<PermRow>, pss: seq<PermSeed>) {
    forall i :: 0 <= i < |pss| ==> FirstPerm(t, pss[i].route, pss[i].httpMethod).Some?
  }

  /** A row after the last seed for its route and method, if a query for these finds the row first. */
  function Rewritten(t: Table<PermRow>, pss: seq<PermSeed>, id: nat): PermRow
    requires id in t.rows
  {
    var r := t.rows[id];
    var last := LastSeed(pss, r.route, r.httpMethod);
    if FirstPerm(t, r.route, r.httpMethod) == Some(id) && last.Some?
    then r.(name := last.value.name, isIntercept := last.value.isIntercept) else r
  }

  function RewriteAll(t: Table<PermRow>, pss: seq<PermSeed>): Table<PermRow> {
    t.(rows := map id | id in t.rows :: Rewritten(t, pss, id))
  }

  lemma SameKeysSameFirst(t: Table<PermRow>, u: Table<PermRow>, route: string, m: int)
    requires t.rows.Keys == u.rows.Keys
    requires forall id :: id in t.rows ==>
               u.rows[id].route == t.rows[id].route && u.rows[id].httpMethod == t.rows[id].httpMethod
               && u.rows[id].isDel == t.rows[id].isDel
    ensures FirstPerm(u, route, m) == FirstPerm(t, route, m)
  {
    assert PermIds(u, route, m) == PermIds(t, route, m);
  }

  /** Upserting one seed keeps every lookup that succeeds for its key, and rewrites the row the lookup finds. */
  lemma UpsertPresent(t: Table<PermRow>, ps: PermSeed)
    requires FirstPerm(t, ps.route, ps.httpMethod).Some?
    ensures
      var u := UpsertPermRow(t, ps).0;
      && u.rows.Keys == t.rows.Keys && u.next == t.next
      && (forall r, m :: FirstPerm(u, r, m) == FirstPerm(t, r, m))
      && forall id :: id in t.rows ==>
           u.rows[id] == if FirstPerm(t, ps.route, ps.httpMethod) == Some(id)
                         then t.rows[id].(name := ps.name, isIntercept := ps.isIntercept) else t.rows[id]
  {
    var u := UpsertPermRow(t, ps).0;
    forall r, m ensures FirstPerm(u, r, m) == FirstPerm(t, r, m) {
      SameKeysSameFirst(t, u, r, m);
    }
  }

  lemma RewrittenStep(t: Table<PermRow>, pss: seq<PermSeed>, id: nat)
    requires pss != [] && id in t.rows && FirstPerm(t, pss[0].route, pss[0].httpMethod).Some?
    ensures
      var u := UpsertPermRow(t, pss[0]).0;
      id in u.rows && Rewritten(u, pss[1..], id) == Rewritten(t, pss, id)
  {
    UpsertPresent(t, pss[0]);
  }

  /** Where every key has a row, the upserts give each found row the values of the last seed for its key. */
  lemma {:induction false} PermFoldPresent(t: Table<PermRow>, pss: seq<PermSeed>)
    requires AllPresent(t, pss)
    ensures PermFold(t, pss) == RewriteAll(t, pss)
    decreases |pss|
  {
    if pss == [] {
      assert RewriteAll(t, pss).rows == t.rows;
    } else {
      var u := UpsertPermRow(t, pss[0]).0;
      UpsertPresent(t, pss[0]);
      assert AllPresent(u, pss[1..]) by {
        forall i | 0 <= i < |pss[1..]| ensures FirstPerm(u, pss[1..][i].route, pss[1..][i].httpMethod).Some? {
          assert FirstPerm(t, pss[i + 1].route, pss[i + 1].httpMethod).Some?;
        }
      }
      PermFoldPresent(u, pss[1..]);
      forall id | id in t.rows ensures Rewritten(u, pss[1..], id) == Rewritten(t, pss, id) {
        RewrittenStep(t, pss, id);
      }
      assert RewriteAll(u, pss[1..]).rows == RewriteAll(t, pss).rows;
    }
  }

  lemma {:induction false} PlacedPresent(db: Db, parent: nat, ss: seq<MenuSeed>)
    requires ForestPlaced(db, parent, ss)
    ensures AllPresent(db.perms, PermSeeds(ss))
    decreases ss
  {
    if ss != [] {
      var id := FirstMenu(db.menus, ss[0].code).value;
      assert PermsPlaced(db, id, ss[0].perms);
      forall i | 0 <= i < |ss[0].perms|
        ensures FirstPerm(db.perms, ss[0].perms[i].route, ss[0].perms[i].httpMethod).Some?
      {
        assert PermPlaced(db, id, ss[0].perms[i]);
      }
      PlacedPresent(db, id, ss[0].children);
      PlacedPresent(db, parent, ss[1..]);
    }
  }

  /** From the second run on nothing changes at all. */
  lemma ThirdRun(db: Db, tree: seq<MenuSeed>)
    requires Ok(db) && NoDup(Codes(tree)) && MethodsOk(PermSeeds(tree))
    ensures
      var twice := Seed(Seed(db, tree), tree);
      Seed(twice, tree) == twice
  {
    var once := Seed(db, tree);
    var twice := Seed(once, tree);
    var pss := PermSeeds(tree);
    SeedConverges(db, tree);
    SeedConverges(once, tree);
    SecondRun(db, tree);
    SecondRun(once, tree);
    PlacedPresent(once, 0, tree);
    PlacedPresent(twice, 0, tree);
    PermFoldPresent(once.perms, pss);
    PermFoldPresent(twice.perms, pss);
    RewriteTwice(once.perms, pss);
  }

  lemma RewriteTwice(t: Table<PermRow>, pss: seq<PermSeed>)
    ensures RewriteAll(RewriteAll(t, pss), pss) == RewriteAll(t, pss)
  {
    var u := RewriteAll(t, pss);
    forall r, m ensures FirstPerm(u, r, m) == FirstPerm(t, r, m) {
      SameKeysSameFirst(t, u, r, m);
    }
    forall id | id in u.rows ensures Rewritten(u, pss, id) == u.rows[id] {
      assert u.rows[id] == Rewritten(t, pss, id);
    }
    assert RewriteAll(u, pss).rows == u.rows;
  }

  // ---------- When the second run changes nothing either ----------

  lemma {:induction false} PermFoldOther(t: Table<PermRow>, pss: seq<PermSeed>, route: string, m: int)
    requires t.Valid() && MethodsOk(pss) && Count(pss, route, m) == 0 && FirstPerm(t, route, m).Some?
    ensures
      var u := PermFold(t, pss);
      FirstPerm(u, route, m) == FirstPerm(t, route, m)
      && u.rows[FirstPerm(t, route, m).value] == t.rows[FirstPerm(t, route, m).value]
    decreases |pss|
  {
    if pss != [] {
      UpsertPermRowEffect(t, pss[0], route, m);
      PermFoldOther(UpsertPermRow(t, pss[0]).0, pss[1..], route, m);
    }
  }

  /**
   What one run stores for a seeded key: the last seed's values, but for the column default on a row that the run
   created and did not meet again.
   */
  lemma {:induction false} PermFoldOutcome(t: Table<PermRow>, pss: seq<PermSeed>, route: string, m: int)
    requires t.Valid() && MethodsOk(pss) && Count(pss, route, m) > 0
    ensures
      var u := PermFold(t, pss);
      var last := LastSeed(pss, route, m).value;
      var id := FirstPerm(u, route, m);
      && id.Some? && u.rows[id.value].name == last.name
      && (u.rows[id.value].isIntercept ==
            if FirstPerm(t, route, m).None? && Count(pss, route, m) == 1 && last.isIntercept == 0
            then DEFAULT_INTERCEPT else last.isIntercept)
    decreases |pss|
  {
    var u := UpsertPermRow(t, pss[0]).0;
    UpsertPermRowEffect(t, pss[0], route, m);
    if Count(pss[1..], route, m) > 0 {
      PermFoldOutcome(u, pss[1..], route, m);
    } else {
      PermFoldOther(u, pss[1..], route, m);
    }
  }

  lemma {:induction false} ForestPerms(db: Db, parent: nat, ss: seq<MenuSeed>)
    ensures UpsertForest(db, parent, ss).perms == PermFold(db.perms, PermSeeds(ss))
    decreases ss
  {
    if ss != [] {
      var s := ss[0];
      var (t, id) := UpsertRow(db.menus, parent, s);
      var db1 := db.(menus := t);
      OwnPerms(db1, id, s.perms);
      ForestPerms(UpsertPerms(db1, id, s.perms), id, s.children);
      ForestPerms(UpsertMenu(db, parent, s), parent, ss[1..]);
      PermFoldAppend(db.perms, s.perms, PermSeeds(s.children));
      PermFoldAppend(db.perms, s.perms + PermSeeds(s.children), PermSeeds(ss[1..]));
    }
  }

  lemma {:induction false} OwnPerms(db: Db, menu: nat, pss: seq<PermSeed>)
    ensures UpsertPerms(db, menu, pss).perms == PermFold(db.perms, pss)
    decreases |pss|
  {
    if pss != [] {
      OwnPerms(UpsertPerm(db, menu, pss[0]), menu, pss[1..]);
    }
  }

  /** A seed for an open route that the first run is going to create and not meet again. */
  predicate StoredClosed(t: Table<PermRow>, pss: seq<PermSeed>, ps: PermSeed) {
    ps.isIntercept == 0 && FirstPerm(t, ps.route, ps.httpMethod).None? && Count(pss, ps.route, ps.httpMethod) == 1
  }

  lemma {:induction false} SeedCounts(pss: seq<PermSeed>, ps: PermSeed)
    requires ps in pss
    ensures Count(pss, ps.route, ps.httpMethod) > 0
    ensures Count(pss, ps.route, ps.httpMethod) == 1 ==> LastSeed(pss, ps.route, ps.httpMethod) == Some(ps)
    decreases |pss|
  {
    if ps in pss[1..] {
      SeedCounts(pss[1..], ps);
    }
  }

  lemma StoredClosedIsRewritten(t: Table<PermRow>, pss: seq<PermSeed>, ps: PermSeed)
    requires t.Valid() && MethodsOk(pss) && ps in pss && StoredClosed(t, pss, ps)
    ensures RewriteAll(PermFold(t, pss), pss) != PermFold(t, pss)
  {
    var u := PermFold(t, pss);
    SeedCounts(pss, ps);
    PermFoldOutcome(t, pss, ps.route, ps.httpMethod);
    var id := FirstPerm(u, ps.route, ps.httpMethod).value;
    assert RewriteAll(u, pss).rows[id].isIntercept == 0;
  }

  lemma OthersAreNotRewritten(t: Table<PermRow>, pss: seq<PermSeed>)
    requires t.Valid() && MethodsOk(pss) && forall ps :: ps in pss ==> !StoredClosed(t, pss, ps)
    ensures RewriteAll(PermFold(t, pss), pss) == PermFold(t, pss)
  {
    var u := PermFold(t, pss);
    forall id | id in u.rows ensures Rewritten(u, pss, id) == u.rows[id] {
      var r := u.rows[id];
      if LastSeed(pss, r.route, r.httpMethod).Some? {
        PermFoldOutcome(t, pss, r.route, r.httpMethod);
        assert !StoredClosed(t, pss, LastSeed(pss, r.route, r.httpMethod).value);
      }
    }
    assert RewriteAll(u, pss).rows == u.rows;
  }

  /**
   The second run changes nothing exactly when no seed opens a route (is_intercept 0) that had no live row before
   the first run and that only this seed names: Create stores the column default 1 for such a seed, and the second
   run corrects it.
   */
  lemma SecondRunChangesNothingIff(db: Db, tree: seq<MenuSeed>)
    requires Ok(db) && NoDup(Codes(tree)) && MethodsOk(PermSeeds(tree))
    ensures
      Seed(Seed(db, tree), tree) == Seed(db, tree) <==>
      forall ps :: ps in PermSeeds(tree) ==> !StoredClosed(db.perms, PermSeeds(tree), ps)
  {
    var pss, once := PermSeeds(tree), Seed(db, tree);
    SeedConverges(db, tree);
    SecondRun(db, tree);
    PlacedPresent(once, 0, tree);
    PermFoldPresent(once.perms, pss);
    ForestPerms(db, 0, tree);
    if ps :| ps in pss && StoredClosed(db.perms, pss, ps) {
      StoredClosedIsRewritten(db.perms, pss, ps);
    } else {
      OthersAreNotRewritten(db.perms, pss);
    }
  }

  // ---------- Grants ----------

  ghost predicate Wider(db: Db, db': Db) {
    && db'.menuPerm.Valid() && Rel(db.menuPerm) <= Rel(db'.menuPerm)
    && db'.adminRole == db.adminRole && db'.roleMenu == db.roleMenu && db'.admins == db.admins && db'.roles == db.roles
  }

  lemma {:induction false} UpsertPermsWider(db: Db, menu: nat, pss: seq<PermSeed>)
    requires db.menuPerm.Valid()
    ensures Wider(db, UpsertPerms(db, menu, pss))
    decreases |pss|
  {
    if pss != [] {
      RelBind(db.menuPerm, menu, UpsertPermRow(db.perms, pss[0]).1);
      UpsertPermsWider(UpsertPerm(db, menu, pss[0]), menu, pss[1..]);
    }
  }

  lemma {:induction false} UpsertForestWider(db: Db, parent: nat, ss: seq<MenuSeed>)
    requires db.menuPerm.Valid()
    ensures Wider(db, UpsertForest(db, parent, ss))
    decreases ss
  {
    if ss != [] {
      var s := ss[0];
      var (t, id) := UpsertRow(db.menus, parent, s);
      UpsertPermsWider(db.(menus := t), id, s.perms);
      UpsertForestWider(UpsertPerms(db.(menus := t), id, s.perms), id, s.children);
      UpsertForestWider(UpsertMenu(db, parent, s), parent, ss[1..]);
    }
  }

  /**
   No run of the seeder, on any tables and for any forest, takes a permission from anyone or changes who is a super
   admin. This includes permissions held through menus that the run sweeps: their bindings stay.
   */
  lemma SeedingNeverShrinksGrants(db: Db, tree: seq<MenuSeed>, admin: nat, perm: nat)
    requires db.menuPerm.Valid()
    ensures
      var p, q := Policies.Abs(db), Policies.Abs(Seed(db, tree));
      && (Policies.Granted(p, admin, perm) ==> Policies.Granted(q, admin, perm))
      && (Policies.IsSuperAdmin(q, admin) <==> Policies.IsSuperAdmin(p, admin))
  {
    UpsertForestWider(db, 0, tree);
    var p, q := Policies.Abs(db), Policies.Abs(Seed(db, tree));
    assert p.adminRole == q.adminRole && p.supers == q.supers;
    if Policies.Granted(p, admin, perm) {
      var r: nat, m: nat :| (admin, r) in p.adminRole && (r, m) in p.roleMenu && (m, perm) in p.menuPerm;
      assert (admin, r) in q.adminRole && (r, m) in q.roleMenu && (m, perm) in q.menuPerm;
    }
  }
}
