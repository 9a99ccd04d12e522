/**
 What a run of the seeder registers, shows and allows, and what it leaves as administrators have set it: read off the
 rows after a run from any tables.
 */
module SeederCoverage {
  import opened Wrappers
  import opened Tables
  import opened Decisions
  import opened Seeder
  import opened SeederConvergence
  import opened SeederFixpoint
  import SeederDecisions
  import RBAC

  // ---------- Permission rows ----------

  /** The row a query finds for a seeded key: an old one keeps its status, a new one is enabled. */
  lemma {:induction false} StatusOfSeeded(t: Table<PermRow>, pss: seq<PermSeed>, route: string, m: int)
    requires t.Valid() && MethodsOk(pss) && Count(pss, route, m) > 0
    ensures
      var u := PermFold(t, pss);
      var old', id := FirstPerm(t, route, m), FirstPerm(u, route, m);
      && id.Some? && (old'.Some? ==> id == old')
      && u.rows[id.value].status == (if old'.Some? then t.rows[old'.value].status else 0)
      && (old'.None? && Count(pss, route, m) == 1 ==>
            u.rows[id.value].sort == LastSeed(pss, route, m).value.sort && u.rows[id.value].parent == 0)
    decreases |pss|
  {
    var u := UpsertPermRow(t, pss[0]).0;
    UpsertPermRowEffect(t, pss[0], route, m);
    if Count(pss[1..], route, m) > 0 {
      StatusOfSeeded(u, pss[1..], route, m);
    } else {
      PermFoldOther(u, pss[1..], route, m);
    }
  }

  lemma RowsKept(db: Db, tree: seq<MenuSeed>, q: nat)
    requires Ok(db) && MethodsOk(PermSeeds(tree)) && q in db.perms.rows
    ensures
      var rows := Seed(db, tree).perms.rows;
      q in rows && rows[q].(name := "", isIntercept := 0) == db.perms.rows[q].(name := "", isIntercept := 0)
  {
    ForestPerms(db, 0, tree);
    SeederDecisions.PermFoldExisting(db.perms, PermSeeds(tree), q);
  }

  lemma RegisteredAfter(db: Db, tree: seq<MenuSeed>, ps: PermSeed, httpMethod: string)
    requires Ok(db) && MethodsOk(PermSeeds(tree)) && ps in PermSeeds(tree) && MethodDecides(ps.httpMethod, httpMethod)
    requires Registered(db, httpMethod, ps.route) || FirstPerm(db.perms, ps.route, ps.httpMethod).None?
    ensures Registered(Seed(db, tree), httpMethod, ps.route)
  {
    var rows, pss := Seed(db, tree).perms.rows, PermSeeds(tree);
    ForestPerms(db, 0, tree);
    if FirstPerm(db.perms, ps.route, ps.httpMethod).None? {
      SeedCounts(pss, ps);
      StatusOfSeeded(db.perms, pss, ps.route, ps.httpMethod);
      var q := FirstPerm(Seed(db, tree).perms, ps.route, ps.httpMethod).value;
      assert q in rows && RowDecides(rows[q], httpMethod, ps.route);
    } else {
      var q :| q in db.perms.rows && RowDecides(db.perms.rows[q], httpMethod, ps.route);
      RowsKept(db, tree, q);
      assert q in rows && RowDecides(rows[q], httpMethod, ps.route);
    }
  }

  lemma RegisteredBefore(db: Db, tree: seq<MenuSeed>, ps: PermSeed, httpMethod: string)
    requires Ok(db) && MethodsOk(PermSeeds(tree)) && ps in PermSeeds(tree) && MethodDecides(ps.httpMethod, httpMethod)
    requires Registered(Seed(db, tree), httpMethod, ps.route)
    ensures Registered(db, httpMethod, ps.route) || FirstPerm(db.perms, ps.route, ps.httpMethod).None?
  {
    var rows := Seed(db, tree).perms.rows;
    var q :| q in rows && RowDecides(rows[q], httpMethod, ps.route);
    if q in db.perms.rows {
      RowsKept(db, tree, q);
    } else {
      ForestPerms(db, 0, tree);
      SeederDecisions.PermFoldNew(db.perms, PermSeeds(tree), q);
      SameNumber(httpMethod, rows[q].httpMethod, ps.httpMethod);
    }
  }

  /**
   A run registers a seeded route exactly if it was registered before or had no undeleted row: a permission that an
   administrator has disabled stays disabled, and any other seeded route is never answered as unregistered.
   */
  lemma RegisteredIff(db: Db, tree: seq<MenuSeed>, ps: PermSeed, httpMethod: string)
    requires Ok(db) && MethodsOk(PermSeeds(tree)) && ps in PermSeeds(tree) && MethodDecides(ps.httpMethod, httpMethod)
    ensures Registered(Seed(db, tree), httpMethod, ps.route) <==>
      Registered(db, httpMethod, ps.route) || FirstPerm(db.perms, ps.route, ps.httpMethod).None?
  {
    if Registered(Seed(db, tree), httpMethod, ps.route) {
      RegisteredBefore(db, tree, ps, httpMethod);
    } else if Registered(db, httpMethod, ps.route) || FirstPerm(db.perms, ps.route, ps.httpMethod).None? {
      RegisteredAfter(db, tree, ps, httpMethod);
    }
  }

  lemma SameNumber(httpMethod: string, j: int, k: int)
    requires 1 <= j <= 4 && 1 <= k <= 4
    requires Spells(httpMethod, METHODS[j - 1]) && Spells(httpMethod, METHODS[k - 1])
    ensures j == k
  {
    if j != k {
      NamesApart(httpMethod, j, k);
    }
  }

  /** No two undeleted rows are for the same route and method. */
  ghost predicate KeysUnique(t: Table<PermRow>) {
    forall i, j | i in t.rows && j in t.rows && t.rows[i].isDel == 0 && t.rows[j].isDel == 0 ::
      t.rows[i].route == t.rows[j].route && t.rows[i].httpMethod == t.rows[j].httpMethod ==> i == j
  }

  lemma UpsertKeepsKeysUnique(t: Table<PermRow>, ps: PermSeed)
    requires t.Valid() && ps.httpMethod != 0 && KeysUnique(t)
    ensures KeysUnique(UpsertPermRow(t, ps).0)
  {
    if FirstPerm(t, ps.route, ps.httpMethod).None? {
      assert PermIds(t, ps.route, ps.httpMethod) == {};
      forall id | id in t.rows && t.rows[id].isDel == 0
        ensures t.rows[id].route != ps.route || t.rows[id].httpMethod != ps.httpMethod
      {
        assert id !in PermIds(t, ps.route, ps.httpMethod);
      }
    }
  }

  lemma {:induction false} FoldKeepsKeysUnique(t: Table<PermRow>, pss: seq<PermSeed>)
    requires t.Valid() && MethodsOk(pss) && KeysUnique(t)
    ensures KeysUnique(PermFold(t, pss))
    decreases |pss|
  {
    if pss != [] {
      UpsertKeepsKeysUnique(t, pss[0]);
      UpsertPermRowEffect(t, pss[0], "", 0);
      FoldKeepsKeysUnique(UpsertPermRow(t, pss[0]).0, pss[1..]);
    }
  }

  /** A run adds no second row for a route and method that has one, enabled or not. */
  lemma SeedKeepsKeysUnique(db: Db, tree: seq<MenuSeed>)
    requires Ok(db) && MethodsOk(PermSeeds(tree)) && KeysUnique(db.perms)
    ensures KeysUnique(Seed(db, tree).perms)
  {
    ForestPerms(db, 0, tree);
    FoldKeepsKeysUnique(db.perms, PermSeeds(tree));
  }

  // ---------- Bindings ----------

  /** Undeleted pairs are left as they are, new ones are enabled, and no pair is bound twice. */
  ghost predicate BindsOnce(t: JoinTable, t': JoinTable) {
    && t'.Valid() && (PairsUnique(t) ==> PairsUnique(t'))
    && forall l: nat, r: nat {:trigger RBAC.Bound(t, l, r)} {:trigger RBAC.Bound(t', l, r)} ::
         && (RBAC.Bound(t, l, r) ==> RBAC.Bound(t', l, r) && (Joined(t', l, r) <==> Joined(t, l, r)))
         && (RBAC.Bound(t', l, r) && !RBAC.Bound(t, l, r) ==> Joined(t', l, r))
  }

  lemma BindBindsOnce(t: JoinTable, l: nat, r: nat)
    requires t.Valid() && !RBAC.Bound(t, l, r)
    ensures BindsOnce(t, Bind(t, l, r))
  {
    var t' := Bind(t, l, r);
    assert t'.rows[t.next] == Join(l, r, 0, 0) && Joined(t', l, r);
    forall i: nat, j: nat
      ensures RBAC.Bound(t, i, j) ==> RBAC.Bound(t', i, j) && (Joined(t', i, j) <==> Joined(t, i, j))
      ensures RBAC.Bound(t', i, j) && !RBAC.Bound(t, i, j) ==> Joined(t', i, j)
    {
      RowsOfBind(t, l, r, i, j);
    }
  }

  lemma RowsOfBind(t: JoinTable, l: nat, r: nat, i: nat, j: nat)
    requires t.Valid()
    ensures RBAC.Bound(Bind(t, l, r), i, j) <==> RBAC.Bound(t, i, j) || (i == l && j == r)
    ensures Joined(Bind(t, l, r), i, j) <==> Joined(t, i, j) || (i == l && j == r)
  {
    var t' := Bind(t, l, r);
    assert t'.rows[t.next] == Join(l, r, 0, 0);
    assert forall id :: id in t.rows ==> id in t'.rows && t'.rows[id] == t.rows[id];
  }

  lemma BindsOnceTrans(a: JoinTable, b: JoinTable, c: JoinTable)
    requires BindsOnce(a, b) && BindsOnce(b, c)
    ensures BindsOnce(a, c)
  {
  }

  lemma {:induction false} PermsBindOnce(db: Db, menu: nat, pss: seq<PermSeed>)
    requires db.menuPerm.Valid()
    ensures BindsOnce(db.menuPerm, UpsertPerms(db, menu, pss).menuPerm)
    decreases |pss|
  {
    if pss != [] {
      var q := UpsertPermRow(db.perms, pss[0]).1;
      var db1 := UpsertPerm(db, menu, pss[0]);
      if !RBAC.Bound(db.menuPerm, menu, q) {
        BindBindsOnce(db.menuPerm, menu, q);
      }
      PermsBindOnce(db1, menu, pss[1..]);
      BindsOnceTrans(db.menuPerm, db1.menuPerm, UpsertPerms(db, menu, pss).menuPerm);
    }
  }

  lemma {:induction false} ForestBindsOnce(db: Db, parent: nat, ss: seq<MenuSeed>)
    requires db.menuPerm.Valid()
    ensures BindsOnce(db.menuPerm, UpsertForest(db, parent, ss).menuPerm)
    decreases ss
  {
    if ss != [] {
      var s := ss[0];
      var (t, id) := UpsertRow(db.menus, parent, s);
      var db1 := UpsertPerms(db.(menus := t), id, s.perms);
      var db2 := UpsertMenu(db, parent, s);
      PermsBindOnce(db.(menus := t), id, s.perms);
      ForestBindsOnce(db1, id, s.children);
      ForestBindsOnce(db2, parent, ss[1..]);
      BindsOnceTrans(db.menuPerm, db1.menuPerm, db2.menuPerm);
      BindsOnceTrans(db.menuPerm, db2.menuPerm, UpsertForest(db, parent, ss).menuPerm);
    }
  }

  /** A run binds no menu to a permission twice. */
  lemma SeedBindsOnce(db: Db, tree: seq<MenuSeed>)
    requires db.menuPerm.Valid() && PairsUnique(db.menuPerm)
    ensures PairsUnique(Seed(db, tree).menuPerm)
  {
    ForestBindsOnce(db, 0, tree);
  }

  // ---------- Nodes ----------

  /** All nodes of a forest. */
  function Nodes(ss: seq<MenuSeed>): seq<MenuSeed> {
    if ss == [] then [] else [ss[0]] + Nodes(ss[0].children) + Nodes(ss[1..])
  }

  lemma {:induction false} NodeInForest(db: Db, parent: nat, ss: seq<MenuSeed>, s: MenuSeed)
    requires ForestPlaced(db, parent, ss) && s in Nodes(ss)
    ensures s.code in Codes(ss) && FirstMenu(db.menus, s.code).Some?
    ensures PermsPlaced(db, FirstMenu(db.menus, s.code).value, s.perms)
    ensures forall i :: 0 <= i < |s.perms| ==> s.perms[i] in PermSeeds(ss)
    decreases ss
  {
    if s in Nodes(ss[0].children) {
      NodeInForest(db, FirstMenu(db.menus, ss[0].code).value, ss[0].children, s);
    } else if s in Nodes(ss[1..]) {
      NodeInForest(db, parent, ss[1..], s);
    }
  }

  /**
   Whoever has a role with the menu of a seed may call the seed's route after a run, if the route's permission was new
   or enabled and its binding to the menu was new or enabled.
   */
  lemma MenuHoldersAllowed(db: Db, tree: seq<MenuSeed>, s: MenuSeed, i: nat, admin: nat, role: nat, httpMethod: string)
    requires Ok(db) && NoDup(Codes(tree)) && MethodsOk(PermSeeds(tree)) && s in Nodes(tree) && i < |s.perms|
    requires MethodDecides(s.perms[i].httpMethod, httpMethod)
    ensures
      var db', ps := Seed(db, tree), s.perms[i];
      var menu, q := FirstMenu(db'.menus, s.code), FirstPerm(db'.perms, ps.route, ps.httpMethod);
      var before := FirstPerm(db.perms, ps.route, ps.httpMethod);
      && menu.Some? && q.Some?
      && (&& Joined(db.adminRole, admin, role) && Joined(db.roleMenu, role, menu.value)
          && (before.None? || db.perms.rows[before.value].status == 0)
          && (!RBAC.Bound(db.menuPerm, menu.value, q.value) || Joined(db.menuPerm, menu.value, q.value)) ==>
            Permitted(db', admin, httpMethod, ps.route))
  {
    var db', ps := Seed(db, tree), s.perms[i];
    SeedConverges(db, tree);
    NodeInForest(db', 0, tree, s);
    assert PermPlaced(db', FirstMenu(db'.menus, s.code).value, ps);
    ForestPerms(db, 0, tree);
    ForestBindsOnce(db, 0, tree);
    UpsertForestWider(db, 0, tree);
    assert ps in PermSeeds(tree);
    SeedCounts(PermSeeds(tree), ps);
    StatusOfSeeded(db.perms, PermSeeds(tree), ps.route, ps.httpMethod);
  }

  // ---------- Menu rows ----------

  /** What the row of a seeded code was, `r`, and is, `r'`: what the seed does not set stays as it was. */
  predicate Refreshed(r: MenuRow, r': MenuRow, s: MenuSeed) {
    && r'.status == r.status && r'.isLink == r.isLink && r'.included == r.included && r'.valueKey == r.valueKey
    && r'.valueWidth == r.valueWidth && r'.valueEllipsis == r.valueEllipsis && r'.remark == r.remark
    && (s.name == "" ==> r'.name == r.name) && (s.path == "" ==> r'.path == r.path)
    && (s.icon == "" ==> r'.icon == r.icon) && (s.sort == 0 ==> r'.sort == r.sort)
  }

  /** A row that a run has created: enabled, with the seed's values, and nothing in the other columns. */
  predicate Created(r': MenuRow, s: MenuSeed) {
    && r'.status == 0 && r'.name == s.name && r'.path == s.path && r'.icon == s.icon && r'.sort == s.sort
    && r'.remark == "系统内置" && r'.isLink == 0 && r'.included == "" && r'.valueKey == "" && r'.valueWidth == ""
    && r'.valueEllipsis == 0
  }

  predicate NodeRow(db: Db, db': Db, s: MenuSeed) {
    var a, b := FirstMenu(db.menus, s.code), FirstMenu(db'.menus, s.code);
    && b.Some? && (a.Some? ==> b == a && Refreshed(db.menus.rows[a.value], db'.menus.rows[b.value], s))
    && (a.None? ==> Created(db'.menus.rows[b.value], s))
  }

  lemma OwnNodeRow(db: Db, parent: nat, s: MenuSeed)
    requires Ok(db)
    ensures NodeRow(db, db.(menus := UpsertRow(db.menus, parent, s).0), s)
  {
    UpsertRowEffect(db, parent, s);
  }

  /** The row is deleted, or no seed has its code. */
  predicate Unseeded(t: Table<MenuRow>, id: nat, codes: seq<string>) {
    id in t.rows && (t.rows[id].isDel != 0 || t.rows[id].code !in codes)
  }

  /** The parts of an upsert of one tree, and the codes each of them keeps. */
  lemma UpsertMenuParts(db: Db, parent: nat, s: MenuSeed) returns (db1: Db, db2: Db, id: nat)
    requires Ok(db) && MethodsOk(s.perms) && MethodsOk(PermSeeds(s.children))
    requires NoDup(Codes(s.children)) && s.code !in Codes(s.children)
    ensures NodeRow(db, db1, s) && Ok(db1) && db2.menus == db1.menus && Ok(db2)
    ensures forall k :: Unseeded(db.menus, k, [s.code]) ==> k in db2.menus.rows && db2.menus.rows[k] == db.menus.rows[k]
    ensures UpsertMenu(db, parent, s) == UpsertForest(db2, id, s.children)
    ensures SameMenusBut(db, db2, [s.code]) && SameMenusBut(db2, UpsertMenu(db, parent, s), Codes(s.children))
  {
    var (t, i) := UpsertRow(db.menus, parent, s);
    id := i;
    db1 := db.(menus := t);
    db2 := UpsertPerms(db1, id, s.perms);
    OwnNodeRow(db, parent, s);
    UpsertRowEffect(db, parent, s);
    UpsertPermsEffect(db1, id, s.perms);
    UpsertForestPlaces(db2, id, s.children);
    forall c | c !in [s.code] ensures SameMenu(db, db2, c) {
      assert SameMenu(db, db1, c);
    }
  }

  lemma {:induction false} NodeRows(db: Db, parent: nat, ss: seq<MenuSeed>, s: MenuSeed)
    requires Ok(db) && NoDup(Codes(ss)) && MethodsOk(PermSeeds(ss)) && s in Nodes(ss)
    ensures s.code in Codes(ss) && NodeRow(db, UpsertForest(db, parent, ss), s)
    decreases ss
  {
    var head := ss[0];
    DistinctStep(ss);
    MethodsSplit(head.perms, PermSeeds(head.children), PermSeeds(ss[1..]));
    var db3 := UpsertMenu(db, parent, head);
    UpsertMenuPlaces(db, parent, head);
    UpsertForestPlaces(db3, parent, ss[1..]);
    CodesOfOne(head);
    if s in Nodes(ss[1..]) {
      NodeRows(db3, parent, ss[1..], s);
      assert SameMenu(db, db3, s.code);
    } else {
      HeadNodeRows(db, parent, head, s);
      assert SameMenu(db3, UpsertForest(db, parent, ss), s.code);
    }
  }

  lemma {:induction false} HeadNodeRows(db: Db, parent: nat, head: MenuSeed, s: MenuSeed)
    requires Ok(db) && MethodsOk(head.perms) && MethodsOk(PermSeeds(head.children))
    requires NoDup(Codes(head.children)) && head.code !in Codes(head.children)
    requires s == head || s in Nodes(head.children)
    ensures (s.code == head.code || s.code in Codes(head.children)) && NodeRow(db, UpsertMenu(db, parent, head), s)
    decreases head
  {
    var db1, db2, id := UpsertMenuParts(db, parent, head);
    if s in Nodes(head.children) {
      NodeRows(db2, id, head.children, s);
      assert SameMenu(db, db2, s.code);
    } else {
      assert SameMenu(db2, UpsertMenu(db, parent, head), s.code);
    }
  }

  /**
   A run creates the row of a code that had none, enabled and with the seed's values, and on any other row it leaves
   what the seed does not set as administrators have left it: the status above all.
   */
  lemma SeedRespectsEdits(db: Db, tree: seq<MenuSeed>, s: MenuSeed)
    requires Ok(db) && NoDup(Codes(tree)) && MethodsOk(PermSeeds(tree)) && s in Nodes(tree)
    ensures NodeRow(db, Seed(db, tree), s)
  {
    var db1 := UpsertForest(db, 0, tree);
    NodeRows(db, 0, tree, s);
    UpsertForestPlaces(db, 0, tree);
    SweepEffect(db1, Codes(tree));
    assert SameMenu(db1, Seed(db, tree), s.code);
  }

  /**
   The menus that a super admin sees after a run: of the rows a query for a seeded code finds, exactly those that were
   new or enabled, and no row of any other code.
   */
  lemma SuperSeesSeeded(db: Db, tree: seq<MenuSeed>, s: MenuSeed, admin: nat, other: nat)
    requires Ok(db) && NoDup(Codes(tree)) && MethodsOk(PermSeeds(tree)) && s in Nodes(tree) && HasSuperRole(db, admin)
    ensures
      var db' := Seed(db, tree);
      var a, b := FirstMenu(db.menus, s.code), FirstMenu(db'.menus, s.code);
      && b.Some? && (Visible(db', admin, b.value) <==> a.None? || db.menus.rows[a.value].status == 0)
      && (Visible(db', admin, other) ==> db'.menus.rows[other].code in Codes(tree))
  {
    var db' := Seed(db, tree);
    SeedRespectsEdits(db, tree, s);
    SeedConverges(db, tree);
    UpsertForestWider(db, 0, tree);
    assert HasSuperRole(db', admin);
    if Visible(db', admin, other) {
      assert db'.menus.rows[other].code in LiveCodes(db'.menus);
    }
  }

  // ---------- Rows no seed is for ----------

  lemma {:induction false} UnseededRowKept(db: Db, parent: nat, ss: seq<MenuSeed>, id: nat)
    requires Ok(db) && Unseeded(db.menus, id, Codes(ss)) && MethodsOk(PermSeeds(ss)) && NoDup(Codes(ss))
    ensures id in UpsertForest(db, parent, ss).menus.rows
    ensures UpsertForest(db, parent, ss).menus.rows[id] == db.menus.rows[id]
    decreases ss
  {
    if ss != [] {
      var s := ss[0];
      DistinctStep(ss);
      MethodsSplit(s.perms, PermSeeds(s.children), PermSeeds(ss[1..]));
      var db1, db2, menu := UpsertMenuParts(db, parent, s);
      UnseededRowKept(db2, menu, s.children, id);
      UpsertMenuPlaces(db, parent, s);
      UnseededRowKept(UpsertMenu(db, parent, s), parent, ss[1..], id);
    }
  }

  /** A run tombstones the rows of codes not in the tree, and changes nothing else on them or on deleted rows. */
  lemma OthersOnlyTombstoned(db: Db, tree: seq<MenuSeed>, id: nat)
    requires Ok(db) && NoDup(Codes(tree)) && MethodsOk(PermSeeds(tree)) && tree != []
    requires Unseeded(db.menus, id, Codes(tree))
    ensures
      var r, rows := db.menus.rows[id], Seed(db, tree).menus.rows;
      id in rows && rows[id] == if r.isDel == 0 then r.(isDel := 1) else r
  {
    UnseededRowKept(db, 0, tree, id);
  }
}
