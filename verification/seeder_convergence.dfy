/** The seeder converges: from any tables, the seed forest is in place after one run. */
module SeederConvergence {
  import opened Wrappers
  import opened Tables
  import opened Seeder
  import RBAC

  // ---------- Shapes of the seed ----------

  predicate NoDup(xs: seq<string>) {
    forall i, j :: 0 <= i < j < |xs| ==> xs[i] != xs[j]
  }

  lemma NoDupSplit(a: seq<string>, b: seq<string>, c: seq<string>)
    requires NoDup(a + b + c)
    ensures NoDup(a) && NoDup(b) && NoDup(c)
    ensures forall x :: x in a ==> x !in b && x !in c
    ensures forall x :: x in b ==> x !in c
  {
    var s := a + b + c;
    assert forall i :: 0 <= i < |a| ==> s[i] == a[i];
    assert forall i :: 0 <= i < |b| ==> s[|a| + i] == b[i];
    assert forall i :: 0 <= i < |c| ==> s[|a| + |b| + i] == c[i];
  }

  /** What distinct codes mean for the first tree of a forest. */
  lemma DistinctStep(ss: seq<MenuSeed>)
    requires ss != [] && NoDup(Codes(ss))
    ensures NoDup(Codes(ss[0].children)) && NoDup(Codes(ss[1..]))
    ensures ss[0].code !in Codes(ss[0].children) && ss[0].code !in Codes(ss[1..])
    ensures forall c :: c in Codes(ss[0].children) ==> c !in Codes(ss[1..])
  {
    NoDupSplit([ss[0].code], Codes(ss[0].children), Codes(ss[1..]));
    assert ss[0].code in [ss[0].code];
  }

  function PermSeeds(ss: seq<MenuSeed>): seq<PermSeed> {
    if ss == [] then [] else ss[0].perms + PermSeeds(ss[0].children) + PermSeeds(ss[1..])
  }

  /** Methods 1 to 4; a seed with method 0 would be stored with the column default instead. */
  predicate MethodsOk(pss: seq<PermSeed>) {
    forall i :: 0 <= i < |pss| ==> 1 <= pss[i].httpMethod <= 4
  }

  lemma MethodsSplit(a: seq<PermSeed>, b: seq<PermSeed>, c: seq<PermSeed>)
    requires MethodsOk(a + b + c)
    ensures MethodsOk(a) && MethodsOk(b) && MethodsOk(c)
  {
    var s := a + b + c;
    assert forall i :: 0 <= i < |a| ==> s[i] == a[i];
    assert forall i :: 0 <= i < |b| ==> s[|a| + i] == b[i];
    assert forall i :: 0 <= i < |c| ==> s[|a| + |b| + i] == c[i];
  }

  // ---------- What is in place ----------

  /** A row that the seed would not change. */
  predicate RowSettled(r: MenuRow, parent: nat, s: MenuSeed) {
    && r.code == s.code && r.parent == parent && r.title == s.title && r.typ == s.typ && r.isDel == 0
    && (s.name != "" ==> r.name == s.name) && (s.path != "" ==> r.path == s.path)
    && (s.icon != "" ==> r.icon == s.icon) && (s.sort != 0 ==> r.sort == s.sort)
  }

  /** A live permission row for the seed's route and method, and a live binding to it from `menu`. */
  predicate PermPlaced(db: Db, menu: nat, ps: PermSeed) {
    var q := FirstPerm(db.perms, ps.route, ps.httpMethod);
    q.Some? && RBAC.Bound(db.menuPerm, menu, q.value)
  }

  predicate PermsPlaced(db: Db, menu: nat, pss: seq<PermSeed>) {
    forall i :: 0 <= i < |pss| ==> PermPlaced(db, menu, pss[i])
  }

  /** The menu, its permissions and the trees below it are in place under `parent`. */
  predicate MenuPlaced(db: Db, parent: nat, s: MenuSeed)
    decreases s, 1
  {
    var id := FirstMenu(db.menus, s.code);
    && id.Some? && RowSettled(db.menus.rows[id.value], parent, s)
    && PermsPlaced(db, id.value, s.perms) && ForestPlaced(db, id.value, s.children)
  }

  predicate ForestPlaced(db: Db, parent: nat, ss: seq<MenuSeed>)
    decreases ss, 0
  {
    ss == [] || (MenuPlaced(db, parent, ss[0]) && ForestPlaced(db, parent, ss[1..]))
  }

  // ---------- What a step keeps ----------

  /** The first live row of a code, as a query finds it. */
  predicate SameMenu(db: Db, db': Db, code: string) {
    var id := FirstMenu(db.menus, code);
    FirstMenu(db'.menus, code) == id && (id.Some? ==> db'.menus.rows[id.value] == db.menus.rows[id.value])
  }

  ghost predicate SameMenusBut(db: Db, db': Db, codes: seq<string>) {
    forall c :: c !in codes ==> SameMenu(db, db', c)
  }

  ghost predicate PermsKept(db: Db, db': Db) {
    && (forall r, m {:trigger FirstPerm(db.perms, r, m)} {:trigger FirstPerm(db'.perms, r, m)} ::
          FirstPerm(db.perms, r, m).Some? ==> FirstPerm(db'.perms, r, m) == FirstPerm(db.perms, r, m))
    && (forall l, r {:trigger RBAC.Bound(db.menuPerm, l, r)} {:trigger RBAC.Bound(db'.menuPerm, l, r)} ::
          RBAC.Bound(db.menuPerm, l, r) ==> RBAC.Bound(db'.menuPerm, l, r))
  }

  ghost predicate Ok(db: Db) {
    db.menus.Valid() && db.perms.Valid() && db.menuPerm.Valid()
  }

  lemma UpsertRowEffect(db: Db, parent: nat, s: MenuSeed)
    requires Ok(db)
    ensures
      var (t, id) := UpsertRow(db.menus, parent, s);
      var db' := db.(menus := t);
      && Ok(db') && FirstMenu(t, s.code) == Some(id) && RowSettled(t.rows[id], parent, s)
      && SameMenusBut(db, db', [s.code]) && PermsKept(db, db')
  {
    var (t, id) := UpsertRow(db.menus, parent, s);
    if FirstMenu(db.menus, s.code).None? {
      assert MenuIds(t, s.code) == {id};
    } else {
      assert MenuIds(t, s.code) == MenuIds(db.menus, s.code);
    }
    forall c | c !in [s.code] ensures SameMenu(db, db.(menus := t), c) {
      assert c != s.code;
      assert MenuIds(t, c) == MenuIds(db.menus, c);
    }
  }

  lemma UpsertPermRowEffect(t: Table<PermRow>, ps: PermSeed, route: string, m: int)
    requires t.Valid() && ps.httpMethod != 0
    ensures
      var (t', q) := UpsertPermRow(t, ps);
      && t'.Valid() && FirstPerm(t', ps.route, ps.httpMethod) == Some(q)
      && ((route, m) != (ps.route, ps.httpMethod) || FirstPerm(t, route, m).Some? ==>
            FirstPerm(t', route, m) == FirstPerm(t, route, m))
      && (forall id :: id in t.rows && id != q ==> id in t'.rows && t'.rows[id] == t.rows[id])
  {
    var (t', q) := UpsertPermRow(t, ps);
    if FirstPerm(t, ps.route, ps.httpMethod).None? {
      assert PermIds(t', ps.route, ps.httpMethod) == {q};
    } else {
      assert PermIds(t', ps.route, ps.httpMethod) == PermIds(t, ps.route, ps.httpMethod);
    }
    if (route, m) != (ps.route, ps.httpMethod) {
      assert PermIds(t', route, m) == PermIds(t, route, m);
    }
  }

  lemma UpsertPermEffect(db: Db, menu: nat, ps: PermSeed)
    requires Ok(db) && ps.httpMethod != 0
    ensures
      var db' := UpsertPerm(db, menu, ps);
      Ok(db') && db'.menus == db.menus && PermsKept(db, db') && PermPlaced(db', menu, ps)
  {
    var db' := UpsertPerm(db, menu, ps);
    var (t, q) := UpsertPermRow(db.perms, ps);
    UpsertPermRowEffect(db.perms, ps, "", 0);
    forall r, m | FirstPerm(db.perms, r, m).Some? ensures FirstPerm(db'.perms, r, m) == FirstPerm(db.perms, r, m) {
      UpsertPermRowEffect(db.perms, ps, r, m);
    }
    BoundAfterBind(db.menuPerm, menu, q);
  }

  lemma BoundAfterBind(t: JoinTable, l: nat, r: nat)
    requires t.Valid()
    ensures Bind(t, l, r).Valid() && RBAC.Bound(Bind(t, l, r), l, r)
    ensures forall i, j :: RBAC.Bound(t, i, j) ==> RBAC.Bound(Bind(t, l, r), i, j)
  {
    var t' := Bind(t, l, r);
    assert t.next in t'.rows;
    forall i, j | RBAC.Bound(t, i, j) ensures RBAC.Bound(t', i, j) {
      var id :| id in t.rows && t.rows[id].left == i && t.rows[id].right == j && t.rows[id].isDel == 0;
      assert id in t'.rows && t'.rows[id] == t.rows[id];
    }
  }

  lemma {:induction false} UpsertPermsEffect(db: Db, menu: nat, pss: seq<PermSeed>)
    requires Ok(db) && MethodsOk(pss)
    ensures
      var db' := UpsertPerms(db, menu, pss);
      Ok(db') && db'.menus == db.menus && PermsKept(db, db') && PermsPlaced(db', menu, pss)
    decreases |pss|
  {
    if pss != [] {
      UpsertPermEffect(db, menu, pss[0]);
      UpsertPermsEffect(UpsertPerm(db, menu, pss[0]), menu, pss[1..]);
      var db' := UpsertPerms(db, menu, pss);
      forall i | 0 <= i < |pss| ensures PermPlaced(db', menu, pss[i]) {
        if i > 0 {
          assert pss[i] == pss[1..][i - 1];
        }
      }
    }
  }

  /** In-place trees stay in place while their codes keep their rows. */
  lemma {:induction false} ForestKept(db: Db, db': Db, parent: nat, ss: seq<MenuSeed>)
    requires ForestPlaced(db, parent, ss) && PermsKept(db, db')
    requires forall c :: c in Codes(ss) ==> SameMenu(db, db', c)
    ensures ForestPlaced(db', parent, ss)
    decreases ss, 0
  {
    if ss != [] {
      var s := ss[0];
      assert s.code in Codes(ss);
      var id := FirstMenu(db.menus, s.code).value;
      forall i | 0 <= i < |s.perms| ensures PermPlaced(db', id, s.perms[i]) {
        assert PermPlaced(db, id, s.perms[i]);
      }
      ForestKept(db, db', id, s.children);
      ForestKept(db, db', parent, ss[1..]);
    }
  }

  lemma PermsKeptTrans(a: Db, b: Db, c: Db)
    requires PermsKept(a, b) && PermsKept(b, c)
    ensures PermsKept(a, c)
  {
  }

  lemma SameMenusTrans(a: Db, b: Db, c: Db, xs: seq<string>, ys: seq<string>, all: seq<string>)
    requires SameMenusBut(a, b, xs) && SameMenusBut(b, c, ys)
    requires forall x :: x in xs || x in ys ==> x in all
    ensures SameMenusBut(a, c, all)
  {
    forall x | x !in all ensures SameMenu(a, c, x) {
      assert SameMenu(a, b, x) && SameMenu(b, c, x);
    }
  }

  /** Upserting a forest puts it in place and leaves every other code and all permissions in place. */
  lemma {:induction false} UpsertForestPlaces(db: Db, parent: nat, ss: seq<MenuSeed>)
    requires Ok(db) && NoDup(Codes(ss)) && MethodsOk(PermSeeds(ss))
    ensures
      var db' := UpsertForest(db, parent, ss);
      && Ok(db') && ForestPlaced(db', parent, ss)
      && SameMenusBut(db, db', Codes(ss)) && PermsKept(db, db')
    decreases ss, 0
  {
    if ss == [] {
      assert forall c :: SameMenu(db, db, c);
    } else {
      DistinctStep(ss);
      MethodsSplit(ss[0].perms, PermSeeds(ss[0].children), PermSeeds(ss[1..]));
      UpsertMenuPlaces(db, parent, ss[0]);
      var db1 := UpsertMenu(db, parent, ss[0]);
      UpsertForestPlaces(db1, parent, ss[1..]);
      var db' := UpsertForest(db, parent, ss);
      PermsKeptTrans(db, db1, db');
      CodesOfOne(ss[0]);
      SameMenusTrans(db, db1, db', Codes([ss[0]]), Codes(ss[1..]), Codes(ss));
      assert ForestPlaced(db1, parent, [ss[0]]);
      ForestKept(db1, db', parent, [ss[0]]);
    }
  }

  lemma CodesOfOne(s: MenuSeed)
    ensures Codes([s]) == [s.code] + Codes(s.children)
  {
    assert [s][1..] == [];
  }

  lemma {:induction false} UpsertMenuPlaces(db: Db, parent: nat, s: MenuSeed)
    requires Ok(db) && MethodsOk(s.perms) && MethodsOk(PermSeeds(s.children))
    requires NoDup(Codes(s.children)) && s.code !in Codes(s.children)
    ensures
      var db' := UpsertMenu(db, parent, s);
      && Ok(db') && MenuPlaced(db', parent, s)
      && SameMenusBut(db, db', Codes([s])) && PermsKept(db, db')
    decreases s, 1
  {
    UpsertRowEffect(db, parent, s);
    var (t, id) := UpsertRow(db.menus, parent, s);
    var db1 := db.(menus := t);
    UpsertPermsEffect(db1, id, s.perms);
    var db2 := UpsertPerms(db1, id, s.perms);
    UpsertForestPlaces(db2, id, s.children);
    var db' := UpsertMenu(db, parent, s);
    PermsKeptTrans(db, db1, db2);
    PermsKeptTrans(db, db2, db');
    assert SameMenusBut(db1, db2, []) by {
      assert forall c :: SameMenu(db1, db2, c);
    }
    SameMenusTrans(db, db1, db2, [s.code], [], [s.code]);
    CodesOfOne(s);
    SameMenusTrans(db, db2, db', [s.code], Codes(s.children), Codes([s]));
    assert SameMenu(db2, db', s.code);
    forall i | 0 <= i < |s.perms| ensures PermPlaced(db', id, s.perms[i]) {
      assert PermPlaced(db2, id, s.perms[i]);
    }
  }

  // ---------- The sweep ----------

  lemma SweepEffect(db: Db, codes: seq<string>)
    requires Ok(db)
    ensures
      var db' := db.(menus := Sweep(db.menus, codes));
      && Ok(db') && PermsKept(db, db') && forall c :: c in codes ==> SameMenu(db, db', c)
  {
    var t' := Sweep(db.menus, codes);
    forall c | c in codes ensures SameMenu(db, db.(menus := t'), c) {
      assert MenuIds(t', c) == MenuIds(db.menus, c);
    }
  }

  ghost function LiveCodes(t: Table<MenuRow>): set<string> {
    set id | id in t.rows && t.rows[id].isDel == 0 :: t.rows[id].code
  }

  lemma {:induction false} PlacedCodesLive(db: Db, parent: nat, ss: seq<MenuSeed>, c: string)
    requires ForestPlaced(db, parent, ss) && c in Codes(ss)
    ensures FirstMenu(db.menus, c).Some?
    decreases ss
  {
    if c in Codes(ss[0].children) {
      PlacedCodesLive(db, FirstMenu(db.menus, ss[0].code).value, ss[0].children, c);
    } else if c in Codes(ss[1..]) {
      PlacedCodesLive(db, parent, ss[1..], c);
    }
  }

  /**
   Convergence. From any tables and for any seed forest with distinct codes and methods 1 to 4: after one run every
   seed node has a live row (the one a query for its code finds) whose parent column is its parent node's row id,
   0 for roots, and whose other seeded columns have the seed's values; every permission seed has a live row with
   its route and method and a live binding from its menu; and the live codes are exactly the forest's codes.
   */
  lemma SeedConverges(db: Db, tree: seq<MenuSeed>)
    requires Ok(db) && NoDup(Codes(tree)) && MethodsOk(PermSeeds(tree))
    ensures Ok(Seed(db, tree)) && ForestPlaced(Seed(db, tree), 0, tree)
    ensures tree != [] ==> LiveCodes(Seed(db, tree).menus) == set c | c in Codes(tree)
    ensures tree == [] ==> Seed(db, tree) == db
  {
    UpsertForestPlaces(db, 0, tree);
    var db1 := UpsertForest(db, 0, tree);
    SweepEffect(db1, Codes(tree));
    var db' := Seed(db, tree);
    ForestKept(db1, db', 0, tree);
    if tree != [] {
      forall c | c in Codes(tree) ensures c in LiveCodes(db'.menus) {
        PlacedCodesLive(db', 0, tree, c);
      }
    }
  }

  // ---------- The forest of parent pointers ----------

  /** No two live rows share a code. */
  ghost predicate UniqueCodes(t: Table<MenuRow>) {
    forall i, j | i in t.rows && j in t.rows ::
      t.rows[i].isDel == 0 && t.rows[j].isDel == 0 && t.rows[i].code == t.rows[j].code ==> i == j
  }

  /** The seed's edges: each node's code with its parent's code, None for roots. */
  ghost function SeedEdges(parent: Option<string>, ss: seq<MenuSeed>): set<(string, Option<string>)>
    decreases ss
  {
    if ss == [] then {}
    else {(ss[0].code, parent)} + SeedEdges(Some(ss[0].code), ss[0].children) + SeedEdges(parent, ss[1..])
  }

  function ParentCode(t: Table<MenuRow>, parent: nat): Option<string> {
    if parent in t.rows then Some(t.rows[parent].code) else None
  }

  ghost function LiveEdges(t: Table<MenuRow>): set<(string, Option<string>)> {
    set id | id in t.rows && t.rows[id].isDel == 0 :: (t.rows[id].code, ParentCode(t, t.rows[id].parent))
  }

  lemma {:induction false} PlacedEdges(db: Db, parent: nat, ss: seq<MenuSeed>)
    requires ForestPlaced(db, parent, ss)
    ensures SeedEdges(ParentCode(db.menus, parent), ss) <= LiveEdges(db.menus)
    decreases ss
  {
    if ss != [] {
      var t, s := db.menus, ss[0];
      var id := FirstMenu(t, s.code).value;
      assert (t.rows[id].code, ParentCode(t, t.rows[id].parent)) in LiveEdges(t);
      PlacedEdges(db, id, s.children);
      PlacedEdges(db, parent, ss[1..]);
    }
  }

  /** The edge of the first live row of a seeded code is a seed edge. */
  lemma {:induction false} EdgeOfCode(db: Db, parent: nat, ss: seq<MenuSeed>, c: string)
    requires ForestPlaced(db, parent, ss) && c in Codes(ss)
    ensures
      var t := db.menus;
      var id := FirstMenu(t, c);
      id.Some? && (c, ParentCode(t, t.rows[id.value].parent)) in SeedEdges(ParentCode(t, parent), ss)
    decreases ss
  {
    var id := FirstMenu(db.menus, ss[0].code).value;
    if c in Codes(ss[0].children) {
      EdgeOfCode(db, id, ss[0].children, c);
    } else if c in Codes(ss[1..]) {
      EdgeOfCode(db, parent, ss[1..], c);
    }
  }

  lemma UpsertRowUnique(t: Table<MenuRow>, parent: nat, s: MenuSeed)
    requires t.Valid() && UniqueCodes(t)
    ensures UniqueCodes(UpsertRow(t, parent, s).0)
  {
    if FirstMenu(t, s.code).None? {
      forall id | id in t.rows && t.rows[id].isDel == 0 ensures t.rows[id].code != s.code {
        assert id !in MenuIds(t, s.code);
      }
    }
  }

  lemma {:induction false} UpsertForestUnique(db: Db, parent: nat, ss: seq<MenuSeed>)
    requires Ok(db) && UniqueCodes(db.menus) && NoDup(Codes(ss)) && MethodsOk(PermSeeds(ss))
    ensures UniqueCodes(UpsertForest(db, parent, ss).menus)
    decreases ss
  {
    if ss != [] {
      var s := ss[0];
      DistinctStep(ss);
      MethodsSplit(s.perms, PermSeeds(s.children), PermSeeds(ss[1..]));
      var (t, id) := UpsertRow(db.menus, parent, s);
      UpsertRowEffect(db, parent, s);
      UpsertRowUnique(db.menus, parent, s);
      UpsertPermsEffect(db.(menus := t), id, s.perms);
      UpsertForestUnique(UpsertPerms(db.(menus := t), id, s.perms), id, s.children);
      UpsertMenuPlaces(db, parent, s);
      UpsertForestUnique(UpsertMenu(db, parent, s), parent, ss[1..]);
    }
  }

  /** The edge of every live row is a seed edge, where live codes are unique and exactly the forest's. */
  lemma LiveEdgesAreSeeded(db: Db, ss: seq<MenuSeed>)
    requires db.menus.Valid() && ForestPlaced(db, 0, ss) && UniqueCodes(db.menus)
    requires LiveCodes(db.menus) == set c | c in Codes(ss)
    ensures LiveEdges(db.menus) <= SeedEdges(None, ss)
  {
    var t := db.menus;
    forall e | e in LiveEdges(t) ensures e in SeedEdges(None, ss) {
      var id :| id in t.rows && t.rows[id].isDel == 0 && e == (t.rows[id].code, ParentCode(t, t.rows[id].parent));
      assert t.rows[id].code in LiveCodes(t);
      EdgeOfCode(db, 0, ss, t.rows[id].code);
    }
  }

  lemma SweepUnique(t: Table<MenuRow>, codes: seq<string>)
    requires UniqueCodes(t)
    ensures UniqueCodes(Sweep(t, codes))
  {
  }

  /**
   If no two live rows shared a code before, then after a run each seeded code has exactly one live row, there are no
   other live rows, and the live parent pointers form exactly the seed forest.
   */
  lemma SeedForestExact(db: Db, tree: seq<MenuSeed>)
    requires Ok(db) && NoDup(Codes(tree)) && MethodsOk(PermSeeds(tree)) && tree != []
    requires UniqueCodes(db.menus)
    ensures UniqueCodes(Seed(db, tree).menus)
    ensures LiveEdges(Seed(db, tree).menus) == SeedEdges(None, tree)
  {
    SeedConverges(db, tree);
    UpsertForestUnique(db, 0, tree);
    SweepUnique(UpsertForest(db, 0, tree).menus, Codes(tree));
    var db' := Seed(db, tree);
    assert ParentCode(db'.menus, 0) == None;
    PlacedEdges(db', 0, tree);
    LiveEdgesAreSeeded(db', tree);
  }
}
