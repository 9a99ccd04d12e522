/** The menu and permission seeder of internal/bootstrap/seed_rbac.go. */
module Seeder {
  import opened Wrappers
  import opened Tables
  import RBAC

  datatype PermSeed = PermSeed(name: string, route: string, httpMethod: int, isIntercept: int, sort: int)

  datatype MenuSeed = MenuSeed(code: string, title: string, name: string, path: string, icon: string,
                               typ: int, sort: int, perms: seq<PermSeed>, children: seq<MenuSeed>)

  // ---------- Lookups ----------

  function MenuIds(t: Table<MenuRow>, code: string): set<nat> {
    set id | id in t.rows && t.rows[id].code == code && t.rows[id].isDel == 0
  }

  function FirstMenu(t: Table<MenuRow>, code: string): (r: Option<nat>)
    ensures r.Some? ==> r.value in t.rows && t.rows[r.value].code == code && t.rows[r.value].isDel == 0
  {
    RBAC.First(MenuIds(t, code))
  }

  function PermIds(t: Table<PermRow>, route: string, httpMethod: int): set<nat> {
    set id | id in t.rows && t.rows[id].route == route && t.rows[id].httpMethod == httpMethod && t.rows[id].isDel == 0
  }

  function FirstPerm(t: Table<PermRow>, route: string, httpMethod: int): (r: Option<nat>)
    ensures r.Some? ==> r.value in t.rows && t.rows[r.value].route == route
                        && t.rows[r.value].httpMethod == httpMethod && t.rows[r.value].isDel == 0
  {
    RBAC.First(PermIds(t, route, httpMethod))
  }

  // ---------- The upserts ----------

  const BUILT_IN: string := "系统内置"

  function SeedRow(parent: nat, s: MenuSeed): MenuRow {
    MenuRow(s.code, parent, s.name, s.path, s.icon, s.title, s.typ, s.sort, 0, 0, 0, "", "", "", 0, BUILT_IN)
  }

  /** Parent, title and type always follow the seed; name, path, icon and sort only where the seed has one. */
  function Refresh(m: MenuRow, parent: nat, s: MenuSeed): MenuRow {
    m.(parent := parent, title := s.title, typ := s.typ, isDel := 0,
       name := if s.name != "" then s.name else m.name,
       path := if s.path != "" then s.path else m.path,
       icon := if s.icon != "" then s.icon else m.icon,
       sort := if s.sort != 0 then s.sort else m.sort)
  }

  function UpsertRow(t: Table<MenuRow>, parent: nat, s: MenuSeed): (Table<MenuRow>, nat) {
    match FirstMenu(t, s.code)
    case None => (t.Insert(SeedRow(parent, s)), t.next)
    case Some(id) => (t.Put(id, Refresh(t.rows[id], parent, s)), id)
  }

  function PermSeedRow(ps: PermSeed): PermRow {
    PermDefaults(PermRow(ps.name, ps.route, ps.httpMethod, ps.isIntercept, ps.sort, 0, 0, 0))
  }

  function UpsertPermRow(t: Table<PermRow>, ps: PermSeed): (Table<PermRow>, nat) {
    match FirstPerm(t, ps.route, ps.httpMethod)
    case None => (t.Insert(PermSeedRow(ps)), t.next)
    case Some(q) => (t.Put(q, t.rows[q].(name := ps.name, isIntercept := ps.isIntercept)), q)
  }

  function UpsertPerm(db: Db, menu: nat, ps: PermSeed): Db {
    var (perms, q) := UpsertPermRow(db.perms, ps);
    db.(perms := perms,
        menuPerm := if RBAC.Bound(db.menuPerm, menu, q) then db.menuPerm else Bind(db.menuPerm, menu, q))
  }

  function UpsertPerms(db: Db, menu: nat, pss: seq<PermSeed>): Db
    decreases |pss|
  {
    if pss == [] then db else UpsertPerms(UpsertPerm(db, menu, pss[0]), menu, pss[1..])
  }

  function UpsertMenu(db: Db, parent: nat, s: MenuSeed): Db
    decreases s, 1
  {
    var (menus, id) := UpsertRow(db.menus, parent, s);
    UpsertForest(UpsertPerms(db.(menus := menus), id, s.perms), id, s.children)
  }

  function UpsertForest(db: Db, parent: nat, ss: seq<MenuSeed>): Db
    decreases ss, 0
  {
    if ss == [] then db else UpsertForest(UpsertMenu(db, parent, ss[0]), parent, ss[1..])
  }

  /** Preorder, as the source collects them. */
  function Codes(ss: seq<MenuSeed>): seq<string> {
    if ss == [] then [] else [ss[0].code] + Codes(ss[0].children) + Codes(ss[1..])
  }

  /** UPDATE ... SET is_del = 1 WHERE code NOT IN (...): with an empty list SQL selects nothing. */
  function Sweep(t: Table<MenuRow>, codes: seq<string>): Table<MenuRow> {
    if codes == [] then t
    else t.(rows := map id | id in t.rows :: if t.rows[id].isDel == 0 && t.rows[id].code !in codes
                                             then t.rows[id].(isDel := 1) else t.rows[id])
  }

  function Seed(db: Db, tree: seq<MenuSeed>): Db {
    var db' := UpsertForest(db, 0, tree);
    db'.(menus := Sweep(db'.menus, Codes(tree)))
  }

  // ---------- As the source runs it ----------

  /** One round of the collection: what has been collected and what is left stay the codes of the whole tree. */
  lemma CodesStep(tree: seq<MenuSeed>, i: nat, codes: seq<string>, all: seq<string>)
    requires i < |tree| && codes + Codes(tree[i..]) == all
    ensures codes + [tree[i].code] + Codes(tree[i].children) + Codes(tree[i + 1..]) == all
  {
    var own, sub, rest := [tree[i].code], Codes(tree[i].children), Codes(tree[i + 1..]);
    assert tree[i..][1..] == tree[i + 1..];
    assert Codes(tree[i..]) == own + sub + rest;
    Regroup(codes, own, sub, rest);
  }

  lemma Regroup(a: seq<string>, b: seq<string>, c: seq<string>, d: seq<string>)
    ensures a + (b + c + d) == a + b + c + d
  {
  }

  method CollectCodes(tree: seq<MenuSeed>) returns (codes: seq<string>)
    ensures codes == Codes(tree)
    decreases tree
  {
    codes := [];
    for i := 0 to |tree|
      invariant codes + Codes(tree[i..]) == Codes(tree)
    {
      CodesStep(tree, i, codes, Codes(tree));
      codes := codes + [tree[i].code];
      var sub := CollectCodes(tree[i].children);
      codes := codes + sub;
    }
    assert codes + [] == codes;
  }

  class SeedJob {
    var db: Db

    constructor (db: Db)
      ensures this.db == db
    {
      this.db := db;
    }

    method SeedMenusAndPerms(tree: seq<MenuSeed>)
      modifies this
      ensures db == Seed(old(db), tree)
    {
      for i := 0 to |tree|
        invariant UpsertForest(db, 0, tree[i..]) == UpsertForest(old(db), 0, tree)
      {
        assert tree[i..][1..] == tree[i + 1..];
        UpsertMenuRows(0, tree[i]);
      }
      assert tree[|tree|..] == [];
      var validCodes := CollectCodes(tree);
      db := db.(menus := Sweep(db.menus, validCodes));
    }

    /** The menu's own row; `id` is the id it has or gets. */
    method UpsertOwnRow(parent: nat, s: MenuSeed) returns (id: nat)
      modifies this
      ensures
        var (menus, i) := UpsertRow(old(db).menus, parent, s);
        id == i && db == old(db).(menus := menus)
    {
      var found := FirstMenu(db.menus, s.code);
      id := db.menus.next;
      match found {
        case None =>
          db := db.(menus := db.menus.Insert(SeedRow(parent, s)));
        case Some(first) =>
          id := first;
          var m := db.menus.rows[id];
          m := m.(parent := parent, title := s.title, typ := s.typ, isDel := 0);
          if s.name != "" {
            m := m.(name := s.name);
          }
          if s.path != "" {
            m := m.(path := s.path);
          }
          if s.icon != "" {
            m := m.(icon := s.icon);
          }
          if s.sort != 0 {
            m := m.(sort := s.sort);
          }
          assert m == Refresh(old(db).menus.rows[id], parent, s);
          db := db.(menus := db.menus.Put(id, m));
      }
    }

    method UpsertMenuRows(parent: nat, s: MenuSeed)
      modifies this
      ensures db == UpsertMenu(old(db), parent, s)
      decreases s
    {
      var id := UpsertOwnRow(parent, s);
      ghost var db1 := db;
      for i := 0 to |s.perms|
        invariant UpsertPerms(db, id, s.perms[i..]) == UpsertPerms(db1, id, s.perms)
      {
        assert s.perms[i..][1..] == s.perms[i + 1..];
        UpsertPermAndBind(id, s.perms[i]);
      }
      assert s.perms[|s.perms|..] == [];
      ghost var db2 := db;
      for i := 0 to |s.children|
        invariant UpsertForest(db, id, s.children[i..]) == UpsertForest(db2, id, s.children)
      {
        assert s.children[i..][1..] == s.children[i + 1..];
        UpsertMenuRows(id, s.children[i]);
      }
      assert s.children[|s.children|..] == [];
    }

    method UpsertPermAndBind(menu: nat, ps: PermSeed)
      modifies this
      ensures db == UpsertPerm(old(db), menu, ps)
    {
      var found := FirstPerm(db.perms, ps.route, ps.httpMethod);
      var q := db.perms.next;
      match found {
        case None =>
          db := db.(perms := db.perms.Insert(PermSeedRow(ps)));
        case Some(first) =>
          q := first;
          db := db.(perms := db.perms.Put(q, db.perms.rows[q].(name := ps.name, isIntercept := ps.isIntercept)));
      }
      if !RBAC.Bound(db.menuPerm, menu, q) {
        db := db.(menuPerm := Bind(db.menuPerm, menu, q));
      }
    }
  }
}
