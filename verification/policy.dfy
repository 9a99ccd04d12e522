/**
 What the RBAC tables mean: plain relations, a set of super roles and the guarded routes. Every mutator is an edit
 of that policy, and the request middleware decides by it.
 */
module Policies {
  import opened Wrappers
  import opened Tables
  import opened RBAC

  datatype Guard = Guard(route: string, httpMethod: int, intercept: bool)

  datatype Policy = Policy(
    adminRole: set<(nat, nat)>, roleMenu: set<(nat, nat)>, menuPerm: set<(nat, nat)>,
    supers: set<nat>,            // live roles of type 1
    perms: map<nat, Guard>)      // live permission rows

  predicate IsSuperRow(r: RoleRow) {
    r.status == 0 && r.isDel == 0 && r.typ == 1
  }

  predicate LivePerm(p: PermRow) {
    p.status == 0 && p.isDel == 0
  }

  function GuardOf(p: PermRow): Guard {
    Guard(p.route, p.httpMethod, p.isIntercept != 0)
  }

  ghost function Supers(t: Table<RoleRow>): set<nat> {
    set id | id in t.rows && IsSuperRow(t.rows[id])
  }

  ghost function Guards(t: Table<PermRow>): map<nat, Guard> {
    map id | id in t.rows && LivePerm(t.rows[id]) :: GuardOf(t.rows[id])
  }

  ghost function Abs(db: Db): Policy {
    Policy(Rel(db.adminRole), Rel(db.roleMenu), Rel(db.menuPerm), Supers(db.roles), Guards(db.perms))
  }

  // ---------- Edits ----------

  datatype Edit =
    | Nothing
    | AddAdminRoles(admin: nat, ids: set<nat>)
    | SetAdminRoles(admin: nat, ids: set<nat>)
    | DropAdmin(admin: nat)
    | PutRole(role: nat, super: bool)
    | DropRole(role: nat)
    | SetRoleMenus(role: nat, ids: set<nat>)
    | DropMenu(menu: nat)
    | SetMenuPerms(menu: nat, ids: set<nat>)
    | PutPerm(perm: nat, guard: Option<Guard>)
    | DropPerm(perm: nat)

  ghost function WithoutLeft(r: set<(nat, nat)>, k: nat): set<(nat, nat)> {
    set p | p in r && p.0 != k
  }

  ghost function WithoutRight(r: set<(nat, nat)>, k: nat): set<(nat, nat)> {
    set p | p in r && p.1 != k
  }

  ghost function Apply(p: Policy, e: Edit): Policy {
    match e
    case Nothing => p
    case AddAdminRoles(a, ids) => p.(adminRole := p.adminRole + Image(a, ids))
    case SetAdminRoles(a, ids) => p.(adminRole := WithoutLeft(p.adminRole, a) + Image(a, ids))
    case DropAdmin(a) => p.(adminRole := WithoutLeft(p.adminRole, a))
    case PutRole(r, super) => p.(supers := if super then p.supers + {r} else p.supers - {r})
    case DropRole(r) =>
      p.(adminRole := WithoutRight(p.adminRole, r), roleMenu := WithoutLeft(p.roleMenu, r), supers := p.supers - {r})
    case SetRoleMenus(r, ids) => p.(roleMenu := WithoutLeft(p.roleMenu, r) + Image(r, ids))
    case DropMenu(m) => p.(roleMenu := WithoutRight(p.roleMenu, m), menuPerm := WithoutLeft(p.menuPerm, m))
    case SetMenuPerms(m, ids) => p.(menuPerm := WithoutLeft(p.menuPerm, m) + Image(m, ids))
    case PutPerm(q, g) => p.(perms := if g.Some? then p.perms[q := g.value] else p.perms - {q})
    case DropPerm(q) => p.(menuPerm := WithoutRight(p.menuPerm, q), perms := p.perms - {q})
  }

  function PermGuard(p: PermRow): Option<Guard> {
    if LivePerm(p) then Some(GuardOf(p)) else None
  }

  /** What a mutator call is for: refused calls, and calls about names, passwords, statuses and menus, edit nothing. */
  function Intent(db: Db, superAccount: string, op: Op): Edit {
    if Do(db, superAccount, op).1 != Ok then Nothing
    else match op
      case CreateAdmin(id, _, _, roles) => AddAdminRoles(db.admins.NewId(id), NonZero(roles))
      case UpdateAdmin(id, _, Some(roles)) => SetAdminRoles(id, NonZero(roles))
      case DeleteAdmin(id, _) => DropAdmin(id)
      case CreateRole(id, r) => PutRole(db.roles.NewId(id), IsSuperRow(r))
      case UpdateRole(id, r) => PutRole(id, IsSuperRow(r.(isDel := 0)))
      case DeleteRole(id) => DropRole(id)
      case AssignRoleMenus(id, menus) => SetRoleMenus(id, NonZero(menus))
      case DeleteMenu(id) => DropMenu(id)
      case AssignMenuPerms(id, perms) => SetMenuPerms(id, NonZero(perms))
      case CreatePerm(id, p) => PutPerm(db.perms.NewId(id), PermGuard(PermDefaults(p)))
      case UpdatePerm(id, p) => PutPerm(id, PermGuard(p.(isDel := 0)))
      case DeletePerm(id) => DropPerm(id)
      case _ => Nothing
  }

  lemma SupersPut(t: Table<RoleRow>, id: nat, r: RoleRow)
    ensures Supers(t.Put(id, r)) == if IsSuperRow(r) then Supers(t) + {id} else Supers(t) - {id}
  {
  }

  lemma GuardsPut(t: Table<PermRow>, id: nat, p: PermRow)
    ensures Guards(t.Put(id, p)) == if LivePerm(p) then Guards(t)[id := GuardOf(p)] else Guards(t) - {id}
  {
  }

  // ---------- One call ----------

  ghost predicate JoinsLater(db: Db, db': Db) {
    Later(db.adminRole, db'.adminRole) && Later(db.roleMenu, db'.roleMenu) && Later(db.menuPerm, db'.menuPerm)
  }

  /** The tables stay well formed, they change by the intended edit, and tombstones stay. */
  ghost predicate Sound(db: Db, superAccount: string, op: Op) {
    var db' := Do(db, superAccount, op).0;
    db'.Valid() && Abs(db') == Apply(Abs(db), Intent(db, superAccount, op)) && JoinsLater(db, db')
  }

  lemma RewriteSound(t: JoinTable, k: nat, ids: seq<nat>)
    requires t.Valid()
    ensures Rel(BindAll(TombstoneLeft(t, k), k, ids)) == WithoutLeft(Rel(t), k) + Image(k, NonZero(ids))
    ensures BindAll(TombstoneLeft(t, k), k, ids).Valid() && Later(t, BindAll(TombstoneLeft(t, k), k, ids))
  {
    RelTombstoneLeft(t, k);
    RelBindAll(TombstoneLeft(t, k), k, ids);
    LaterBindAll(TombstoneLeft(t, k), k, ids);
  }

  lemma BindSound(t: JoinTable, k: nat, ids: seq<nat>)
    requires t.Valid()
    ensures Rel(BindAll(t, k, ids)) == Rel(t) + Image(k, NonZero(ids))
    ensures BindAll(t, k, ids).Valid() && Later(t, BindAll(t, k, ids))
  {
    RelBindAll(t, k, ids);
    LaterBindAll(t, k, ids);
  }

  lemma InsertAsValid<R>(t: Table<R>, id: nat, r: R)
    requires t.Valid() && t.InsertAs(id, r).Some?
    ensures t.InsertAs(id, r).value.Valid()
  {
  }

  /** A call that changes admins and their bindings only. */
  lemma AdminSideSound(db: Db, superAccount: string, op: Op, admins: Table<AdminRow>, adminRole: JoinTable)
    requires db.Valid() && Do(db, superAccount, op).0 == db.(admins := admins, adminRole := adminRole)
    requires admins.Valid() && adminRole.Valid() && Later(db.adminRole, adminRole)
    requires Abs(db).(adminRole := Rel(adminRole)) == Apply(Abs(db), Intent(db, superAccount, op))
    ensures Sound(db, superAccount, op)
  {
  }

  lemma CreateAdminSound(db: Db, superAccount: string, op: Op)
    requires db.Valid() && op.CreateAdmin?
    ensures Sound(db, superAccount, op)
  {
    if Do(db, superAccount, op).1 == Ok {
      var row := op.admin.(password := op.password);
      var admins := db.admins.InsertAs(op.id, row).value;
      InsertAsValid(db.admins, op.id, row);
      BindSound(db.adminRole, db.admins.NewId(op.id), op.roles);
      AdminSideSound(db, superAccount, op, admins, BindAll(db.adminRole, db.admins.NewId(op.id), op.roles));
    }
  }

  lemma UpdateAdminSound(db: Db, superAccount: string, op: Op)
    requires db.Valid() && op.UpdateAdmin?
    ensures Sound(db, superAccount, op)
  {
    if op.newRoles.Some? {
      RewriteSound(db.adminRole, op.id, op.newRoles.value);
    }
  }

  lemma DeleteAdminSound(db: Db, superAccount: string, op: Op)
    requires db.Valid() && op.DeleteAdmin?
    ensures Sound(db, superAccount, op)
  {
    RelTombstoneLeft(db.adminRole, op.id);
  }

  lemma CreateRoleSound(db: Db, superAccount: string, op: Op)
    requires db.Valid() && op.CreateRole?
    ensures Sound(db, superAccount, op)
  {
    SupersPut(db.roles, db.roles.NewId(op.id), op.role);
  }

  lemma UpdateRoleSound(db: Db, superAccount: string, op: Op)
    requires db.Valid() && op.UpdateRole?
    ensures Sound(db, superAccount, op)
  {
    SupersPut(db.roles, op.id, op.role.(isDel := 0));
  }

  lemma DeleteRoleSound(db: Db, superAccount: string, op: Op)
    requires db.Valid() && op.DeleteRole?
    ensures Sound(db, superAccount, op)
  {
    if op.id in db.roles.rows {
      SupersPut(db.roles, op.id, db.roles.rows[op.id].(isDel := 1));
    }
    RelTombstoneRight(db.adminRole, op.id);
    RelTombstoneLeft(db.roleMenu, op.id);
  }

  lemma AssignRoleMenusSound(db: Db, superAccount: string, op: Op)
    requires db.Valid() && op.AssignRoleMenus?
    ensures Sound(db, superAccount, op)
  {
    RewriteSound(db.roleMenu, op.id, op.menus);
  }

  lemma DeleteMenuSound(db: Db, superAccount: string, op: Op)
    requires db.Valid() && op.DeleteMenu?
    ensures Sound(db, superAccount, op)
  {
    RelTombstoneRight(db.roleMenu, op.id);
    RelTombstoneLeft(db.menuPerm, op.id);
  }

  lemma AssignMenuPermsSound(db: Db, superAccount: string, op: Op)
    requires db.Valid() && op.AssignMenuPerms?
    ensures Sound(db, superAccount, op)
  {
    RewriteSound(db.menuPerm, op.id, op.perms);
  }

  lemma CreatePermSound(db: Db, superAccount: string, op: Op)
    requires db.Valid() && op.CreatePerm?
    ensures Sound(db, superAccount, op)
  {
    GuardsPut(db.perms, db.perms.NewId(op.id), PermDefaults(op.perm));
  }

  lemma UpdatePermSound(db: Db, superAccount: string, op: Op)
    requires db.Valid() && op.UpdatePerm?
    ensures Sound(db, superAccount, op)
  {
    GuardsPut(db.perms, op.id, op.perm.(isDel := 0));
  }

  lemma DeletePermSound(db: Db, superAccount: string, op: Op)
    requires db.Valid() && op.DeletePerm?
    ensures Sound(db, superAccount, op)
  {
    if op.id in db.perms.rows {
      GuardsPut(db.perms, op.id, db.perms.rows[op.id].(isDel := 1));
    }
    RelTombstoneRight(db.menuPerm, op.id);
  }

  /** Calls that touch no relation, super role or guard. */
  lemma AdminColumnSound(db: Db, superAccount: string, op: Op)
    requires db.Valid() && (op.ResetAdminPassword? || op.UpdateAdminStatus?)
    ensures Sound(db, superAccount, op)
  {
  }

  lemma CreateMenuSound(db: Db, superAccount: string, op: Op)
    requires db.Valid() && op.CreateMenu?
    ensures Sound(db, superAccount, op)
  {
  }

  lemma UpdateMenuSound(db: Db, superAccount: string, op: Op)
    requires db.Valid() && op.UpdateMenu?
    ensures Sound(db, superAccount, op)
  {
  }

  lemma DoSound(db: Db, superAccount: string, op: Op)
    requires db.Valid()
    ensures Sound(db, superAccount, op)
  {
    match op {
      case CreateAdmin(_, _, _, _) => CreateAdminSound(db, superAccount, op);
      case UpdateAdmin(_, _, _) => UpdateAdminSound(db, superAccount, op);
      case DeleteAdmin(_, _) => DeleteAdminSound(db, superAccount, op);
      case CreateRole(_, _) => CreateRoleSound(db, superAccount, op);
      case UpdateRole(_, _) => UpdateRoleSound(db, superAccount, op);
      case DeleteRole(_) => DeleteRoleSound(db, superAccount, op);
      case AssignRoleMenus(_, _) => AssignRoleMenusSound(db, superAccount, op);
      case DeleteMenu(_) => DeleteMenuSound(db, superAccount, op);
      case AssignMenuPerms(_, _) => AssignMenuPermsSound(db, superAccount, op);
      case CreatePerm(_, _) => CreatePermSound(db, superAccount, op);
      case UpdatePerm(_, _) => UpdatePermSound(db, superAccount, op);
      case DeletePerm(_) => DeletePermSound(db, superAccount, op);
      case CreateMenu(_, _) => CreateMenuSound(db, superAccount, op);
      case UpdateMenu(_, _) => UpdateMenuSound(db, superAccount, op);
      case _ => AdminColumnSound(db, superAccount, op);
    }
  }

  /** The tables stay well formed. */
  lemma DoValid(db: Db, superAccount: string, op: Op)
    requires db.Valid()
    ensures Do(db, superAccount, op).0.Valid()
  {
    DoSound(db, superAccount, op);
  }

  /** One call on the tables is one edit of the policy they stand for. */
  lemma DoRefines(db: Db, superAccount: string, op: Op)
    requires db.Valid()
    ensures Abs(Do(db, superAccount, op).0) == Apply(Abs(db), Intent(db, superAccount, op))
  {
    DoSound(db, superAccount, op);
  }

  lemma DoKeepsHistory(db: Db, superAccount: string, op: Op)
    requires db.Valid()
    ensures JoinsLater(db, Do(db, superAccount, op).0)
  {
    DoSound(db, superAccount, op);
  }

  /** The policy after the edits that a sequence of calls stands for. */
  ghost function Replay(db: Db, superAccount: string, ops: seq<Op>, p: Policy): Policy {
    if ops == [] then p
    else
      var n := |ops| - 1;
      Apply(Replay(db, superAccount, ops[..n], p), Intent(Run(db, superAccount, ops[..n]), superAccount, ops[n]))
  }

  /**
   For every sequence of calls, from any tables: the live rows at the end are exactly the relations obtained by
   replaying plain relation edits.
   */
  lemma {:induction false} RunRefines(db: Db, superAccount: string, ops: seq<Op>)
    requires db.Valid()
    ensures Run(db, superAccount, ops).Valid()
    ensures Abs(Run(db, superAccount, ops)) == Replay(db, superAccount, ops, Abs(db))
  {
    if ops != [] {
      var n := |ops| - 1;
      RunRefines(db, superAccount, ops[..n]);
      DoValid(Run(db, superAccount, ops[..n]), superAccount, ops[n]);
      DoRefines(Run(db, superAccount, ops[..n]), superAccount, ops[n]);
    }
  }

  // ---------- Tombstones are permanent ----------

  /** In every run, join rows are never lost or repointed, tombstones stay tombstones, and new ids are larger. */
  lemma {:induction false} RunKeepsHistory(db: Db, superAccount: string, ops: seq<Op>)
    requires db.Valid()
    ensures JoinsLater(db, Run(db, superAccount, ops))
  {
    if ops != [] {
      var n := |ops| - 1;
      RunKeepsHistory(db, superAccount, ops[..n]);
      RunRefines(db, superAccount, ops[..n]);
      DoKeepsHistory(Run(db, superAccount, ops[..n]), superAccount, ops[n]);
    }
  }

  // ---------- Decisions ----------

  /** `admin` holds `perm` through a role and a menu. */
  ghost predicate Granted(p: Policy, admin: nat, perm: nat) {
    exists r: nat, m: nat :: (admin, r) in p.adminRole && (r, m) in p.roleMenu && (m, perm) in p.menuPerm
  }

  predicate Matches(g: Guard, httpMethod: int, route: string) {
    g.route == route && (g.httpMethod == 0 || g.httpMethod == httpMethod)
  }

  ghost predicate IsSuperAdmin(p: Policy, admin: nat) {
    exists r: nat :: (admin, r) in p.adminRole && r in p.supers
  }

  /** Who may call what: super admins anything, others the open routes and the routes granted to them. */
  ghost predicate Allows(p: Policy, admin: nat, httpMethod: int, route: string) {
    || IsSuperAdmin(p, admin)
    || exists q: nat :: q in p.perms && Matches(p.perms[q], httpMethod, route)
                        && (!p.perms[q].intercept || Granted(p, admin, q))
  }

  /** `p` permits no more than `q`, link by link. */
  ghost predicate Narrower(p: Policy, q: Policy) {
    && p.adminRole <= q.adminRole && p.roleMenu <= q.roleMenu && p.menuPerm <= q.menuPerm && p.supers <= q.supers
    && forall id :: id in p.perms ==> id in q.perms && q.perms[id] == p.perms[id]
  }

  lemma NarrowerAllowsLess(p: Policy, q: Policy, admin: nat, httpMethod: int, route: string)
    requires Narrower(p, q) && Allows(p, admin, httpMethod, route)
    ensures Allows(q, admin, httpMethod, route)
  {
    if !IsSuperAdmin(p, admin) {
      var id: nat :| id in p.perms && Matches(p.perms[id], httpMethod, route)
                     && (!p.perms[id].intercept || Granted(p, admin, id));
      assert id in q.perms && q.perms[id] == p.perms[id];
      if p.perms[id].intercept {
        var r: nat, m: nat :| (admin, r) in p.adminRole && (r, m) in p.roleMenu && (m, id) in p.menuPerm;
        assert (admin, r) in q.adminRole && (r, m) in q.roleMenu && (m, id) in q.menuPerm;
      }
    }
  }

  predicate IsDelete(op: Op) {
    op.DeleteAdmin? || op.DeleteRole? || op.DeleteMenu? || op.DeletePerm?
  }

  /** No sequence of deletions, in any order, turns a denied request into an allowed one, for anyone. */
  lemma {:induction false} DeletionsNeverGrant(db: Db, superAccount: string, ops: seq<Op>,
                                               admin: nat, httpMethod: int, route: string)
    requires db.Valid() && forall i :: 0 <= i < |ops| ==> IsDelete(ops[i])
    requires Allows(Abs(Run(db, superAccount, ops)), admin, httpMethod, route)
    ensures Allows(Abs(db), admin, httpMethod, route)
  {
    if ops != [] {
      var n := |ops| - 1;
      var mid := Run(db, superAccount, ops[..n]);
      RunRefines(db, superAccount, ops[..n]);
      DoRefines(mid, superAccount, ops[n]);
      NarrowerAllowsLess(Abs(Run(db, superAccount, ops)), Abs(mid), admin, httpMethod, route);
      DeletionsNeverGrant(db, superAccount, ops[..n], admin, httpMethod, route);
    }
  }

  /** Reassigning the menus of a role changes no decision about an admin who does not have that role. */
  lemma AssignRoleMenusFrames(db: Db, superAccount: string, role: nat, menus: seq<nat>,
                              admin: nat, httpMethod: int, route: string)
    requires db.Valid() && (admin, role) !in Rel(db.adminRole)
    ensures
      Allows(Abs(Do(db, superAccount, AssignRoleMenus(role, menus)).0), admin, httpMethod, route)
      <==> Allows(Abs(db), admin, httpMethod, route)
  {
    DoRefines(db, superAccount, AssignRoleMenus(role, menus));
    var p, q := Abs(db), Apply(Abs(db), SetRoleMenus(role, NonZero(menus)));
    forall perm: nat ensures Granted(p, admin, perm) <==> Granted(q, admin, perm) {
      if Granted(p, admin, perm) {
        var r: nat, m: nat :| (admin, r) in p.adminRole && (r, m) in p.roleMenu && (m, perm) in p.menuPerm;
        assert (r, m) in q.roleMenu;
      }
      if Granted(q, admin, perm) {
        var r: nat, m: nat :| (admin, r) in q.adminRole && (r, m) in q.roleMenu && (m, perm) in q.menuPerm;
        assert (r, m) in p.roleMenu;
      }
    }
  }

  /**
   Rewriting an admin's roles decides for that admin alone, and by the new roles alone: no one else's decisions
   change, and the admin is a super admin exactly when a new role is a super role.
   */
  lemma UpdateAdminFrames(db: Db, superAccount: string, id: nat, a: AdminRow, roles: seq<nat>,
                          admin: nat, httpMethod: int, route: string)
    requires db.Valid() && id != 0
    ensures
      var q := Abs(Do(db, superAccount, UpdateAdmin(id, a, Some(roles))).0);
      && (admin != id ==> (Allows(q, admin, httpMethod, route) <==> Allows(Abs(db), admin, httpMethod, route)))
      && (IsSuperAdmin(q, id) <==> exists r :: r in roles && r != 0 && r in Supers(db.roles))
  {
    DoRefines(db, superAccount, UpdateAdmin(id, a, Some(roles)));
    var p, q := Abs(db), Apply(Abs(db), SetAdminRoles(id, NonZero(roles)));
    assert forall r: nat :: admin != id ==> ((admin, r) in p.adminRole <==> (admin, r) in q.adminRole);
    assert forall r: nat :: (id, r) in q.adminRole <==> r in NonZero(roles);
  }

  // ---------- What an update of a role decides ----------

  /** A role other than `id` makes `admin` a super admin. */
  ghost predicate SuperByAnother(p: Policy, admin: nat, id: nat) {
    exists r: nat :: r != id && (admin, r) in p.adminRole && r in p.supers
  }

  /** `admin` may make the request without being a super admin. */
  ghost predicate AllowedByRoute(p: Policy, admin: nat, httpMethod: int, route: string) {
    exists q: nat :: q in p.perms && Matches(p.perms[q], httpMethod, route)
                     && (!p.perms[q].intercept || Granted(p, admin, q))
  }

  /**
   Which decisions a successful UpdateRole changes: those of admins whose only way to be a super admin is this role,
   where the update switches that on or off, for the requests that are not open or granted to them anyway.
   */
  lemma UpdateRoleDecides(db: Db, superAccount: string, id: nat, row: RoleRow,
                          admin: nat, httpMethod: int, route: string)
    requires db.Valid() && Do(db, superAccount, UpdateRole(id, row)).1 == Ok
    ensures
      var p, q := Abs(db), Abs(Do(db, superAccount, UpdateRole(id, row)).0);
      Allows(p, admin, httpMethod, route) != Allows(q, admin, httpMethod, route) <==>
        (&& (admin, id) in Rel(db.adminRole) && IsSuperRow(db.roles.rows[id]) != IsSuperRow(row.(isDel := 0))
         && !SuperByAnother(p, admin, id) && !AllowedByRoute(p, admin, httpMethod, route))
  {
    DoRefines(db, superAccount, UpdateRole(id, row));
    var p, q := Abs(db), Apply(Abs(db), PutRole(id, IsSuperRow(row.(isDel := 0))));
    assert forall perm: nat :: Granted(p, admin, perm) <==> Granted(q, admin, perm);
    assert AllowedByRoute(p, admin, httpMethod, route) <==> AllowedByRoute(q, admin, httpMethod, route);
    SuperSplit(p, admin, id);
    SuperSplit(q, admin, id);
    assert SuperByAnother(p, admin, id) <==> SuperByAnother(q, admin, id) by {
      assert forall r: nat :: r != id ==> (r in p.supers <==> r in q.supers);
    }
  }

  lemma SuperSplit(p: Policy, admin: nat, id: nat)
    ensures IsSuperAdmin(p, admin) <==> SuperByAnother(p, admin, id) || ((admin, id) in p.adminRole && id in p.supers)
  {
    if IsSuperAdmin(p, admin) {
      var r: nat :| (admin, r) in p.adminRole && r in p.supers;
      assert r != id ==> SuperByAnother(p, admin, id);
    }
  }

  // ---------- The roles of a new admin ----------

  /**
   After a successful CreateAdmin the new admin has exactly the roles of the call if and only if its id had no live
   binding to any other role before: CreateAdmin adds bindings and tombstones none.
   */
  lemma NewAdminRolesIff(db: Db, superAccount: string, id: nat, a: AdminRow, password: string, roles: seq<nat>)
    requires db.Valid() && Do(db, superAccount, CreateAdmin(id, a, password, roles)).1 == Ok
    ensures
      var n := db.admins.NewId(id);
      var db' := Do(db, superAccount, CreateAdmin(id, a, password, roles)).0;
      (forall r :: (n, r) in Rel(db'.adminRole) <==> r in NonZero(roles))
      <==> (forall r :: (n, r) in Rel(db.adminRole) ==> r in NonZero(roles))
  {
    DoRefines(db, superAccount, CreateAdmin(id, a, password, roles));
    var n := db.admins.NewId(id);
    var db' := Do(db, superAccount, CreateAdmin(id, a, password, roles)).0;
    assert Rel(db'.adminRole) == Rel(db.adminRole) + Image(n, NonZero(roles));
    assert forall r :: (n, r) in Rel(db'.adminRole) <==> (n, r) in Rel(db.adminRole) || r in NonZero(roles);
  }

  /**
   The condition can fail for a generated id: UpdateAdmin binds roles to an id that no admin has yet, and the next
   admin to get that id is a super admin although it is created without roles.
   */
  lemma NewAdminInheritsRole(db: Db, superAccount: string, a: AdminRow, password: string, role: nat)
    requires db.Valid() && role in Supers(db.roles) && role != 0
    requires a.account != "" && password != "" && !AccountTaken(db, a.account)
    ensures
      var ops := [UpdateAdmin(db.admins.next, a, Some([role])), CreateAdmin(0, a, password, [])];
      var mid := Run(db, superAccount, ops[..1]);
      && Do(mid, superAccount, ops[1]).1 == Ok && mid.admins.NewId(0) == db.admins.next
      && db.admins.next in Run(db, superAccount, ops).admins.rows
      && IsSuperAdmin(Abs(Run(db, superAccount, ops)), db.admins.next)
  {
    var id := db.admins.next;
    var first, second := UpdateAdmin(id, a, Some([role])), CreateAdmin(0, a, password, []);
    var ops := [first, second];
    assert ops[..1] == [first] && [first][..0] == [];
    var mid := Do(db, superAccount, first).0;
    assert Run(db, superAccount, [first]) == mid;
    assert mid.admins == db.admins && mid.roles == db.roles;
    DoValid(db, superAccount, first);
    DoRefines(db, superAccount, first);
    DoRefines(mid, superAccount, second);
    assert role in NonZero([role]);
    assert (id, role) in Rel(mid.adminRole);
    assert Run(db, superAccount, ops) == Do(mid, superAccount, second).0;
  }

  /** Disabling a role without deleting it takes no granted route from anyone: only super status depends on it. */
  lemma DisablingARoleKeepsGrants(db: Db, superAccount: string, id: nat, row: RoleRow, admin: nat, perm: nat)
    requires db.Valid()
    ensures
      Granted(Abs(Do(db, superAccount, UpdateRole(id, row)).0), admin, perm) <==> Granted(Abs(db), admin, perm)
  {
    DoRefines(db, superAccount, UpdateRole(id, row));
  }
}
