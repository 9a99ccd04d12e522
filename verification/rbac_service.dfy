/** The mutators of internal/service/rbac_service.go and SeedSuperAdmin of internal/bootstrap/bootstrap.go. */
module RBAC {
  import opened Wrappers
  import opened Tables

  datatype Code =
    | Ok | ParamError | AccountExists | AccountNotFound | AccessDenied | RecordNotFound | DBError

  /** The fields of a menu that an update may name; None leaves the column as it is. */
  datatype MenuPatch = MenuPatch(code: Option<string>, parent: Option<nat>, name: Option<string>, path: Option<string>,
                                 icon: Option<string>, title: Option<string>, typ: Option<int>, sort: Option<int>,
                                 status: Option<int>, isLink: Option<int>, included: Option<string>,
                                 valueKey: Option<string>, valueWidth: Option<string>, valueEllipsis: Option<int>,
                                 remark: Option<string>)

  datatype Op =
    | CreateAdmin(id: nat, admin: AdminRow, password: string, roles: seq<nat>)
    | UpdateAdmin(id: nat, admin: AdminRow, newRoles: Option<seq<nat>>)
    | ResetAdminPassword(id: nat, password: string)
    | DeleteAdmin(id: nat, operator: nat)
    | UpdateAdminStatus(id: nat, status: int)
    | CreateRole(id: nat, role: RoleRow)
    | UpdateRole(id: nat, role: RoleRow)
    | DeleteRole(id: nat)
    | AssignRoleMenus(id: nat, menus: seq<nat>)
    | CreateMenu(id: nat, menu: MenuRow)
    | UpdateMenu(id: nat, patch: MenuPatch)
    | DeleteMenu(id: nat)
    | AssignMenuPerms(id: nat, perms: seq<nat>)
    | CreatePerm(id: nat, perm: PermRow)
    | UpdatePerm(id: nat, perm: PermRow)
    | DeletePerm(id: nat)

  // ---------- Queries the mutators make ----------

  predicate LiveAdmin(db: Db, id: nat) {
    id in db.admins.rows && db.admins.rows[id].isDel == 0
  }

  predicate AccountLive(db: Db, account: string) {
    exists id :: id in db.admins.rows && db.admins.rows[id].isDel == 0 && db.admins.rows[id].account == account
  }

  /** What the unique index on account looks at: tombstones count. */
  predicate AccountTaken(db: Db, account: string) {
    exists id :: id in db.admins.rows && db.admins.rows[id].account == account
  }

  function Patch(m: MenuRow, p: MenuPatch): MenuRow {
    MenuRow(Or(p.code, m.code), Or(p.parent, m.parent), Or(p.name, m.name), Or(p.path, m.path), Or(p.icon, m.icon),
            Or(p.title, m.title), Or(p.typ, m.typ), Or(p.sort, m.sort), Or(p.status, m.status), m.isDel,
            Or(p.isLink, m.isLink), Or(p.included, m.included), Or(p.valueKey, m.valueKey),
            Or(p.valueWidth, m.valueWidth), Or(p.valueEllipsis, m.valueEllipsis), Or(p.remark, m.remark))
  }

  function Or<T>(o: Option<T>, t: T): T {
    if o.Some? then o.value else t
  }

  const EMPTY_PATCH: MenuPatch := 
    MenuPatch(None, None, None, None, None, None, None, None, None, None, None, None, None, None, None)

  function KillAdmin(db: Db, id: nat): Db {
    db.(admins := if id in db.admins.rows then db.admins.Put(id, db.admins.rows[id].(isDel := 1)) else db.admins,
        adminRole := TombstoneLeft(db.adminRole, id))
  }

  /** A mutator call: the tables after it and its answer. A transaction that fails leaves the tables as they were. */
  function Do(db: Db, superAccount: string, op: Op): (Db, Code) {
    match op
    case CreateAdmin(id, a, password, roles) =>
      if a.account == "" || password == "" then (db, ParamError)
      else if AccountLive(db, a.account) then (db, AccountExists)
      else if AccountTaken(db, a.account) || db.admins.InsertAs(id, a).None? then (db, DBError)
      else (db.(admins := db.admins.InsertAs(id, a.(password := password)).value,
                adminRole := BindAll(db.adminRole, db.admins.NewId(id), roles)), Ok)
    case UpdateAdmin(id, a, newRoles) =>
      if id == 0 then (db, ParamError)
      else
        var admins := if LiveAdmin(db, id)
          then db.admins.Put(id, db.admins.rows[id].(name := a.name, status := a.status, isLock := a.isLock))
          else db.admins;
        (db.(admins := admins,
             adminRole := if newRoles.None? then db.adminRole
                          else BindAll(TombstoneLeft(db.adminRole, id), id, newRoles.value)), Ok)
    case ResetAdminPassword(id, password) =>
      if password == "" then (db, ParamError)
      else if !LiveAdmin(db, id) then (db, AccountNotFound)
      else (db.(admins := db.admins.Put(id, db.admins.rows[id].(password := password))), Ok)
    case DeleteAdmin(id, operator) =>
      if id == 0 || id == operator then (db, ParamError)
      else if !LiveAdmin(db, id) then (db, AccountNotFound)
      else if superAccount != "" && db.admins.rows[id].account == superAccount then (db, AccessDenied)
      else (KillAdmin(db, id), Ok)
    case UpdateAdminStatus(id, status) =>
      if id == 0 then (db, ParamError)
      else if !LiveAdmin(db, id) then (db, AccountNotFound)
      else if superAccount != "" && db.admins.rows[id].account == superAccount then (db, AccessDenied)
      else (db.(admins := db.admins.Put(id, db.admins.rows[id].(status := status))), Ok)
    case CreateRole(id, r) =>
      if r.name == "" then (db, ParamError)
      else if db.roles.InsertAs(id, r).None? then (db, DBError)
      else (db.(roles := db.roles.InsertAs(id, r).value), Ok)
    case UpdateRole(id, r) =>
      if id !in db.roles.rows || db.roles.rows[id].isDel != 0 then (db, RecordNotFound)
      else (db.(roles := db.roles.Put(id, r.(isDel := 0))), Ok)
    case DeleteRole(id) =>
      (db.(roles := if id in db.roles.rows then db.roles.Put(id, db.roles.rows[id].(isDel := 1)) else db.roles,
           adminRole := TombstoneRight(db.adminRole, id),
           roleMenu := TombstoneLeft(db.roleMenu, id)), Ok)
    case AssignRoleMenus(id, menus) =>
      (db.(roleMenu := BindAll(TombstoneLeft(db.roleMenu, id), id, menus)), Ok)
    case CreateMenu(id, m) =>
      if m.name == "" && m.title == "" then (db, ParamError)
      else if db.menus.InsertAs(id, m).None? then (db, DBError)
      else (db.(menus := db.menus.InsertAs(id, m).value), Ok)
    case UpdateMenu(id, patch) =>
      if patch == EMPTY_PATCH then (db, ParamError)
      else if id !in db.menus.rows || db.menus.rows[id].isDel != 0 then (db, RecordNotFound)
      else (db.(menus := db.menus.Put(id, Patch(db.menus.rows[id], patch))), Ok)
    case DeleteMenu(id) =>
      (db.(menus := if id in db.menus.rows then db.menus.Put(id, db.menus.rows[id].(isDel := 1)) else db.menus,
           roleMenu := TombstoneRight(db.roleMenu, id),
           menuPerm := TombstoneLeft(db.menuPerm, id)), Ok)
    case AssignMenuPerms(id, perms) =>
      (db.(menuPerm := BindAll(TombstoneLeft(db.menuPerm, id), id, perms)), Ok)
    case CreatePerm(id, p) =>
      if p.route == "" then (db, ParamError)
      else if db.perms.InsertAs(id, p).None? then (db, DBError)
      else (db.(perms := db.perms.InsertAs(id, PermDefaults(p)).value), Ok)
    case UpdatePerm(id, p) =>
      if id !in db.perms.rows || db.perms.rows[id].isDel != 0 then (db, RecordNotFound)
      else (db.(perms := db.perms.Put(id, p.(isDel := 0))), Ok)
    case DeletePerm(id) =>
      (db.(perms := if id in db.perms.rows then db.perms.Put(id, db.perms.rows[id].(isDel := 1)) else db.perms,
           menuPerm := TombstoneRight(db.menuPerm, id)), Ok)
  }

  function Run(db: Db, superAccount: string, ops: seq<Op>): Db {
    if ops == [] then db else Do(Run(db, superAccount, ops[..|ops| - 1]), superAccount, ops[|ops| - 1]).0
  }

  // ---------- SeedSuperAdmin ----------

  /** The account that `SeedSuperAdmin` falls back to in its own copy of the configuration. */
  const DEFAULT_SUPER_ACCOUNT: string := "admin"

  function SeededAccount(configured: string): string {
    if configured == "" then DEFAULT_SUPER_ACCOUNT else configured
  }

  /** The row with the smallest id that satisfies a query, as `First` orders by primary key. */
  ghost predicate IsFirst(ids: set<nat>, id: nat) {
    id in ids && forall j :: j in ids ==> id <= j
  }

  lemma {:induction false} FirstExists(ids: set<nat>)
    requires ids != {}
    ensures exists id :: IsFirst(ids, id)
  {
    var x :| x in ids;
    if ids == {x} {
      assert IsFirst(ids, x);
    } else {
      FirstExists(ids - {x});
      var y :| IsFirst(ids - {x}, y);
      var m := if x < y then x else y;
      forall j | j in ids ensures m <= j {
        assert j == x || j in ids - {x};
      }
      assert IsFirst(ids, m);
    }
  }

  function First(ids: set<nat>): (r: Option<nat>)
    ensures r.None? <==> ids == {}
    ensures r.Some? ==> IsFirst(ids, r.value)
  {
    if ids == {} then None
    else
      FirstExists(ids);
      var id :| id in ids && forall j :: j in ids ==> id <= j;
      Some(id)
  }

  function SuperRoleIds(db: Db): set<nat> {
    set id | id in db.roles.rows && db.roles.rows[id].typ == 1 && db.roles.rows[id].isDel == 0
  }

  function AdminIds(db: Db, account: string): set<nat> {
    set id | id in db.admins.rows && db.admins.rows[id].account == account && db.admins.rows[id].isDel == 0
  }

  predicate Bound(t: JoinTable, l: nat, r: nat) {
    exists id :: id in t.rows && t.rows[id].left == l && t.rows[id].right == r && t.rows[id].isDel == 0
  }

  /** None is the error that ends the start-up: a tombstone holds the account, and the unique index refuses. */
  function SeedSuper(db: Db, configured: string, name: string, hash: string): Option<Db> {
    var account := SeededAccount(configured);
    var role := First(SuperRoleIds(db));
    var roles := if role.Some? then db.roles else db.roles.Insert(RoleRow(name, 1, 0, 0, 0));
    var roleId := if role.Some? then role.value else db.roles.next;
    var admin := First(AdminIds(db, account));
    if admin.None? && AccountTaken(db, account) then None
    else
      var admins := if admin.Some? then db.admins else db.admins.Insert(AdminRow(account, name, hash, 0, 0, 0));
      var adminId := if admin.Some? then admin.value else db.admins.next;
      Some(db.(roles := roles, admins := admins,
               adminRole := if Bound(db.adminRole, adminId, roleId) then db.adminRole
                            else Bind(db.adminRole, adminId, roleId)))
  }

  // ---------- The service ----------

  class RBACService {
    var db: Db
    const superAccount: string

    constructor (db: Db, superAccount: string)
      ensures this.db == db && this.superAccount == superAccount
    {
      this.db, this.superAccount := db, superAccount;
    }

    method CreateAdmin(id: nat, a: AdminRow, password: string, roles: seq<nat>) returns (code: Code)
      modifies this
      ensures (db, code) == Do(old(db), superAccount, Op.CreateAdmin(id, a, password, roles))
    {
      if a.account == "" || password == "" {
        return ParamError;
      }
      if AccountLive(db, a.account) {
        return AccountExists;
      }
      var inserted := db.admins.InsertAs(id, a.(password := password));
      if AccountTaken(db, a.account) || inserted.None? {
        return DBError;
      }
      var bound := BindLoop(db.adminRole, db.admins.NewId(id), roles);
      db := db.(admins := inserted.value, adminRole := bound);
      return Ok;
    }

    method UpdateAdmin(id: nat, a: AdminRow, newRoles: Option<seq<nat>>) returns (code: Code)
      modifies this
      ensures (db, code) == Do(old(db), superAccount, Op.UpdateAdmin(id, a, newRoles))
    {
      if id == 0 {
        return ParamError;
      }
      if LiveAdmin(db, id) {
        var row := db.admins.rows[id].(name := a.name, status := a.status, isLock := a.isLock);
        db := db.(admins := db.admins.Put(id, row));
      }
      if newRoles.Some? {
        db := db.(adminRole := TombstoneLeft(db.adminRole, id));
        var bound := BindLoop(db.adminRole, id, newRoles.value);
        db := db.(adminRole := bound);
      }
      return Ok;
    }

    method DeleteAdmin(id: nat, operator: nat) returns (code: Code)
      modifies this
      ensures (db, code) == Do(old(db), superAccount, Op.DeleteAdmin(id, operator))
    {
      if id == 0 {
        return ParamError;
      }
      if id == operator {
        return ParamError;
      }
      if !LiveAdmin(db, id) {
        return AccountNotFound;
      }
      if superAccount != "" && db.admins.rows[id].account == superAccount {
        return AccessDenied;
      }
      db := db.(admins := db.admins.Put(id, db.admins.rows[id].(isDel := 1)));
      db := db.(adminRole := TombstoneLeft(db.adminRole, id));
      return Ok;
    }

    method UpdateAdminStatus(id: nat, status: int) returns (code: Code)
      modifies this
      ensures (db, code) == Do(old(db), superAccount, Op.UpdateAdminStatus(id, status))
    {
      if id == 0 {
        return ParamError;
      }
      if !LiveAdmin(db, id) {
        return AccountNotFound;
      }
      if superAccount != "" && db.admins.rows[id].account == superAccount {
        return AccessDenied;
      }
      db := db.(admins := db.admins.Put(id, db.admins.rows[id].(status := status)));
      return Ok;
    }

    method DeleteRole(id: nat) returns (code: Code)
      modifies this
      ensures (db, code) == Do(old(db), superAccount, Op.DeleteRole(id))
    {
      if id in db.roles.rows {
        db := db.(roles := db.roles.Put(id, db.roles.rows[id].(isDel := 1)));
      }
      db := db.(adminRole := TombstoneRight(db.adminRole, id));
      db := db.(roleMenu := TombstoneLeft(db.roleMenu, id));
      return Ok;
    }

    method AssignRoleMenus(id: nat, menus: seq<nat>) returns (code: Code)
      modifies this
      ensures (db, code) == Do(old(db), superAccount, Op.AssignRoleMenus(id, menus))
    {
      db := db.(roleMenu := TombstoneLeft(db.roleMenu, id));
      var bound := BindLoop(db.roleMenu, id, menus);
      db := db.(roleMenu := bound);
      return Ok;
    }

    method DeleteMenu(id: nat) returns (code: Code)
      modifies this
      ensures (db, code) == Do(old(db), superAccount, Op.DeleteMenu(id))
    {
      if id in db.menus.rows {
        db := db.(menus := db.menus.Put(id, db.menus.rows[id].(isDel := 1)));
      }
      db := db.(roleMenu := TombstoneRight(db.roleMenu, id));
      db := db.(menuPerm := TombstoneLeft(db.menuPerm, id));
      return Ok;
    }

    method AssignMenuPerms(id: nat, perms: seq<nat>) returns (code: Code)
      modifies this
      ensures (db, code) == Do(old(db), superAccount, Op.AssignMenuPerms(id, perms))
    {
      db := db.(menuPerm := TombstoneLeft(db.menuPerm, id));
      var bound := BindLoop(db.menuPerm, id, perms);
      db := db.(menuPerm := bound);
      return Ok;
    }

    method CreatePerm(id: nat, p: PermRow) returns (code: Code)
      modifies this
      ensures (db, code) == Do(old(db), superAccount, Op.CreatePerm(id, p))
    {
      if p.route == "" {
        return ParamError;
      }
      var inserted := db.perms.InsertAs(id, PermDefaults(p));
      if inserted.None? {
        return DBError;
      }
      db := db.(perms := inserted.value);
      return Ok;
    }

    method DeletePerm(id: nat) returns (code: Code)
      modifies this
      ensures (db, code) == Do(old(db), superAccount, Op.DeletePerm(id))
    {
      if id in db.perms.rows {
        db := db.(perms := db.perms.Put(id, db.perms.rows[id].(isDel := 1)));
      }
      db := db.(menuPerm := TombstoneRight(db.menuPerm, id));
      return Ok;
    }

    method ResetAdminPassword(id: nat, password: string) returns (code: Code)
      modifies this
      ensures (db, code) == Do(old(db), superAccount, Op.ResetAdminPassword(id, password))
    {
      if password == "" {
        return ParamError;
      }
      if !LiveAdmin(db, id) {
        return AccountNotFound;
      }
      db := db.(admins := db.admins.Put(id, db.admins.rows[id].(password := password)));
      return Ok;
    }

    method CreateRole(id: nat, r: RoleRow) returns (code: Code)
      modifies this
      ensures (db, code) == Do(old(db), superAccount, Op.CreateRole(id, r))
    {
      if r.name == "" {
        return ParamError;
      }
      var inserted := db.roles.InsertAs(id, r);
      if inserted.None? {
        return DBError;
      }
      db := db.(roles := inserted.value);
      return Ok;
    }

    method UpdateRole(id: nat, r: RoleRow) returns (code: Code)
      modifies this
      ensures (db, code) == Do(old(db), superAccount, Op.UpdateRole(id, r))
    {
      if id !in db.roles.rows || db.roles.rows[id].isDel != 0 {
        return RecordNotFound;
      }
      db := db.(roles := db.roles.Put(id, r.(isDel := 0)));
      return Ok;
    }

    method CreateMenu(id: nat, m: MenuRow) returns (code: Code)
      modifies this
      ensures (db, code) == Do(old(db), superAccount, Op.CreateMenu(id, m))
    {
      if m.name == "" && m.title == "" {
        return ParamError;
      }
      var inserted := db.menus.InsertAs(id, m);
      if inserted.None? {
        return DBError;
      }
      db := db.(menus := inserted.value);
      return Ok;
    }

    method UpdateMenu(id: nat, patch: MenuPatch) returns (code: Code)
      modifies this
      ensures (db, code) == Do(old(db), superAccount, Op.UpdateMenu(id, patch))
    {
      if patch == EMPTY_PATCH {
        return ParamError;
      }
      if id !in db.menus.rows || db.menus.rows[id].isDel != 0 {
        return RecordNotFound;
      }
      db := db.(menus := db.menus.Put(id, Patch(db.menus.rows[id], patch)));
      return Ok;
    }

    method UpdatePerm(id: nat, p: PermRow) returns (code: Code)
      modifies this
      ensures (db, code) == Do(old(db), superAccount, Op.UpdatePerm(id, p))
    {
      if id !in db.perms.rows || db.perms.rows[id].isDel != 0 {
        return RecordNotFound;
      }
      db := db.(perms := db.perms.Put(id, p.(isDel := 0)));
      return Ok;
    }

    /** On a refused account nothing but a missing super role has been added. */
    method SeedSuperAdmin(configured: string, name: string, hash: string) returns (ok: bool)
      modifies this
      ensures ok <==> SeedSuper(old(db), configured, name, hash).Some?
      ensures ok ==> db == SeedSuper(old(db), configured, name, hash).value
      ensures !ok ==> db.(roles := old(db).roles) == old(db)
    {
      var account := configured;
      if account == "" {
        account := DEFAULT_SUPER_ACCOUNT;
      }
      var role := First(SuperRoleIds(db));
      var roleId := db.roles.next;
      if role.Some? {
        roleId := role.value;
      } else {
        db := db.(roles := db.roles.Insert(RoleRow(name, 1, 0, 0, 0)));
      }
      var admin := First(AdminIds(db, account));
      var adminId := db.admins.next;
      if admin.Some? {
        adminId := admin.value;
      } else {
        if AccountTaken(db, account) {
          return false;
        }
        db := db.(admins := db.admins.Insert(AdminRow(account, name, hash, 0, 0, 0)));
      }
      if !Bound(db.adminRole, adminId, roleId) {
        db := db.(adminRole := Bind(db.adminRole, adminId, roleId));
      }
      return true;
    }
  }
}
