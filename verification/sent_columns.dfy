/**
 What the tables hold after any sequence of mutator calls: in each column of each row the last value that a successful
 call sent for it, and for each pair of ids the last word that a call said about their binding.
 */
module SentColumns {
  import opened Wrappers
  import opened Tables
  import opened RBAC
  import opened Policies
  import opened Decisions

  // ---------- The last value sent ----------

  /** The last of the values that the successful calls of a run send, or `start` if they send none. */
  function LastSent<T>(db: Db, superAccount: string, ops: seq<Op>, sent: (Db, Op) -> Option<T>,
                       start: Option<T>): Option<T> {
    if ops == [] then start
    else
      var n := |ops| - 1;
      var before := Run(db, superAccount, ops[..n]);
      if Do(before, superAccount, ops[n]).1 == Ok && sent(before, ops[n]).Some? then sent(before, ops[n])
      else LastSent(db, superAccount, ops[..n], sent, start)
  }

  /** One call leaves in the column what it sends, and the old value if it is refused or sends none. */
  ghost predicate Writes<T(!new)>(superAccount: string, column: Db -> Option<T>, sent: (Db, Op) -> Option<T>) {
    forall db: Db, op: Op | db.Valid() :: WritesOnce(db, superAccount, op, column, sent)
  }

  predicate WritesOnce<T(==)>(db: Db, superAccount: string, op: Op, column: Db -> Option<T>,
                              sent: (Db, Op) -> Option<T>) {
    var (db', code) := Do(db, superAccount, op);
    column(db') == if code == Ok && sent(db, op).Some? then sent(db, op) else column(db)
  }

  lemma {:induction false} HoldsTheLast<T(!new)>(db: Db, superAccount: string, ops: seq<Op>, column: Db -> Option<T>,
                                                 sent: (Db, Op) -> Option<T>)
    requires db.Valid() && Writes(superAccount, column, sent)
    ensures column(Run(db, superAccount, ops)) == LastSent(db, superAccount, ops, sent, column(db))
  {
    if ops != [] {
      var n := |ops| - 1;
      HoldsTheLast(db, superAccount, ops[..n], column, sent);
      RunRefines(db, superAccount, ops[..n]);
      assert WritesOnce(Run(db, superAccount, ops[..n]), superAccount, ops[n], column, sent);
    }
  }

  // ---------- Admins ----------

  function AccountOf(id: nat): Db -> Option<string> {
    (db: Db) => if id in db.admins.rows then Some(db.admins.rows[id].account) else None
  }

  function NameOf(id: nat): Db -> Option<string> {
    (db: Db) => if id in db.admins.rows then Some(db.admins.rows[id].name) else None
  }

  function StatusOf(id: nat): Db -> Option<int> {
    (db: Db) => if id in db.admins.rows then Some(db.admins.rows[id].status) else None
  }

  function LockOf(id: nat): Db -> Option<int> {
    (db: Db) => if id in db.admins.rows then Some(db.admins.rows[id].isLock) else None
  }

  function AdminDeleted(id: nat): Db -> Option<int> {
    (db: Db) => if id in db.admins.rows then Some(db.admins.rows[id].isDel) else None
  }

  function AccountSent(id: nat): (Db, Op) -> Option<string> {
    (before: Db, op: Op) => match op
      case CreateAdmin(i, a, _, _) => if before.admins.NewId(i) == id then Some(a.account) else None
      case _ => None
  }

  function NameSent(id: nat): (Db, Op) -> Option<string> {
    (before: Db, op: Op) => match op
      case CreateAdmin(i, a, _, _) => if before.admins.NewId(i) == id then Some(a.name) else None
      case UpdateAdmin(i, a, _) => if i == id && LiveAdmin(before, id) then Some(a.name) else None
      case _ => None
  }

  /** Three calls send a status: a create, an update, and the one that is for it. */
  function StatusSent(id: nat): (Db, Op) -> Option<int> {
    (before: Db, op: Op) => match op
      case CreateAdmin(i, a, _, _) => if before.admins.NewId(i) == id then Some(a.status) else None
      case UpdateAdmin(i, a, _) => if i == id && LiveAdmin(before, id) then Some(a.status) else None
      case UpdateAdminStatus(i, status) => if i == id then Some(status) else None
      case _ => None
  }

  function LockSent(id: nat): (Db, Op) -> Option<int> {
    (before: Db, op: Op) => match op
      case CreateAdmin(i, a, _, _) => if before.admins.NewId(i) == id then Some(a.isLock) else None
      case UpdateAdmin(i, a, _) => if i == id && LiveAdmin(before, id) then Some(a.isLock) else None
      case _ => None
  }

  function AdminDeletedSent(id: nat): (Db, Op) -> Option<int> {
    (before: Db, op: Op) => match op
      case CreateAdmin(i, a, _, _) => if before.admins.NewId(i) == id then Some(a.isDel) else None
      case DeleteAdmin(i, _) => if i == id then Some(1) else None
      case _ => None
  }

  lemma AdminTextWrites(db: Db, superAccount: string, op: Op, id: nat)
    requires db.Valid()
    ensures WritesOnce(db, superAccount, op, AccountOf(id), AccountSent(id))
    ensures WritesOnce(db, superAccount, op, NameOf(id), NameSent(id))
  {
  }

  lemma AdminFlagWrites(db: Db, superAccount: string, op: Op, id: nat)
    requires db.Valid()
    ensures WritesOnce(db, superAccount, op, StatusOf(id), StatusSent(id))
    ensures WritesOnce(db, superAccount, op, LockOf(id), LockSent(id))
  {
  }

  lemma AdminDeletedWrites(db: Db, superAccount: string, op: Op, id: nat)
    requires db.Valid()
    ensures WritesOnce(db, superAccount, op, AdminDeleted(id), AdminDeletedSent(id))
  {
  }

  /**
   After every run an admin row holds the account it was created with, the name and lock of the last create or update
   for its id, the status of the last create, update or status call, and is deleted if a delete came after its create.
   */
  lemma AdminHoldsWhatWasSent(db: Db, superAccount: string, ops: seq<Op>, id: nat)
    requires db.Valid()
    ensures
      var db' := Run(db, superAccount, ops);
      && AccountOf(id)(db') == LastSent(db, superAccount, ops, AccountSent(id), AccountOf(id)(db))
      && NameOf(id)(db') == LastSent(db, superAccount, ops, NameSent(id), NameOf(id)(db))
      && StatusOf(id)(db') == LastSent(db, superAccount, ops, StatusSent(id), StatusOf(id)(db))
      && LockOf(id)(db') == LastSent(db, superAccount, ops, LockSent(id), LockOf(id)(db))
      && AdminDeleted(id)(db') == LastSent(db, superAccount, ops, AdminDeletedSent(id), AdminDeleted(id)(db))
  {
    forall d: Db, op: Op | d.Valid()
      ensures WritesOnce(d, superAccount, op, AccountOf(id), AccountSent(id))
              && WritesOnce(d, superAccount, op, NameOf(id), NameSent(id))
    {
      AdminTextWrites(d, superAccount, op, id);
    }
    forall d: Db, op: Op | d.Valid()
      ensures WritesOnce(d, superAccount, op, StatusOf(id), StatusSent(id))
              && WritesOnce(d, superAccount, op, LockOf(id), LockSent(id))
    {
      AdminFlagWrites(d, superAccount, op, id);
    }
    forall d: Db, op: Op | d.Valid() ensures WritesOnce(d, superAccount, op, AdminDeleted(id), AdminDeletedSent(id)) {
      AdminDeletedWrites(d, superAccount, op, id);
    }
    HoldsTheLast(db, superAccount, ops, AccountOf(id), AccountSent(id));
    HoldsTheLast(db, superAccount, ops, NameOf(id), NameSent(id));
    HoldsTheLast(db, superAccount, ops, StatusOf(id), StatusSent(id));
    HoldsTheLast(db, superAccount, ops, LockOf(id), LockSent(id));
    HoldsTheLast(db, superAccount, ops, AdminDeleted(id), AdminDeletedSent(id));
  }

  // ---------- Roles and permissions ----------

  /** The columns of a role besides its tombstone. */
  function RoleOf(id: nat): Db -> Option<RoleRow> {
    (db: Db) => if id in db.roles.rows then Some(db.roles.rows[id].(isDel := 0)) else None
  }

  function RoleSent(id: nat): (Db, Op) -> Option<RoleRow> {
    (before: Db, op: Op) => match op
      case CreateRole(i, r) => if before.roles.NewId(i) == id then Some(r.(isDel := 0)) else None
      case UpdateRole(i, r) => if i == id then Some(r.(isDel := 0)) else None
      case _ => None
  }

  function RoleDeleted(id: nat): Db -> Option<int> {
    (db: Db) => if id in db.roles.rows then Some(db.roles.rows[id].isDel) else None
  }

  function RoleDeletedSent(id: nat): (Db, Op) -> Option<int> {
    (before: Db, op: Op) => match op
      case CreateRole(i, r) => if before.roles.NewId(i) == id then Some(r.isDel) else None
      case DeleteRole(i) => if i == id && id in before.roles.rows then Some(1) else None
      case _ => None
  }

  function PermOf(id: nat): Db -> Option<PermRow> {
    (db: Db) => if id in db.perms.rows then Some(db.perms.rows[id].(isDel := 0)) else None
  }

  /** A create cannot send method 0 or an open route: it stores POST and a closed one instead. An update can. */
  function PermSent(id: nat): (Db, Op) -> Option<PermRow> {
    (before: Db, op: Op) => match op
      case CreatePerm(i, p) =>
        if before.perms.NewId(i) == id
        then Some(p.(isDel := 0, httpMethod := if p.httpMethod == 0 then 2 else p.httpMethod,
                     isIntercept := if p.isIntercept == 0 then 1 else p.isIntercept))
        else None
      case UpdatePerm(i, p) => if i == id then Some(p.(isDel := 0)) else None
      case _ => None
  }

  function PermDeleted(id: nat): Db -> Option<int> {
    (db: Db) => if id in db.perms.rows then Some(db.perms.rows[id].isDel) else None
  }

  function PermDeletedSent(id: nat): (Db, Op) -> Option<int> {
    (before: Db, op: Op) => match op
      case CreatePerm(i, p) => if before.perms.NewId(i) == id then Some(p.isDel) else None
      case DeletePerm(i) => if i == id && id in before.perms.rows then Some(1) else None
      case _ => None
  }

  lemma RoleWrites(db: Db, superAccount: string, op: Op, id: nat)
    requires db.Valid()
    ensures WritesOnce(db, superAccount, op, RoleOf(id), RoleSent(id))
  {
  }

  lemma RoleDeletedWrites(db: Db, superAccount: string, op: Op, id: nat)
    requires db.Valid()
    ensures WritesOnce(db, superAccount, op, RoleDeleted(id), RoleDeletedSent(id))
  {
  }

  lemma PermWrites(db: Db, superAccount: string, op: Op, id: nat)
    requires db.Valid()
    ensures WritesOnce(db, superAccount, op, PermOf(id), PermSent(id))
  {
  }

  lemma PermDeletedWrites(db: Db, superAccount: string, op: Op, id: nat)
    requires db.Valid()
    ensures WritesOnce(db, superAccount, op, PermDeleted(id), PermDeletedSent(id))
  {
  }

  /** After every run a role row is the last row that a successful create or update sent, deleted if a delete came. */
  lemma RoleHoldsWhatWasSent(db: Db, superAccount: string, ops: seq<Op>, id: nat)
    requires db.Valid()
    ensures
      var db' := Run(db, superAccount, ops);
      && RoleOf(id)(db') == LastSent(db, superAccount, ops, RoleSent(id), RoleOf(id)(db))
      && RoleDeleted(id)(db') == LastSent(db, superAccount, ops, RoleDeletedSent(id), RoleDeleted(id)(db))
  {
    forall d: Db, op: Op | d.Valid() ensures WritesOnce(d, superAccount, op, RoleOf(id), RoleSent(id)) {
      RoleWrites(d, superAccount, op, id);
    }
    forall d: Db, op: Op | d.Valid() ensures WritesOnce(d, superAccount, op, RoleDeleted(id), RoleDeletedSent(id)) {
      RoleDeletedWrites(d, superAccount, op, id);
    }
    HoldsTheLast(db, superAccount, ops, RoleOf(id), RoleSent(id));
    HoldsTheLast(db, superAccount, ops, RoleDeleted(id), RoleDeletedSent(id));
  }

  /** The same for permissions, with the column defaults that only a create falls back to. */
  lemma PermHoldsWhatWasSent(db: Db, superAccount: string, ops: seq<Op>, id: nat)
    requires db.Valid()
    ensures
      var db' := Run(db, superAccount, ops);
      && PermOf(id)(db') == LastSent(db, superAccount, ops, PermSent(id), PermOf(id)(db))
      && PermDeleted(id)(db') == LastSent(db, superAccount, ops, PermDeletedSent(id), PermDeleted(id)(db))
  {
    forall d: Db, op: Op | d.Valid() ensures WritesOnce(d, superAccount, op, PermOf(id), PermSent(id)) {
      PermWrites(d, superAccount, op, id);
    }
    forall d: Db, op: Op | d.Valid() ensures WritesOnce(d, superAccount, op, PermDeleted(id), PermDeletedSent(id)) {
      PermDeletedWrites(d, superAccount, op, id);
    }
    HoldsTheLast(db, superAccount, ops, PermOf(id), PermSent(id));
    HoldsTheLast(db, superAccount, ops, PermDeleted(id), PermDeletedSent(id));
  }

  // ---------- Menus ----------

  /** What one column holds. */
  datatype Cell = Text(s: string) | Number(n: int)

  /** How many columns of a menu an update may name. */
  const COLUMNS: nat := 15

  function CellAt(m: MenuRow, k: nat): Cell {
    match k
    case 0 => Text(m.code)
    case 1 => Number(m.parent)
    case 2 => Text(m.name)
    case 3 => Text(m.path)
    case 4 => Text(m.icon)
    case 5 => Text(m.title)
    case 6 => Number(m.typ)
    case 7 => Number(m.sort)
    case 8 => Number(m.status)
    case 9 => Number(m.isLink)
    case 10 => Text(m.included)
    case 11 => Text(m.valueKey)
    case 12 => Text(m.valueWidth)
    case 13 => Number(m.valueEllipsis)
    case _ => Text(m.remark)
  }

  function TextCell(s: Option<string>): Option<Cell> {
    if s.Some? then Some(Text(s.value)) else None
  }

  function NumberCell(n: Option<int>): Option<Cell> {
    if n.Some? then Some(Number(n.value)) else None
  }

  function ParentCell(n: Option<nat>): Option<Cell> {
    if n.Some? then Some(Number(n.value)) else None
  }

  /** The same columns of an update, None where it names none. */
  function Given(p: MenuPatch, k: nat): Option<Cell> {
    match k
    case 0 => TextCell(p.code)
    case 1 => ParentCell(p.parent)
    case 2 => TextCell(p.name)
    case 3 => TextCell(p.path)
    case 4 => TextCell(p.icon)
    case 5 => TextCell(p.title)
    case 6 => NumberCell(p.typ)
    case 7 => NumberCell(p.sort)
    case 8 => NumberCell(p.status)
    case 9 => NumberCell(p.isLink)
    case 10 => TextCell(p.included)
    case 11 => TextCell(p.valueKey)
    case 12 => TextCell(p.valueWidth)
    case 13 => NumberCell(p.valueEllipsis)
    case _ => TextCell(p.remark)
  }

  function MenuCell(id: nat, k: nat): Db -> Option<Cell>
  {
    (db: Db) => if id in db.menus.rows then Some(CellAt(db.menus.rows[id], k)) else None
  }

  function MenuSent(id: nat, k: nat): (Db, Op) -> Option<Cell>
  {
    (before: Db, op: Op) => match op
      case CreateMenu(i, m) => if before.menus.NewId(i) == id then Some(CellAt(m, k)) else None
      case UpdateMenu(i, p) => if i == id then Given(p, k) else None
      case _ => None
  }

  function MenuDeleted(id: nat): Db -> Option<int> {
    (db: Db) => if id in db.menus.rows then Some(db.menus.rows[id].isDel) else None
  }

  function MenuDeletedSent(id: nat): (Db, Op) -> Option<int> {
    (before: Db, op: Op) => match op
      case CreateMenu(i, m) => if before.menus.NewId(i) == id then Some(m.isDel) else None
      case DeleteMenu(i) => if i == id && id in before.menus.rows then Some(1) else None
      case _ => None
  }

  lemma PatchCells(m: MenuRow, p: MenuPatch, k: nat)
    ensures CellAt(Patch(m, p), k) == if Given(p, k).Some? then Given(p, k).value else CellAt(m, k)
  {
  }

  lemma MenuWrites(db: Db, superAccount: string, op: Op, id: nat, k: nat)
    requires db.Valid() && k < COLUMNS
    ensures WritesOnce(db, superAccount, op, MenuCell(id, k), MenuSent(id, k))
  {
    if op.UpdateMenu? && op.id == id && id in db.menus.rows {
      PatchCells(db.menus.rows[id], op.patch, k);
    }
    if op.DeleteMenu? && op.id in db.menus.rows {
      assert CellAt(db.menus.rows[op.id].(isDel := 1), k) == CellAt(db.menus.rows[op.id], k);
    }
  }

  lemma MenuDeletedWrites(db: Db, superAccount: string, op: Op, id: nat)
    requires db.Valid()
    ensures WritesOnce(db, superAccount, op, MenuDeleted(id), MenuDeletedSent(id))
  {
  }

  /** After every run each column of a menu holds the last value that a successful create or update sent for it. */
  lemma MenuHoldsEachColumn(db: Db, superAccount: string, ops: seq<Op>, id: nat, k: nat)
    requires db.Valid() && k < COLUMNS
    ensures
      var db' := Run(db, superAccount, ops);
      && MenuCell(id, k)(db') == LastSent(db, superAccount, ops, MenuSent(id, k), MenuCell(id, k)(db))
      && MenuDeleted(id)(db') == LastSent(db, superAccount, ops, MenuDeletedSent(id), MenuDeleted(id)(db))
  {
    forall d: Db, op: Op | d.Valid() ensures WritesOnce(d, superAccount, op, MenuCell(id, k), MenuSent(id, k)) {
      MenuWrites(d, superAccount, op, id, k);
    }
    forall d: Db, op: Op | d.Valid() ensures WritesOnce(d, superAccount, op, MenuDeleted(id), MenuDeletedSent(id)) {
      MenuDeletedWrites(d, superAccount, op, id);
    }
    HoldsTheLast(db, superAccount, ops, MenuCell(id, k), MenuSent(id, k));
    HoldsTheLast(db, superAccount, ops, MenuDeleted(id), MenuDeletedSent(id));
  }

  // ---------- Bindings ----------

  ghost function HasRole(admin: nat, role: nat): Db -> Option<bool> {
    (db: Db) => Some(Joined(db.adminRole, admin, role))
  }

  ghost function HasMenu(role: nat, menu: nat): Db -> Option<bool> {
    (db: Db) => Some(Joined(db.roleMenu, role, menu))
  }

  ghost function HasPerm(menu: nat, perm: nat): Db -> Option<bool> {
    (db: Db) => Some(Joined(db.menuPerm, menu, perm))
  }

  /** A create says something only about the roles it lists, an update with a list about every role of the admin. */
  function RoleSaid(admin: nat, role: nat): (Db, Op) -> Option<bool> {
    (before: Db, op: Op) => match op
      case CreateAdmin(i, _, _, roles) =>
        if before.admins.NewId(i) == admin && role != 0 && role in roles then Some(true) else None
      case UpdateAdmin(i, _, Some(roles)) => if i == admin then Some(role != 0 && role in roles) else None
      case DeleteAdmin(i, _) => if i == admin then Some(false) else None
      case DeleteRole(i) => if i == role then Some(false) else None
      case _ => None
  }

  function MenuSaid(role: nat, menu: nat): (Db, Op) -> Option<bool> {
    (before: Db, op: Op) => match op
      case AssignRoleMenus(i, menus) => if i == role then Some(menu != 0 && menu in menus) else None
      case DeleteRole(i) => if i == role then Some(false) else None
      case DeleteMenu(i) => if i == menu then Some(false) else None
      case _ => None
  }

  function PermSaid(menu: nat, perm: nat): (Db, Op) -> Option<bool> {
    (before: Db, op: Op) => match op
      case AssignMenuPerms(i, perms) => if i == menu then Some(perm != 0 && perm in perms) else None
      case DeleteMenu(i) => if i == menu then Some(false) else None
      case DeletePerm(i) => if i == perm then Some(false) else None
      case _ => None
  }

  lemma RoleBindingWrites(db: Db, superAccount: string, op: Op, admin: nat, role: nat)
    requires db.Valid()
    ensures WritesOnce(db, superAccount, op, HasRole(admin, role), RoleSaid(admin, role))
  {
    DoRefines(db, superAccount, op);
    RelJoined(db.adminRole, admin, role);
    RelJoined(Do(db, superAccount, op).0.adminRole, admin, role);
    assert Abs(Do(db, superAccount, op).0).adminRole == Apply(Abs(db), Intent(db, superAccount, op)).adminRole;
  }

  lemma MenuBindingWrites(db: Db, superAccount: string, op: Op, role: nat, menu: nat)
    requires db.Valid()
    ensures WritesOnce(db, superAccount, op, HasMenu(role, menu), MenuSaid(role, menu))
  {
    DoRefines(db, superAccount, op);
    RelJoined(db.roleMenu, role, menu);
    RelJoined(Do(db, superAccount, op).0.roleMenu, role, menu);
    assert Abs(Do(db, superAccount, op).0).roleMenu == Apply(Abs(db), Intent(db, superAccount, op)).roleMenu;
  }

  lemma PermBindingWrites(db: Db, superAccount: string, op: Op, menu: nat, perm: nat)
    requires db.Valid()
    ensures WritesOnce(db, superAccount, op, HasPerm(menu, perm), PermSaid(menu, perm))
  {
    DoRefines(db, superAccount, op);
    RelJoined(db.menuPerm, menu, perm);
    RelJoined(Do(db, superAccount, op).0.menuPerm, menu, perm);
    assert Abs(Do(db, superAccount, op).0).menuPerm == Apply(Abs(db), Intent(db, superAccount, op)).menuPerm;
  }

  /**
   After every run an admin has a role, a role a menu and a menu a permission exactly if the last successful call that
   says anything about the two says so, or if none does and it was so at the start.
   */
  lemma LastWordOnBindings(db: Db, superAccount: string, ops: seq<Op>, l: nat, r: nat)
    requires db.Valid()
    ensures
      var db' := Run(db, superAccount, ops);
      && HasRole(l, r)(db') == LastSent(db, superAccount, ops, RoleSaid(l, r), HasRole(l, r)(db))
      && HasMenu(l, r)(db') == LastSent(db, superAccount, ops, MenuSaid(l, r), HasMenu(l, r)(db))
      && HasPerm(l, r)(db') == LastSent(db, superAccount, ops, PermSaid(l, r), HasPerm(l, r)(db))
  {
    forall d: Db, op: Op | d.Valid() ensures WritesOnce(d, superAccount, op, HasRole(l, r), RoleSaid(l, r)) {
      RoleBindingWrites(d, superAccount, op, l, r);
    }
    forall d: Db, op: Op | d.Valid() ensures WritesOnce(d, superAccount, op, HasMenu(l, r), MenuSaid(l, r)) {
      MenuBindingWrites(d, superAccount, op, l, r);
    }
    forall d: Db, op: Op | d.Valid() ensures WritesOnce(d, superAccount, op, HasPerm(l, r), PermSaid(l, r)) {
      PermBindingWrites(d, superAccount, op, l, r);
    }
    HoldsTheLast(db, superAccount, ops, HasRole(l, r), RoleSaid(l, r));
    HoldsTheLast(db, superAccount, ops, HasMenu(l, r), MenuSaid(l, r));
    HoldsTheLast(db, superAccount, ops, HasPerm(l, r), PermSaid(l, r));
  }
}
