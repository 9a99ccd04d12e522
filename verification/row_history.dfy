/** What no sequence of mutator calls does to a row: revive it, edit it once deleted, or change its password unasked. */
module RowHistory {
  import opened Wrappers
  import opened Tables
  import opened RBAC
  import opened Policies

  // ---------- Deleted rows ----------

  /**
   No row has left the table, and rows that were deleted are still deleted and otherwise as they were. `dead` tells
   whether a row is deleted and `cleared` forgets how.
   */
  ghost predicate Stay<R>(t: Table<R>, t': Table<R>, dead: R -> bool, cleared: R -> R) {
    forall id :: id in t.rows ==>
      id in t'.rows && (dead(t.rows[id]) ==> dead(t'.rows[id]) && cleared(t'.rows[id]) == cleared(t.rows[id]))
  }

  ghost predicate AdminsStay(t: Table<AdminRow>, t': Table<AdminRow>) {
    Stay(t, t', (r: AdminRow) => r.isDel != 0, (r: AdminRow) => r.(isDel := 0))
  }

  ghost predicate RolesStay(t: Table<RoleRow>, t': Table<RoleRow>) {
    Stay(t, t', (r: RoleRow) => r.isDel != 0, (r: RoleRow) => r.(isDel := 0))
  }

  ghost predicate MenusStay(t: Table<MenuRow>, t': Table<MenuRow>) {
    Stay(t, t', (r: MenuRow) => r.isDel != 0, (r: MenuRow) => r.(isDel := 0))
  }

  ghost predicate PermsStay(t: Table<PermRow>, t': Table<PermRow>) {
    Stay(t, t', (r: PermRow) => r.isDel != 0, (r: PermRow) => r.(isDel := 0))
  }

  ghost predicate RowsStay(db: Db, db': Db) {
    && AdminsStay(db.admins, db'.admins) && RolesStay(db.roles, db'.roles)
    && MenusStay(db.menus, db'.menus) && PermsStay(db.perms, db'.perms)
  }

  lemma DoKeepsAdmins(db: Db, superAccount: string, op: Op)
    requires db.Valid()
    ensures AdminsStay(db.admins, Do(db, superAccount, op).0.admins)
  {
  }

  lemma DoKeepsRoles(db: Db, superAccount: string, op: Op)
    requires db.Valid()
    ensures RolesStay(db.roles, Do(db, superAccount, op).0.roles)
  {
  }

  lemma DoKeepsMenus(db: Db, superAccount: string, op: Op)
    requires db.Valid()
    ensures MenusStay(db.menus, Do(db, superAccount, op).0.menus)
  {
  }

  lemma DoKeepsPerms(db: Db, superAccount: string, op: Op)
    requires db.Valid()
    ensures PermsStay(db.perms, Do(db, superAccount, op).0.perms)
  {
  }

  /** In every run a deleted admin, role, menu or permission stays deleted and keeps all its columns. */
  lemma {:induction false} DeadRowsStay(db: Db, superAccount: string, ops: seq<Op>)
    requires db.Valid()
    ensures RowsStay(db, Run(db, superAccount, ops))
  {
    if ops != [] {
      var n := |ops| - 1;
      DeadRowsStay(db, superAccount, ops[..n]);
      RunRefines(db, superAccount, ops[..n]);
      var mid := Run(db, superAccount, ops[..n]);
      DoKeepsAdmins(mid, superAccount, ops[n]);
      DoKeepsRoles(mid, superAccount, ops[n]);
      DoKeepsMenus(mid, superAccount, ops[n]);
      DoKeepsPerms(mid, superAccount, ops[n]);
    }
  }

  // ---------- What one call leaves alone ----------

  /** The tables of a call that is about admins, roles, menus or permissions. */
  predicate AboutAdmins(op: Op) {
    op.CreateAdmin? || op.UpdateAdmin? || op.ResetAdminPassword? || op.DeleteAdmin? || op.UpdateAdminStatus?
  }

  predicate AboutRoles(op: Op) {
    op.CreateRole? || op.UpdateRole? || op.DeleteRole? || op.AssignRoleMenus?
  }

  predicate AboutMenus(op: Op) {
    op.CreateMenu? || op.UpdateMenu? || op.DeleteMenu? || op.AssignMenuPerms?
  }

  lemma AdminsFrame(db: Db, superAccount: string, op: Op)
    requires db.Valid()
    ensures
      var db' := Do(db, superAccount, op).0;
      && (!AboutAdmins(op) ==> db'.admins == db.admins)
      && forall id :: id in db.admins.rows && id != op.id ==>
           id in db'.admins.rows && db'.admins.rows[id] == db.admins.rows[id]
  {
  }

  lemma RolesFrame(db: Db, superAccount: string, op: Op)
    requires db.Valid()
    ensures
      var db' := Do(db, superAccount, op).0;
      && (!AboutRoles(op) ==> db'.roles == db.roles)
      && forall id :: id in db.roles.rows && id != op.id ==>
           id in db'.roles.rows && db'.roles.rows[id] == db.roles.rows[id]
  {
  }

  lemma MenusFrame(db: Db, superAccount: string, op: Op)
    requires db.Valid()
    ensures
      var db' := Do(db, superAccount, op).0;
      && (!AboutMenus(op) ==> db'.menus == db.menus)
      && forall id :: id in db.menus.rows && id != op.id ==>
           id in db'.menus.rows && db'.menus.rows[id] == db.menus.rows[id]
  {
  }

  lemma PermsFrame(db: Db, superAccount: string, op: Op)
    requires db.Valid()
    ensures
      var db' := Do(db, superAccount, op).0;
      && (AboutAdmins(op) || AboutRoles(op) || AboutMenus(op) ==> db'.perms == db.perms)
      && forall id :: id in db.perms.rows && id != op.id ==>
           id in db'.perms.rows && db'.perms.rows[id] == db.perms.rows[id]
  {
  }

  lemma RefusedChangesNothing(db: Db, superAccount: string, op: Op)
    requires Do(db, superAccount, op).1 != Ok
    ensures Do(db, superAccount, op).0 == db
  {
  }

  /**
   A refused call changes nothing. A call changes no entity table but its own, and there no existing row but the one
   it names.
   */
  lemma CallsChangeOneRow(db: Db, superAccount: string, op: Op)
    requires db.Valid()
    ensures
      var (db', code) := Do(db, superAccount, op);
      && (code != Ok ==> db' == db)
      && (!AboutAdmins(op) ==> db'.admins == db.admins) && (!AboutRoles(op) ==> db'.roles == db.roles)
      && (!AboutMenus(op) ==> db'.menus == db.menus)
      && (AboutAdmins(op) || AboutRoles(op) || AboutMenus(op) ==> db'.perms == db.perms)
      && (forall id :: id in db.admins.rows && id != op.id ==>
            id in db'.admins.rows && db'.admins.rows[id] == db.admins.rows[id])
      && (forall id :: id in db.roles.rows && id != op.id ==>
            id in db'.roles.rows && db'.roles.rows[id] == db.roles.rows[id])
      && (forall id :: id in db.menus.rows && id != op.id ==>
            id in db'.menus.rows && db'.menus.rows[id] == db.menus.rows[id])
      && (forall id :: id in db.perms.rows && id != op.id ==>
            id in db'.perms.rows && db'.perms.rows[id] == db.perms.rows[id])
  {
    AdminsFrame(db, superAccount, op);
    RolesFrame(db, superAccount, op);
    MenusFrame(db, superAccount, op);
    PermsFrame(db, superAccount, op);
    if Do(db, superAccount, op).1 != Ok {
      RefusedChangesNothing(db, superAccount, op);
    }
  }

  // ---------- Partial updates of a menu ----------

  /** No column is in both patches. */
  predicate Disjoint(p: MenuPatch, q: MenuPatch) {
    && (p.code.None? || q.code.None?) && (p.parent.None? || q.parent.None?) && (p.name.None? || q.name.None?)
    && (p.path.None? || q.path.None?) && (p.icon.None? || q.icon.None?) && (p.title.None? || q.title.None?)
    && (p.typ.None? || q.typ.None?) && (p.sort.None? || q.sort.None?) && (p.status.None? || q.status.None?)
    && (p.isLink.None? || q.isLink.None?) && (p.included.None? || q.included.None?)
    && (p.valueKey.None? || q.valueKey.None?) && (p.valueWidth.None? || q.valueWidth.None?)
    && (p.valueEllipsis.None? || q.valueEllipsis.None?) && (p.remark.None? || q.remark.None?)
  }

  function LastOf<T>(p: Option<T>, q: Option<T>): Option<T> {
    if q.Some? then q else p
  }

  /** The columns of both patches, the second winning. */
  function Over(p: MenuPatch, q: MenuPatch): MenuPatch {
    MenuPatch(LastOf(p.code, q.code), LastOf(p.parent, q.parent), LastOf(p.name, q.name), LastOf(p.path, q.path),
              LastOf(p.icon, q.icon), LastOf(p.title, q.title), LastOf(p.typ, q.typ), LastOf(p.sort, q.sort),
              LastOf(p.status, q.status), LastOf(p.isLink, q.isLink), LastOf(p.included, q.included),
              LastOf(p.valueKey, q.valueKey), LastOf(p.valueWidth, q.valueWidth),
              LastOf(p.valueEllipsis, q.valueEllipsis), LastOf(p.remark, q.remark))
  }

  lemma PatchOver(m: MenuRow, p: MenuPatch, q: MenuPatch)
    ensures Patch(Patch(m, p), q) == Patch(m, Over(p, q))
  {
  }

  /** Everything that the successful updates of a run have sent for menu `id`, the last value of each column. */
  function Sent(db: Db, superAccount: string, ops: seq<Op>, id: nat): MenuPatch {
    if ops == [] then EMPTY_PATCH
    else
      var n := |ops| - 1;
      var earlier := Sent(db, superAccount, ops[..n], id);
      if ops[n].UpdateMenu? && ops[n].id == id && Do(Run(db, superAccount, ops[..n]), superAccount, ops[n]).1 == Ok
      then Over(earlier, ops[n].patch) else earlier
  }

  lemma MenuRowStep(db: Db, superAccount: string, op: Op, id: nat)
    requires db.Valid() && id in db.menus.rows
    ensures
      var (db', code) := Do(db, superAccount, op);
      && id in db'.menus.rows
      && var m, m' := db.menus.rows[id], db'.menus.rows[id];
         if op.UpdateMenu? && op.id == id && code == Ok then m' == Patch(m, op.patch) else m' == m.(isDel := m'.isDel)
  {
  }

  /** After every run a menu's row is its row at the start with, in each column, the last value sent for it. */
  lemma {:induction false} MenuHoldsWhatWasSent(db: Db, superAccount: string, ops: seq<Op>, id: nat)
    requires db.Valid() && id in db.menus.rows
    ensures
      var rows := Run(db, superAccount, ops).menus.rows;
      id in rows && rows[id] == Patch(db.menus.rows[id], Sent(db, superAccount, ops, id)).(isDel := rows[id].isDel)
  {
    var m := db.menus.rows[id];
    assert Patch(m, EMPTY_PATCH) == m;
    if ops != [] {
      var n := |ops| - 1;
      var mid := Run(db, superAccount, ops[..n]);
      MenuHoldsWhatWasSent(db, superAccount, ops[..n], id);
      RunRefines(db, superAccount, ops[..n]);
      MenuRowStep(mid, superAccount, ops[n], id);
      if ops[n].UpdateMenu? {
        PatchOver(m, Sent(db, superAccount, ops[..n], id), ops[n].patch);
        PatchKeepsDeleted(m, Sent(db, superAccount, ops[..n], id), mid.menus.rows[id].isDel, ops[n].patch);
      }
    }
  }

  lemma PatchKeepsDeleted(m: MenuRow, p: MenuPatch, isDel: int, q: MenuPatch)
    ensures Patch(Patch(m, p).(isDel := isDel), q) == Patch(Patch(m, p), q).(isDel := isDel)
  {
  }

  /** A patch that moves a menu: it sends at most the parent and the sort column. */
  predicate Moves(p: MenuPatch) {
    p == EMPTY_PATCH.(parent := p.parent, sort := p.sort)
  }

  lemma {:induction false} OnlyMovesSent(db: Db, superAccount: string, ops: seq<Op>, id: nat)
    requires forall i :: 0 <= i < |ops| && ops[i].UpdateMenu? && ops[i].id == id ==> Moves(ops[i].patch)
    ensures Moves(Sent(db, superAccount, ops, id))
  {
    if ops != [] {
      OnlyMovesSent(db, superAccount, ops[..|ops| - 1], id);
    }
  }

  /**
   Dragging a menu clears nothing: in a run whose updates of the menu send only parent and sort, no other column of its
   row changes, whatever other calls the run makes.
   */
  lemma DraggingMovesOnly(db: Db, superAccount: string, ops: seq<Op>, id: nat)
    requires db.Valid() && id in db.menus.rows
    requires forall i :: 0 <= i < |ops| && ops[i].UpdateMenu? && ops[i].id == id ==> Moves(ops[i].patch)
    ensures
      var rows := Run(db, superAccount, ops).menus.rows;
      && id in rows
      && rows[id] == db.menus.rows[id].(parent := rows[id].parent, sort := rows[id].sort, isDel := rows[id].isDel)
  {
    MenuHoldsWhatWasSent(db, superAccount, ops, id);
    OnlyMovesSent(db, superAccount, ops, id);
  }

  lemma PatchesCommute(m: MenuRow, p: MenuPatch, q: MenuPatch)
    requires Disjoint(p, q)
    ensures Patch(Patch(m, p), q) == Patch(Patch(m, q), p)
  {
  }

  /** The menus after two updates in a row. */
  lemma TwoUpdates(db: Db, superAccount: string, id: nat, p: MenuPatch, q: MenuPatch)
    requires id in db.menus.rows && db.menus.rows[id].isDel == 0
    ensures
      Do(Do(db, superAccount, UpdateMenu(id, p)).0, superAccount, UpdateMenu(id, q)).0
      == db.(menus := db.menus.Put(id, Patch(Patch(db.menus.rows[id], p), q)))
  {
    var m := db.menus.rows[id];
    assert Patch(m, EMPTY_PATCH) == m && Patch(Patch(m, p), EMPTY_PATCH) == Patch(m, p);
    assert db.menus.rows[id := m] == db.menus.rows;
    assert db.menus.rows[id := Patch(m, p)][id := Patch(Patch(m, p), q)]
        == db.menus.rows[id := Patch(Patch(m, p), q)];
  }

  /** Two updates of a menu that send different columns can be applied in either order. */
  lemma DisjointUpdatesCommute(db: Db, superAccount: string, id: nat, p: MenuPatch, q: MenuPatch)
    requires Disjoint(p, q)
    ensures
      Do(Do(db, superAccount, UpdateMenu(id, p)).0, superAccount, UpdateMenu(id, q)).0
      == Do(Do(db, superAccount, UpdateMenu(id, q)).0, superAccount, UpdateMenu(id, p)).0
  {
    if id in db.menus.rows && db.menus.rows[id].isDel == 0 {
      TwoUpdates(db, superAccount, id, p, q);
      TwoUpdates(db, superAccount, id, q, p);
      PatchesCommute(db.menus.rows[id], p, q);
    }
  }

  // ---------- Columns of a live admin ----------

  /** Which columns of row `id` a call may change. */
  ghost predicate AdminColumns(db: Db, superAccount: string, op: Op, id: nat)
    requires id in db.admins.rows
  {
    var (db', code) := Do(db, superAccount, op);
    && id in db'.admins.rows
    && var r, r' := db.admins.rows[id], db'.admins.rows[id];
    && r'.account == r.account
    && (r'.password != r.password ==> op == ResetAdminPassword(id, r'.password) && code == Ok)
    && (r'.isDel != r.isDel ==> op.DeleteAdmin? && op.id == id && code == Ok && r'.isDel == 1)
    && (r'.isLock != r.isLock || r'.name != r.name ==> op.UpdateAdmin? && op.id == id)
    && (r'.status != r.status ==> (op.UpdateAdmin? || op.UpdateAdminStatus?) && op.id == id)
  }

  /** Each column of an admin changes only by the call that is for it, and only on the row that the call names. */
  lemma AdminColumnsFrame(db: Db, superAccount: string, op: Op, id: nat)
    requires db.Valid() && id in db.admins.rows
    ensures AdminColumns(db, superAccount, op, id)
  {
  }

  /** An account name is never changed. */
  lemma {:induction false} AccountStays(db: Db, superAccount: string, ops: seq<Op>, id: nat)
    requires db.Valid() && id in db.admins.rows
    ensures
      var rows := Run(db, superAccount, ops).admins.rows;
      id in rows && rows[id].account == db.admins.rows[id].account
  {
    if ops != [] {
      var n := |ops| - 1;
      AccountStays(db, superAccount, ops[..n], id);
      RunRefines(db, superAccount, ops[..n]);
      AdminColumnsFrame(Run(db, superAccount, ops[..n]), superAccount, ops[n], id);
    }
  }

  // ---------- Passwords ----------

  /** The password the last successful create or reset of admin `id` set, or the one the row had at the start. */
  function LastPassword(db: Db, superAccount: string, ops: seq<Op>, id: nat): Option<string> {
    if ops == [] then if id in db.admins.rows then Some(db.admins.rows[id].password) else None
    else
      var n := |ops| - 1;
      var before := Run(db, superAccount, ops[..n]);
      if Do(before, superAccount, ops[n]).1 != Ok then LastPassword(db, superAccount, ops[..n], id)
      else match ops[n]
        case CreateAdmin(i, _, p, _) =>
          if before.admins.NewId(i) == id then Some(p) else LastPassword(db, superAccount, ops[..n], id)
        case ResetAdminPassword(i, p) => if i == id then Some(p) else LastPassword(db, superAccount, ops[..n], id)
        case _ => LastPassword(db, superAccount, ops[..n], id)
  }

  /** The password an admin has after one call. */
  lemma PasswordStep(db: Db, superAccount: string, op: Op, id: nat)
    requires db.Valid()
    ensures
      var (db', code) := Do(db, superAccount, op);
      && (id in db'.admins.rows <==>
            id in db.admins.rows || (code == Ok && op.CreateAdmin? && db.admins.NewId(op.id) == id))
      && (id in db'.admins.rows ==>
            db'.admins.rows[id].password ==
            if code == Ok && op.CreateAdmin? && db.admins.NewId(op.id) == id then op.password
            else if code == Ok && op.ResetAdminPassword? && op.id == id then op.password
            else db.admins.rows[id].password)
      && (code == Ok && op.ResetAdminPassword? && op.id == id ==> id in db.admins.rows)
  {
  }

  /** After every run an admin's row holds the password set last, and a row exists exactly when one was ever set. */
  lemma {:induction false} PasswordIsTheLastOne(db: Db, superAccount: string, ops: seq<Op>, id: nat)
    requires db.Valid()
    ensures
      var rows := Run(db, superAccount, ops).admins.rows;
      LastPassword(db, superAccount, ops, id) == if id in rows then Some(rows[id].password) else None
  {
    if ops != [] {
      var n := |ops| - 1;
      PasswordIsTheLastOne(db, superAccount, ops[..n], id);
      RunRefines(db, superAccount, ops[..n]);
      PasswordStep(Run(db, superAccount, ops[..n]), superAccount, ops[n], id);
    }
  }
}
