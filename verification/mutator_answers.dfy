/**
 What the answer of a mutator call tells the caller, and what follows from it over runs: deleted rows refuse every
 later call, no one deletes the own account, and a created permission opens nothing.
 */
module MutatorAnswers {
  import opened Wrappers
  import opened Tables
  import opened RBAC
  import opened Policies
  import opened Decisions
  import opened SentColumns
  import opened RowHistory
  import opened SuperAccount

  // ---------- What each answer means ----------

  /** The call lacks something that it needs, or an admin asks for the own deletion; no table is asked. */
  predicate Incomplete(op: Op) {
    match op
    case CreateAdmin(_, a, password, _) => a.account == "" || password == ""
    case UpdateAdmin(id, _, _) => id == 0
    case ResetAdminPassword(_, password) => password == ""
    case DeleteAdmin(id, operator) => id == 0 || id == operator
    case UpdateAdminStatus(id, _) => id == 0
    case CreateRole(_, r) => r.name == ""
    case CreateMenu(_, m) => m.name == "" && m.title == ""
    case UpdateMenu(_, p) => forall k: nat :: k < COLUMNS ==> Given(p, k).None?
    case CreatePerm(_, p) => p.route == ""
    case _ => false
  }

  lemma EmptyPatchGivesNothing(p: MenuPatch)
    ensures p == EMPTY_PATCH <==> forall k: nat :: k < COLUMNS ==> Given(p, k).None?
  {
    if forall k: nat :: k < COLUMNS ==> Given(p, k).None? {
      assert Given(p, 0).None? && Given(p, 1).None? && Given(p, 2).None? && Given(p, 3).None? && Given(p, 4).None?;
      assert Given(p, 5).None? && Given(p, 6).None? && Given(p, 7).None? && Given(p, 8).None? && Given(p, 9).None?;
      assert Given(p, 10).None? && Given(p, 11).None? && Given(p, 12).None? && Given(p, 13).None?;
      assert Given(p, 14).None?;
    }
  }

  ghost predicate AccountHeld(db: Db, account: string, live: bool) {
    exists id :: id in db.admins.rows && db.admins.rows[id].account == account
                 && (db.admins.rows[id].isDel == 0 <==> live)
  }

  /** The call names an admin, role, menu or permission that must be there and is not, or is deleted. */
  predicate NamesNone(db: Db, op: Op) {
    match op
    case ResetAdminPassword(id, _) => AdminDeleted(id)(db) != Some(0)
    case DeleteAdmin(id, _) => AdminDeleted(id)(db) != Some(0)
    case UpdateAdminStatus(id, _) => AdminDeleted(id)(db) != Some(0)
    case UpdateRole(id, _) => RoleDeleted(id)(db) != Some(0)
    case UpdateMenu(id, _) => MenuDeleted(id)(db) != Some(0)
    case UpdatePerm(id, _) => PermDeleted(id)(db) != Some(0)
    case _ => false
  }

  predicate NamesSuper(db: Db, superAccount: string, op: Op) {
    && superAccount != "" && (op.DeleteAdmin? || op.UpdateAdminStatus?)
    && AccountOf(op.id)(db) == Some(superAccount)
  }

  /** The id column of a create is taken. */
  predicate IdTaken(db: Db, op: Op) {
    match op
    case CreateAdmin(id, _, _, _) => id != 0 && id in db.admins.rows
    case CreateRole(id, _) => id != 0 && id in db.roles.rows
    case CreateMenu(id, _) => id != 0 && id in db.menus.rows
    case CreatePerm(id, _) => id != 0 && id in db.perms.rows
    case _ => false
  }

  /**
   Each answer, exactly. ParamError is about the call alone. An account is refused with AccountExists while a live admin
   has it and with a database error once only a tombstone does.
   */
  lemma AnswerMeans(db: Db, superAccount: string, op: Op)
    ensures
      var code := Do(db, superAccount, op).1;
      && (code == ParamError <==> Incomplete(op))
      && (code == AccountExists <==> !Incomplete(op) && op.CreateAdmin? && AccountHeld(db, op.admin.account, true))
      && (code == AccountNotFound <==>
            !Incomplete(op) && NamesNone(db, op) && !op.UpdateRole? && !op.UpdateMenu? && !op.UpdatePerm?)
      && (code == RecordNotFound <==>
            !Incomplete(op) && NamesNone(db, op) && (op.UpdateRole? || op.UpdateMenu? || op.UpdatePerm?))
      && (code == AccessDenied <==> !Incomplete(op) && !NamesNone(db, op) && NamesSuper(db, superAccount, op))
      && (code == DBError <==>
            && !Incomplete(op) && !(op.CreateAdmin? && AccountHeld(db, op.admin.account, true))
            && (IdTaken(db, op) || (op.CreateAdmin? && AccountHeld(db, op.admin.account, false))))
  {
    if op.UpdateMenu? {
      EmptyPatchGivesNothing(op.patch);
    } else if op.CreateAdmin? {
      assert AccountHeld(db, op.admin.account, true) <==> AccountLive(db, op.admin.account);
    }
  }

  // ---------- After a deletion ----------

  /** `later` needs the row that `op` deletes. */
  predicate NeedsRowOf(op: Op, later: Op) {
    match op
    case DeleteAdmin(id, _) =>
      later.id == id && (later.ResetAdminPassword? || later.DeleteAdmin? || later.UpdateAdminStatus?)
    case DeleteRole(id) => later.id == id && later.UpdateRole?
    case DeleteMenu(id) => later.id == id && later.UpdateMenu?
    case DeletePerm(id) => later.id == id && later.UpdatePerm?
    case _ => false
  }

  predicate NamesRow(db: Db, op: Op) {
    match op
    case DeleteAdmin(id, _) => id in db.admins.rows
    case DeleteRole(id) => id in db.roles.rows
    case DeleteMenu(id) => id in db.menus.rows
    case DeletePerm(id) => id in db.perms.rows
    case _ => false
  }

  /** The row that a call deletes has its tombstone afterwards. */
  predicate Tombstoned(db: Db, op: Op) {
    match op
    case DeleteAdmin(id, _) => AdminDeleted(id)(db).Some? && AdminDeleted(id)(db) != Some(0)
    case DeleteRole(id) => RoleDeleted(id)(db).Some? && RoleDeleted(id)(db) != Some(0)
    case DeleteMenu(id) => MenuDeleted(id)(db).Some? && MenuDeleted(id)(db) != Some(0)
    case DeletePerm(id) => PermDeleted(id)(db).Some? && PermDeleted(id)(db) != Some(0)
    case _ => false
  }

  lemma DeletionTombstones(db: Db, superAccount: string, op: Op)
    requires db.Valid() && IsDelete(op) && NamesRow(db, op) && Do(db, superAccount, op).1 == Ok
    ensures Tombstoned(Do(db, superAccount, op).0, op)
  {
  }

  lemma TombstoneStays(db: Db, superAccount: string, op: Op, ops: seq<Op>)
    requires db.Valid() && IsDelete(op) && Tombstoned(db, op)
    ensures Tombstoned(Run(db, superAccount, ops), op)
  {
    DeadRowsStay(db, superAccount, ops);
  }

  /**
   A deletion is for good: whatever calls follow, the row keeps its tombstone, and every later call that needs it is
   refused.
   */
  lemma DeletedForGood(db: Db, superAccount: string, op: Op, ops: seq<Op>, later: Op)
    requires db.Valid() && IsDelete(op) && NamesRow(db, op) && Do(db, superAccount, op).1 == Ok
    ensures
      var db' := Run(Do(db, superAccount, op).0, superAccount, ops);
      && Tombstoned(db', op)
      && (NeedsRowOf(op, later) && !Incomplete(later) ==>
            Do(db', superAccount, later).1 == if op.DeleteAdmin? then AccountNotFound else RecordNotFound)
  {
    var dead := Do(db, superAccount, op).0;
    DoValid(db, superAccount, op);
    DeletionTombstones(db, superAccount, op);
    TombstoneStays(dead, superAccount, op, ops);
    AnswerMeans(Run(dead, superAccount, ops), superAccount, later);
  }

  /** No menu list shows a deleted menu to anyone, whatever calls follow. */
  lemma DeletedMenuUnseen(db: Db, superAccount: string, id: nat, ops: seq<Op>, admin: nat)
    requires db.Valid() && id in db.menus.rows
    ensures !Visible(Run(Do(db, superAccount, DeleteMenu(id)).0, superAccount, ops), admin, id)
  {
    DeletedForGood(db, superAccount, DeleteMenu(id), ops, DeleteMenu(id));
  }

  /** The account of a deleted admin is never free again. */
  lemma AccountNeverReused(db: Db, superAccount: string, id: nat, operator: nat, ops: seq<Op>, later: Op)
    requires db.Valid() && AccountsUnique(db) && Do(db, superAccount, DeleteAdmin(id, operator)).1 == Ok
    requires later.CreateAdmin? && !Incomplete(later) && later.admin.account == db.admins.rows[id].account
    ensures
      var db' := Run(Do(db, superAccount, DeleteAdmin(id, operator)).0, superAccount, ops);
      Do(db', superAccount, later).1 == DBError
  {
    var op := DeleteAdmin(id, operator);
    var dead := Do(db, superAccount, op).0;
    DoValid(db, superAccount, op);
    UniqueStep(db, superAccount, op);
    AccountsStayUnique(dead, superAccount, ops);
    DeletedForGood(db, superAccount, op, ops, op);
    AdminColumnsFrame(db, superAccount, op, id);
    var db' := Run(dead, superAccount, ops);
    AccountStays(dead, superAccount, ops, id);
    assert id in db'.admins.rows && db'.admins.rows[id].isDel != 0;
    assert AccountHeld(db', later.admin.account, false);
    AnswerMeans(db', superAccount, later);
  }

  // ---------- Who is deleted by whom ----------

  /** No one deletes the own account: an admin whose deletion no one else asks for stays, whatever else is called. */
  lemma {:induction false} NoSelfDeletion(db: Db, superAccount: string, ops: seq<Op>, id: nat)
    requires db.Valid() && LiveAdmin(db, id)
    requires forall i :: 0 <= i < |ops| && ops[i].DeleteAdmin? && ops[i].id == id ==> ops[i].operator == id
    ensures LiveAdmin(Run(db, superAccount, ops), id)
  {
    if ops != [] {
      var n := |ops| - 1;
      NoSelfDeletion(db, superAccount, ops[..n], id);
      RunRefines(db, superAccount, ops[..n]);
      AdminColumnsFrame(Run(db, superAccount, ops[..n]), superAccount, ops[n], id);
      AnswerMeans(Run(db, superAccount, ops[..n]), superAccount, ops[n]);
    }
  }

  // ---------- Created permissions ----------

  /**
   A permission made by CreatePerm is closed even when it is sent open, and one sent for every method is for POST alone;
   so the call lets no one make a request that was refused before, except holders of bindings that its id already had.
   */
  lemma CreatedPermOpensNothing(db: Db, superAccount: string, id: nat, p: PermRow,
                                admin: nat, httpMethod: string, path: string)
    requires db.Valid() && Do(db, superAccount, CreatePerm(id, p)).1 == Ok
    ensures
      var db' := Do(db, superAccount, CreatePerm(id, p)).0;
      var q := db.perms.NewId(id);
      && q in db'.perms.rows && db'.perms.rows[q].isIntercept != 0
      && (RowDecides(db'.perms.rows[q], httpMethod, path) <==>
            && p.status == 0 && p.isDel == 0 && p.route == path
            && if p.httpMethod == 0 then Spells(httpMethod, "POST") else MethodDecides(p.httpMethod, httpMethod))
      && (Permitted(db', admin, httpMethod, path) <==>
            || Permitted(db, admin, httpMethod, path)
            || (RowDecides(db'.perms.rows[q], httpMethod, path) && Holds(db, admin, q)))
  {
    var db' := Do(db, superAccount, CreatePerm(id, p)).0;
    var q := db.perms.NewId(id);
    PermWrites(db, superAccount, CreatePerm(id, p), q);
    CreatePermKeepsRest(db, superAccount, id, p);
    assert METHODS[1] == "POST";
    if Permitted(db, admin, httpMethod, path) && !HasSuperRole(db, admin) {
      var k :| k in db.perms.rows && RowDecides(db.perms.rows[k], httpMethod, path)
               && (db.perms.rows[k].isIntercept == 0 || Holds(db, admin, k));
      assert db'.perms.rows[k] == db.perms.rows[k];
    }
  }

  lemma CreatePermKeepsRest(db: Db, superAccount: string, id: nat, p: PermRow)
    requires db.Valid() && Do(db, superAccount, CreatePerm(id, p)).1 == Ok
    ensures
      var db' := Do(db, superAccount, CreatePerm(id, p)).0;
      && db'.(perms := db.perms) == db && db'.perms.rows.Keys == db.perms.rows.Keys + {db.perms.NewId(id)}
      && db.perms.NewId(id) !in db.perms.rows
      && (forall k :: k in db.perms.rows ==> db'.perms.rows[k] == db.perms.rows[k])
      && forall admin: nat, k: nat :: Holds(db', admin, k) <==> Holds(db, admin, k)
  {
  }
}
