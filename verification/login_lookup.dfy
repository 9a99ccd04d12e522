/** The admin row a login finds, and what the mutators make of it: the lookup half of `AuthService.Login`. */
module LoginLookup {
  import opened Wrappers
  import opened Tables
  import opened RBAC
  import opened Policies
  import opened RowHistory
  import opened SentColumns
  import opened SuperAccount
  import Session

  /** `CheckPassword(plain, stored)`. */
  type Verifier = (string, string) -> bool

  method LookUp(db: Db, check: Verifier, account: string, password: string) returns (r: Session.Lookup)
    ensures r == LookupOf(db, check, account, password)
  {
    var admin := First(AdminIds(db, account));
    if admin.None? {
      return Session.NotFound;
    }
    var row := db.admins.rows[admin.value];
    if row.status == 1 {
      return Session.Disabled;
    }
    if row.isLock == 1 {
      return Session.Locked;
    }
    if !check(password, row.password) {
      return Session.WrongPassword;
    }
    return Session.Found(admin.value);
  }

  function LookupOf(db: Db, check: Verifier, account: string, password: string): Session.Lookup {
    match First(AdminIds(db, account))
    case None => Session.NotFound
    case Some(id) =>
      var row := db.admins.rows[id];
      if row.status == 1 then Session.Disabled
      else if row.isLock == 1 then Session.Locked
      else if check(password, row.password) then Session.Found(id) else Session.WrongPassword
  }

  /** With unique accounts the lookup finds the one row that has the account, if it is live. */
  lemma FirstIsTheRow(db: Db, account: string, id: nat)
    requires AccountsUnique(db) && id in db.admins.rows && db.admins.rows[id].account == account
    ensures First(AdminIds(db, account)) == if db.admins.rows[id].isDel == 0 then Some(id) else None
  {
    if db.admins.rows[id].isDel == 0 {
      FirstIsOnly(AdminIds(db, account), id);
    } else {
      assert AdminIds(db, account) == {};
    }
  }

  /** Status, lock, tombstone and password of an admin as the calls of a run sent them last. */
  datatype Sent = Sent(status: int, isLock: int, isDel: int, password: string)

  ghost predicate LastOfAll(db: Db, superAccount: string, ops: seq<Op>, id: nat, last: Sent) {
    && LastSent(db, superAccount, ops, StatusSent(id), StatusOf(id)(db)) == Some(last.status)
    && LastSent(db, superAccount, ops, LockSent(id), LockOf(id)(db)) == Some(last.isLock)
    && LastSent(db, superAccount, ops, AdminDeletedSent(id), AdminDeleted(id)(db)) == Some(last.isDel)
    && LastPassword(db, superAccount, ops, id) == Some(last.password)
  }

  /**
   After every sequence of mutator calls, for every admin that was there or was created on the way: which of its five
   answers a login with the admin's account finds, by the status, lock and password that the calls sent last.
   */
  lemma LookUpAnswers(db: Db, superAccount: string, ops: seq<Op>, check: Verifier, id: nat, password: string)
    returns (last: Sent)
    requires db.Valid() && AccountsUnique(db) && id in Run(db, superAccount, ops).admins.rows
    ensures LastOfAll(db, superAccount, ops, id, last)
    ensures
      var db' := Run(db, superAccount, ops);
      var lookup := LookupOf(db', check, db'.admins.rows[id].account, password);
      && (last.isDel != 0 ==> lookup == Session.NotFound)
      && (last.isDel == 0 && last.status == 1 ==> lookup == Session.Disabled)
      && (last.isDel == 0 && last.status != 1 && last.isLock == 1 ==> lookup == Session.Locked)
      && (last.isDel == 0 && last.status != 1 && last.isLock != 1 ==>
            lookup == if check(password, last.password) then Session.Found(id) else Session.WrongPassword)
  {
    var row := Run(db, superAccount, ops).admins.rows[id];
    AdminHoldsWhatWasSent(db, superAccount, ops, id);
    AccountsStayUnique(db, superAccount, ops);
    PasswordIsTheLastOne(db, superAccount, ops, id);
    FirstIsTheRow(Run(db, superAccount, ops), row.account, id);
    last := Sent(row.status, row.isLock, row.isDel, row.password);
  }

  /**
   So a password opens an account exactly when the admin is live, the last status sent is not 1, the last lock sent is
   not 1, and the password matches the one set last.
   */
  lemma OpensIff(db: Db, superAccount: string, ops: seq<Op>, check: Verifier, id: nat, password: string)
    returns (last: Sent)
    requires db.Valid() && AccountsUnique(db) && id in db.admins.rows
    ensures LastOfAll(db, superAccount, ops, id, last)
    ensures
      var db' := Run(db, superAccount, ops);
      && id in db'.admins.rows && (LiveAdmin(db', id) <==> last.isDel == 0)
      && (LookupOf(db', check, db.admins.rows[id].account, password) == Session.Found(id) <==>
            LiveAdmin(db', id) && last.status != 1 && last.isLock != 1 && check(password, last.password))
  {
    AccountStays(db, superAccount, ops, id);
    last := LookUpAnswers(db, superAccount, ops, check, id, password);
    AdminHoldsWhatWasSent(db, superAccount, ops, id);
  }

  /**
   A deleted admin never logs in again: whatever calls follow, every login with that account finds nothing, since a
   tombstone keeps its account and no new row may have it.
   */
  lemma DeletedNeverLogsIn(db: Db, superAccount: string, id: nat, operator: nat, ops: seq<Op>,
                           check: Verifier, password: string)
    requires db.Valid() && AccountsUnique(db) && Do(db, superAccount, DeleteAdmin(id, operator)).1 == Ok
    ensures
      var dead := Do(db, superAccount, DeleteAdmin(id, operator)).0;
      LookupOf(Run(dead, superAccount, ops), check, db.admins.rows[id].account, password) == Session.NotFound
  {
    var op := DeleteAdmin(id, operator);
    var dead := Do(db, superAccount, op).0;
    DoValid(db, superAccount, op);
    UniqueStep(db, superAccount, op);
    AdminColumnsFrame(db, superAccount, op, id);
    AccountStays(dead, superAccount, ops, id);
    AccountsStayUnique(dead, superAccount, ops);
    DeadRowsStay(dead, superAccount, ops);
    FirstIsTheRow(Run(dead, superAccount, ops), db.admins.rows[id].account, id);
  }

  /** A new admin can log in at once with the password given, if its row is neither disabled nor locked. */
  lemma CreatedLogsIn(db: Db, superAccount: string, id: nat, a: AdminRow, password: string, roles: seq<nat>,
                      check: Verifier)
    requires db.Valid() && AccountsUnique(db) && check(password, password)
    requires Do(db, superAccount, CreateAdmin(id, a, password, roles)).1 == Ok
    ensures
      var db' := Do(db, superAccount, CreateAdmin(id, a, password, roles)).0;
      LookupOf(db', check, a.account, password) == Session.Found(db.admins.NewId(id)) <==>
      (a.isDel == 0 && a.status != 1 && a.isLock != 1)
  {
    var op := CreateAdmin(id, a, password, roles);
    UniqueStep(db, superAccount, op);
    FirstIsTheRow(Do(db, superAccount, op).0, a.account, db.admins.NewId(id));
  }

  // ---------- The built-in admin ----------

  /**
   The account that the configuration names is safe from the status call and not from the update: the one is refused and
   changes nothing, the other can disable or lock it, and every login then finds it so.
   */
  lemma BuiltInCanBeBarred(db: Db, superAccount: string, id: nat, a: AdminRow, status: int,
                           check: Verifier, password: string)
    requires db.Valid() && superAccount != "" && HoldsAlone(db, superAccount, id) && id != 0
    ensures Do(db, superAccount, UpdateAdminStatus(id, status)) == (db, AccessDenied)
    ensures
      var (db', code) := Do(db, superAccount, UpdateAdmin(id, a, None));
      var lookup := LookupOf(db', check, superAccount, password);
      && code == Ok && (a.status == 1 ==> lookup == Session.Disabled)
      && (a.status != 1 && a.isLock == 1 ==> lookup == Session.Locked)
  {
    var db' := Do(db, superAccount, UpdateAdmin(id, a, None)).0;
    FirstIsOnly(AdminIds(db', superAccount), id);
  }

  /**
   A start-up on tables without the account creates its admin enabled and unlocked, under the configured name and with
   the configured password: the next login with any password that matches it finds that admin. An empty account name
   stands for "admin".
   */
  lemma SeededLogsIn(db: Db, configured: string, name: string, hash: string, check: Verifier, password: string)
    requires db.Valid() && AccountsUnique(db)
    requires !AccountTaken(db, if configured == "" then "admin" else configured)
    ensures SeedSuper(db, configured, name, hash).Some?
    ensures
      var db' := SeedSuper(db, configured, name, hash).value;
      var account := if configured == "" then "admin" else configured;
      && LookupOf(db', check, account, password)
         == (if check(password, hash) then Session.Found(db.admins.next) else Session.WrongPassword)
      && NameOf(db.admins.next)(db') == Some(name)
  {
    var account := if configured == "" then "admin" else configured;
    assert AdminIds(db, account) == {};
    var id, _ := SeedEstablishes(db, configured, name, hash);
    FirstIsTheRow(SeedSuper(db, configured, name, hash).value, account, db.admins.next);
  }

  /** A start-up fails exactly when a tombstone has the account and no live admin does. */
  lemma SeedFailsIff(db: Db, configured: string, name: string, hash: string)
    ensures
      var account := if configured == "" then "admin" else configured;
      SeedSuper(db, configured, name, hash).None? <==>
        && (exists id :: id in db.admins.rows && db.admins.rows[id].account == account)
        && (forall id :: id in db.admins.rows && db.admins.rows[id].account == account ==>
              db.admins.rows[id].isDel != 0)
  {
    var account := if configured == "" then "admin" else configured;
    var ids := AdminIds(db, account);
    assert First(ids).None? <==> forall id :: id in db.admins.rows ==> id !in ids;
  }

  /** A start-up that finds the account changes no admin row: it resets no password and lifts no lock. */
  lemma SeedKeepsAdmins(db: Db, configured: string, name: string, hash: string)
    requires db.Valid() && SeedSuper(db, configured, name, hash).Some?
    ensures
      var db' := SeedSuper(db, configured, name, hash).value;
      var account := if configured == "" then "admin" else configured;
      && (AccountLive(db, account) ==> db'.admins == db.admins)
      && forall id :: id in db.admins.rows ==> id in db'.admins.rows && db'.admins.rows[id] == db.admins.rows[id]
  {
    var account := if configured == "" then "admin" else configured;
    if AccountLive(db, account) {
      var id :| id in db.admins.rows && db.admins.rows[id].isDel == 0 && db.admins.rows[id].account == account;
      assert id in AdminIds(db, account);
    }
  }
}
