/** The built-in super account: seeded once, unique for ever, and never deleted, if the configuration names it. */
module SuperAccount {
  import opened Wrappers
  import opened Tables
  import opened RBAC
  import opened Policies

  /** The unique index on account: no two rows share one, tombstones included. */
  ghost predicate AccountsUnique(db: Db) {
    forall i, j | i in db.admins.rows && j in db.admins.rows ::
      db.admins.rows[i].account == db.admins.rows[j].account ==> i == j
  }

  /** Exactly one row has the account, and it is live. */
  ghost predicate Survives(db: Db, account: string) {
    exists id :: HoldsAlone(db, account, id)
  }

  ghost predicate HoldsAlone(db: Db, account: string, id: nat) {
    && LiveAdmin(db, id) && db.admins.rows[id].account == account
    && forall j :: j in db.admins.rows && db.admins.rows[j].account == account ==> j == id
  }

  lemma UniqueStep(db: Db, superAccount: string, op: Op)
    requires db.Valid() && AccountsUnique(db)
    ensures AccountsUnique(Do(db, superAccount, op).0)
  {
  }

  /** Account names stay unique across tombstones in every run. */
  lemma {:induction false} AccountsStayUnique(db: Db, superAccount: string, ops: seq<Op>)
    requires db.Valid() && AccountsUnique(db)
    ensures AccountsUnique(Run(db, superAccount, ops))
  {
    if ops != [] {
      AccountsStayUnique(db, superAccount, ops[..|ops| - 1]);
      RunRefines(db, superAccount, ops[..|ops| - 1]);
      UniqueStep(Run(db, superAccount, ops[..|ops| - 1]), superAccount, ops[|ops| - 1]);
    }
  }

  lemma SurvivesStep(db: Db, superAccount: string, op: Op, id: nat)
    requires db.Valid() && superAccount != "" && HoldsAlone(db, superAccount, id)
    ensures HoldsAlone(Do(db, superAccount, op).0, superAccount, id)
  {
    assert AccountLive(db, superAccount);
  }

  lemma {:induction false} SurvivesRun(db: Db, superAccount: string, ops: seq<Op>, id: nat)
    requires db.Valid() && superAccount != "" && HoldsAlone(db, superAccount, id)
    ensures HoldsAlone(Run(db, superAccount, ops), superAccount, id)
  {
    if ops != [] {
      SurvivesRun(db, superAccount, ops[..|ops| - 1], id);
      RunRefines(db, superAccount, ops[..|ops| - 1]);
      SurvivesStep(Run(db, superAccount, ops[..|ops| - 1]), superAccount, ops[|ops| - 1], id);
    }
  }

  // ---------- Seeding ----------

  lemma FirstIsOnly(ids: set<nat>, id: nat)
    requires id in ids && forall j :: j in ids ==> j == id
    ensures First(ids) == Some(id)
  {
    assert ids == {id};
  }

  /** A start-up that succeeds leaves the account live and alone, and bound to a live role of type 1. */
  lemma SeedEstablishes(db: Db, configured: string, name: string, hash: string) returns (id: nat, role: nat)
    requires db.Valid() && AccountsUnique(db) && SeedSuper(db, configured, name, hash).Some?
    ensures
      var db' := SeedSuper(db, configured, name, hash).value;
      && db'.Valid() && AccountsUnique(db')
      && HoldsAlone(db', SeededAccount(configured), id)
      && role in SuperRoleIds(db') && Bound(db'.adminRole, id, role)
  {
    var account := SeededAccount(configured);
    var r, a := First(SuperRoleIds(db)), First(AdminIds(db, account));
    role := if r.Some? then r.value else db.roles.next;
    id := if a.Some? then a.value else db.admins.next;
    RelBind(db.adminRole, id, role);
    var db' := SeedSuper(db, configured, name, hash).value;
    if a.None? {
      assert !AccountTaken(db, account);
    }
    if !Bound(db.adminRole, id, role) {
      assert db'.adminRole.rows[db.adminRole.next] == Join(id, role, 0, 0);
    }
  }

  /** Seeding twice is seeding once. */
  lemma SeedIdempotent(db: Db, configured: string, name: string, hash: string)
    requires db.Valid() && AccountsUnique(db) && SeedSuper(db, configured, name, hash).Some?
    ensures
      var db' := SeedSuper(db, configured, name, hash).value;
      SeedSuper(db', configured, name, hash) == Some(db')
  {
    var id, role := SeedEstablishes(db, configured, name, hash);
    var db' := SeedSuper(db, configured, name, hash).value;
    var account := SeededAccount(configured);
    FirstIsOnly(AdminIds(db', account), id);
    SuperRoleStays(db, configured, name, hash);
    var r := First(SuperRoleIds(db));
    if r.None? {
      FirstIsOnly(SuperRoleIds(db'), db.roles.next);
    }
    BindingStays(db, configured, name, hash);
  }

  lemma SuperRoleStays(db: Db, configured: string, name: string, hash: string)
    requires db.Valid() && SeedSuper(db, configured, name, hash).Some?
    ensures
      var db' := SeedSuper(db, configured, name, hash).value;
      SuperRoleIds(db') == if SuperRoleIds(db) == {} then {db.roles.next} else SuperRoleIds(db)
  {
  }

  lemma BindingStays(db: Db, configured: string, name: string, hash: string)
    requires db.Valid() && SeedSuper(db, configured, name, hash).Some?
    ensures
      var db' := SeedSuper(db, configured, name, hash).value;
      var r, a := First(SuperRoleIds(db)), First(AdminIds(db, SeededAccount(configured)));
      Bound(db'.adminRole, if a.Some? then a.value else db.admins.next, if r.Some? then r.value else db.roles.next)
  {
    var db' := SeedSuper(db, configured, name, hash).value;
    var r, a := First(SuperRoleIds(db)), First(AdminIds(db, SeededAccount(configured)));
    var id, role := if a.Some? then a.value else db.admins.next, if r.Some? then r.value else db.roles.next;
    if !Bound(db.adminRole, id, role) {
      assert db'.adminRole.rows[db.adminRole.next] == Join(id, role, 0, 0);
    }
  }

  /**
   A start-up adds a role exactly when no undeleted role has type 1, enabled or not: an enabled one under the configured
   name. It leaves the admin bound to the undeleted type-1 role with the smallest id.
   */
  lemma SeedRoleIff(db: Db, configured: string, name: string, hash: string) returns (id: nat, role: nat)
    requires db.Valid() && AccountsUnique(db) && SeedSuper(db, configured, name, hash).Some?
    ensures
      var t, t' := db.roles, SeedSuper(db, configured, name, hash).value.roles;
      var kept := exists r :: r in t.rows && t.rows[r].typ == 1 && t.rows[r].isDel == 0;
      t' == if kept then t else Table(t.rows[t.next := RoleRow(name, 1, 0, 0, 0)], t.next + 1)
    ensures
      var db' := SeedSuper(db, configured, name, hash).value;
      && HoldsAlone(db', SeededAccount(configured), id) && Bound(db'.adminRole, id, role)
      && role in db'.roles.rows && db'.roles.rows[role].typ == 1 && db'.roles.rows[role].isDel == 0
      && forall r :: r in db'.roles.rows && db'.roles.rows[r].typ == 1 && db'.roles.rows[r].isDel == 0 ==> role <= r
  {
    SeedHolds(db, configured, name, hash);
    BindingStays(db, configured, name, hash);
    id, role := ChosenAdmin(db, configured), ChosenRole(db);
    var ids := SuperRoleIds(db);
    assert First(ids).None? ==> forall r :: r in db.roles.rows ==> r !in ids;
    assert forall r :: r in db.roles.rows && db.roles.rows[r].typ == 1 && db.roles.rows[r].isDel == 0 ==> r in ids;
  }

  /** No start-up binds the built-in admin to a role twice. */
  lemma SeedBindsOnce(db: Db, configured: string, name: string, hash: string)
    requires db.Valid() && PairsUnique(db.adminRole) && SeedSuper(db, configured, name, hash).Some?
    ensures PairsUnique(SeedSuper(db, configured, name, hash).value.adminRole)
  {
  }

  /** Every sequence of mutator calls keeps exactly one row with the account, and keeps it live. */
  ghost predicate AlwaysSurvives(db: Db, superAccount: string, account: string) {
    forall ops :: Survives(Run(db, superAccount, ops), account)
  }

  lemma NamedSurvives(db: Db, superAccount: string, id: nat)
    requires db.Valid() && superAccount != "" && HoldsAlone(db, superAccount, id)
    ensures AlwaysSurvives(db, superAccount, superAccount)
  {
    forall ops ensures Survives(Run(db, superAccount, ops), superAccount) {
      SurvivesRun(db, superAccount, ops, id);
      assert HoldsAlone(Run(db, superAccount, ops), superAccount, id);
    }
  }

  lemma UnnamedCanBeDeleted(db: Db, account: string, id: nat)
    requires HoldsAlone(db, account, id) && id != 0
    ensures !AlwaysSurvives(db, "", account)
  {
    var ops := [DeleteAdmin(id, id + 1)];
    assert ops[..0] == [] && Run(db, "", ops[..0]) == db;
    var db' := Run(db, "", ops);
    assert db' == KillAdmin(db, id);
    assert !LiveAdmin(db', id) && db'.admins.rows[id].account == account;
    assert !Survives(db', account);
  }

  /**
   After a successful start-up, every sequence of mutator calls keeps exactly one row with the seeded account and
   keeps it live, if and only if the configuration names the account: with an empty name the start-up falls back
   to its default account, but the service that guards deletions still has the empty name.
   */
  lemma SurvivalIff(db: Db, configured: string, name: string, hash: string)
    requires db.Valid() && AccountsUnique(db) && SeedSuper(db, configured, name, hash).Some?
    ensures
      AlwaysSurvives(SeedSuper(db, configured, name, hash).value, configured, SeededAccount(configured))
      <==> configured != ""
  {
    var id, role := SeedEstablishes(db, configured, name, hash);
    var db' := SeedSuper(db, configured, name, hash).value;
    if configured != "" {
      NamedSurvives(db', configured, id);
    } else {
      UnnamedCanBeDeleted(db', SeededAccount(configured), id);
    }
  }

  /** The super role that a start-up uses: the first live one of type 1, or a new one. */
  function ChosenRole(db: Db): nat {
    var r := First(SuperRoleIds(db));
    if r.Some? then r.value else db.roles.next
  }

  function ChosenAdmin(db: Db, configured: string): nat {
    var a := First(AdminIds(db, SeededAccount(configured)));
    if a.Some? then a.value else db.admins.next
  }

  predicate RoleEnabled(db: Db, role: nat) {
    role in db.roles.rows ==> db.roles.rows[role].status == 0
  }

  lemma SeedEdit(db: Db, configured: string, name: string, hash: string)
    requires db.Valid() && SeedSuper(db, configured, name, hash).Some?
    ensures
      var db' := SeedSuper(db, configured, name, hash).value;
      var id, role := ChosenAdmin(db, configured), ChosenRole(db);
      && Rel(db'.adminRole) == (if Bound(db.adminRole, id, role) then Rel(db.adminRole)
                                else Rel(db.adminRole) + {(id, role)})
      && Supers(db'.roles) == (if RoleEnabled(db, role) then Supers(db.roles) + {role} else Supers(db.roles))
  {
    var id, role := ChosenAdmin(db, configured), ChosenRole(db);
    RelBind(db.adminRole, id, role);
    if First(SuperRoleIds(db)).None? {
      SupersPut(db.roles, db.roles.next, RoleRow(name, 1, 0, 0, 0));
    }
  }

  /**
   The seeded admin passes every route check if and only if it was a super admin before, or the role the start-up uses
   is enabled and its binding to that role is new or was enabled: the start-up repairs neither a disabled role nor a
   disabled binding.
   */
  lemma SeededAdminIsSuperIff(db: Db, configured: string, name: string, hash: string)
    requires db.Valid() && AccountsUnique(db) && SeedSuper(db, configured, name, hash).Some?
    ensures
      var db' := SeedSuper(db, configured, name, hash).value;
      var id, role := ChosenAdmin(db, configured), ChosenRole(db);
      && HoldsAlone(db', SeededAccount(configured), id)
      && (IsSuperAdmin(Abs(db'), id) <==>
            || IsSuperAdmin(Abs(db), id)
            || (RoleEnabled(db, role) && (!Bound(db.adminRole, id, role) || (id, role) in Rel(db.adminRole))))
  {
    var db' := SeedSuper(db, configured, name, hash).value;
    var id, role := ChosenAdmin(db, configured), ChosenRole(db);
    SeedHolds(db, configured, name, hash);
    SeedEdit(db, configured, name, hash);
    assert Abs(db').adminRole == Rel(db'.adminRole) && Abs(db').supers == Supers(db'.roles);
    assert forall r: nat :: (id, r) in Rel(db'.adminRole) <==>
             (id, r) in Rel(db.adminRole) || (r == role && !Bound(db.adminRole, id, role));
    if IsSuperAdmin(Abs(db), id) {
      var r: nat :| (id, r) in Rel(db.adminRole) && r in Supers(db.roles);
      assert (id, r) in Rel(db'.adminRole) && r in Supers(db'.roles);
    }
    if IsSuperAdmin(Abs(db'), id) {
      var r: nat :| (id, r) in Rel(db'.adminRole) && r in Supers(db'.roles);
      if r in Supers(db.roles) && (id, r) in Rel(db.adminRole) {
        assert IsSuperAdmin(Abs(db), id);
      }
    }
  }

  lemma SeedHolds(db: Db, configured: string, name: string, hash: string)
    requires db.Valid() && AccountsUnique(db) && SeedSuper(db, configured, name, hash).Some?
    ensures
      var db' := SeedSuper(db, configured, name, hash).value;
      HoldsAlone(db', SeededAccount(configured), ChosenAdmin(db, configured))
  {
    var id, _ := SeedEstablishes(db, configured, name, hash);
    var db' := SeedSuper(db, configured, name, hash).value;
    var chosen := ChosenAdmin(db, configured);
    assert chosen in db'.admins.rows && db'.admins.rows[chosen].account == SeededAccount(configured);
  }
}
