/**
 The authorization queries of internal/service/auth_service.go and the RBAC middleware that stages them. Each is
 proved against the policy the tables stand for.
 */
module Authorizers {
  import opened Tables
  import opened Policies
  import opened Decisions

  datatype Verdict = Allow(super: bool, permIDs: seq<nat>) | NotRegistered | NoPermission

  function UpperChar(c: char): char {
    if 'a' <= c <= 'z' then c - 'a' + 'A' else c
  }

  function ToUpper(s: string): (u: string)
    ensures |u| == |s|
  {
    seq(|s|, i requires 0 <= i < |s| => UpperChar(s[i]))
  }

  function MethodCode(httpMethod: string): int {
    var m := ToUpper(httpMethod);
    if m == "GET" then 1 else if m == "POST" then 2 else if m == "PUT" then 3 else if m == "DELETE" then 4 else 0
  }

  /** The code is right: a row decides for the code of a request exactly when it decides for its method. */
  lemma CodeDecides(p: PermRow, httpMethod: string, path: string)
    ensures LivePerm(p) && Matches(GuardOf(p), MethodCode(httpMethod), path) <==> RowDecides(p, httpMethod, path)
  {
    UpperSpells(httpMethod, METHODS[0]);
    UpperSpells(httpMethod, METHODS[1]);
    UpperSpells(httpMethod, METHODS[2]);
    UpperSpells(httpMethod, METHODS[3]);
    assert |METHODS[0]| == 3 && |METHODS[1]| == 4 && |METHODS[2]| == 3 && |METHODS[3]| == 6;
    assert METHODS[0][0] == 'G' && METHODS[2][0] == 'P';
  }

  lemma UpperSpells(httpMethod: string, name: string)
    requires forall i :: 0 <= i < |name| ==> 'A' <= name[i] <= 'Z'
    ensures Spells(httpMethod, name) <==> ToUpper(httpMethod) == name
  {
    var u := ToUpper(httpMethod);
    if Spells(httpMethod, name) {
      assert forall i :: 0 <= i < |name| ==> u[i] == name[i];
    }
    if u == name {
      assert forall i :: 0 <= i < |name| ==> SameLetter(httpMethod[i], u[i]);
    }
  }

  lemma SuperByRows(db: Db, admin: nat)
    ensures IsSuperAdmin(Abs(db), admin) <==> HasSuperRole(db, admin)
  {
    RelsJoined(db);
    assert forall r: nat :: r in Supers(db.roles) <==> SuperRole(db, r);
  }

  lemma GrantedByRows(db: Db, admin: nat, perm: nat)
    ensures Granted(Abs(db), admin, perm) <==> Holds(db, admin, perm)
  {
    RelsJoined(db);
  }

  /** The policy that the tables stand for decides as the columns do. */
  lemma PolicyReadsRows(db: Db, admin: nat, httpMethod: string, path: string)
    ensures Allows(Abs(db), admin, MethodCode(httpMethod), path) <==> Permitted(db, admin, httpMethod, path)
  {
    SuperByRows(db, admin);
    forall q: nat ensures Granted(Abs(db), admin, q) <==> Holds(db, admin, q) {
      GrantedByRows(db, admin, q);
    }
    GuardsByRows(db, httpMethod, path);
  }

  lemma GuardsByRows(db: Db, httpMethod: string, path: string)
    ensures
      var g, t := Guards(db.perms), db.perms;
      forall q :: q in g && Matches(g[q], MethodCode(httpMethod), path)
                  <==> q in t.rows && RowDecides(t.rows[q], httpMethod, path)
  {
    var g, t := Guards(db.perms), db.perms;
    forall q ensures q in g && Matches(g[q], MethodCode(httpMethod), path)
                     <==> q in t.rows && RowDecides(t.rows[q], httpMethod, path) {
      if q in t.rows {
        CodeDecides(t.rows[q], httpMethod, path);
      }
    }
  }

  /** A query's result list: the ids of a set, each once, in whatever order the database returns them. */
  method Pluck(ids: set<nat>) returns (list: seq<nat>)
    ensures forall x :: x in list <==> x in ids
  {
    list := [];
    var rest := ids;
    while rest != {}
      invariant rest <= ids
      invariant forall x :: x in list <==> x in ids && x !in rest
    {
      var x :| x in rest;
      rest := rest - {x};
      list := list + [x];
    }
  }

  /** The menus reachable from some role of a list. */
  ghost predicate MenuOfRoles(db: Db, roleIDs: seq<nat>, m: nat) {
    exists r :: r in roleIDs && (r, m) in Rel(db.roleMenu)
  }

  ghost predicate PermOfRoles(db: Db, roleIDs: seq<nat>, q: nat) {
    exists m: nat :: MenuOfRoles(db, roleIDs, m) && (m, q) in Rel(db.menuPerm)
  }

  predicate LiveMenu(m: MenuRow) {
    m.status == 0 && m.isDel == 0
  }

  // ---------- ORDER BY sort ASC, id ASC ----------

  predicate Before(t: Table<MenuRow>, a: nat, b: nat)
    requires a in t.rows && b in t.rows
  {
    t.rows[a].sort < t.rows[b].sort || (t.rows[a].sort == t.rows[b].sort && a < b)
  }

  predicate Ordered(t: Table<MenuRow>, list: seq<nat>) {
    && (forall i :: 0 <= i < |list| ==> list[i] in t.rows)
    && (forall i, j :: 0 <= i < j < |list| ==> Before(t, list[i], list[j]))
  }

  function Insert(t: Table<MenuRow>, x: nat, list: seq<nat>): (r: seq<nat>)
    requires Ordered(t, list) && x in t.rows && x !in list
    ensures Ordered(t, r) && forall y :: y in r <==> y == x || y in list
  {
    if list == [] || Before(t, x, list[0]) then [x] + list
    else
      assert list == [list[0]] + list[1..];
      var rest := Insert(t, x, list[1..]);
      assert forall i :: 0 <= i < |rest| ==> Before(t, list[0], rest[i]) by {
        forall i | 0 <= i < |rest| ensures Before(t, list[0], rest[i]) {
          assert rest[i] in rest;
          assert rest[i] != x ==> rest[i] in list[1..];
        }
      }
      [list[0]] + rest
  }

  /** The rows of a set in order; sorting by insertion stands in for the database. */
  method OrderBySort(t: Table<MenuRow>, ids: set<nat>) returns (list: seq<nat>)
    requires forall id :: id in ids ==> id in t.rows
    ensures Ordered(t, list) && forall x :: x in list <==> x in ids
  {
    list := [];
    var rest := ids;
    while rest != {}
      invariant rest <= ids && Ordered(t, list)
      invariant forall x :: x in list <==> x in ids && x !in rest
    {
      var x :| x in rest;
      rest := rest - {x};
      list := Insert(t, x, list);
    }
  }

  class Authorizer {
    var db: Db

    constructor (db: Db)
      ensures this.db == db
    {
      this.db := db;
    }

    method UserRoleIDs(admin: nat) returns (ids: seq<nat>)
      ensures forall r :: r in ids <==> (admin, r) in Rel(db.adminRole)
      ensures forall r: nat :: r in ids <==> Joined(db.adminRole, admin, r)
    {
      RelsJoined(db);
      var t := db.adminRole;
      var found := set id | id in t.rows && LiveJoin(t.rows[id]) && t.rows[id].left == admin :: t.rows[id].right;
      ids := Pluck(found);
    }

    method IsSuper(roleIDs: seq<nat>) returns (super: bool)
      ensures super <==> exists r :: r in roleIDs && r in Supers(db.roles)
      ensures super <==> exists r :: r in roleIDs && SuperRole(db, r)
    {
      assert forall r: nat :: r in Supers(db.roles) <==> SuperRole(db, r);
      if |roleIDs| == 0 {
        return false;
      }
      var t := db.roles;
      var hits := set id | id in t.rows && IsSuperRow(t.rows[id]) && id in roleIDs;
      assert forall r :: r in hits <==> r in roleIDs && r in Supers(db.roles);
      super := |hits| > 0;
      if super {
        var hit :| hit in hits;
      } else {
        assert hits == {};
      }
    }

    method MenuIDsOfRoles(roleIDs: seq<nat>) returns (menuIDs: seq<nat>)
      ensures forall m: nat :: m in menuIDs <==> MenuOfRoles(db, roleIDs, m)
    {
      var t := db.roleMenu;
      var found := set id | id in t.rows && LiveJoin(t.rows[id]) && t.rows[id].left in roleIDs :: t.rows[id].right;
      menuIDs := Pluck(found);
    }

    method PermIDsOfRoles(roleIDs: seq<nat>) returns (permIDs: seq<nat>)
      ensures forall q: nat :: q in permIDs <==> PermOfRoles(db, roleIDs, q)
    {
      if |roleIDs| == 0 {
        return [];
      }
      var menuIDs := MenuIDsOfRoles(roleIDs);
      if |menuIDs| == 0 {
        return [];
      }
      var t := db.menuPerm;
      var found := set id | id in t.rows && LiveJoin(t.rows[id]) && t.rows[id].left in menuIDs :: t.rows[id].right;
      permIDs := Pluck(found);
    }

    /** Denies a route no live permission names, lets an open permission through, and else asks for a grant. */
    method CheckRoute(httpMethod: string, path: string, permIDs: seq<nat>) returns (v: Verdict)
      ensures
        var g := Guards(db.perms);
        var code := MethodCode(httpMethod);
        && (v.NotRegistered? <==> forall q :: q in g ==> !Matches(g[q], code, path))
        && (v.Allow? <==> exists q :: q in g && Matches(g[q], code, path) && (!g[q].intercept || q in permIDs))
      ensures v.NotRegistered? <==> !Registered(db, httpMethod, path)
      ensures v.Allow? <==>
        exists q :: q in db.perms.rows && RowDecides(db.perms.rows[q], httpMethod, path)
                    && (db.perms.rows[q].isIntercept == 0 || q in permIDs)
    {
      GuardsByRows(db, httpMethod, path);
      ghost var g := Guards(db.perms);
      var code := MethodCode(httpMethod);
      var t := db.perms;
      var perms := Pluck(set id | id in t.rows && LivePerm(t.rows[id]) && Matches(GuardOf(t.rows[id]), code, path));
      assert forall q :: q in perms <==> q in g && Matches(g[q], code, path);
      if |perms| == 0 {
        return NotRegistered;
      }
      assert perms[0] in perms;
      var permSet: set<nat> := {};
      for i := 0 to |permIDs|
        invariant permSet == set q | q in permIDs[..i]
      {
        permSet := permSet + {permIDs[i]};
        assert permIDs[..i + 1] == permIDs[..i] + [permIDs[i]];
      }
      assert permIDs[..|permIDs|] == permIDs;
      for i := 0 to |perms|
        invariant forall k :: 0 <= k < i ==> g[perms[k]].intercept && perms[k] !in permIDs
      {
        assert perms[i] in perms;
        if t.rows[perms[i]].isIntercept == 0 {
          return Allow(false, permIDs);
        }
        if perms[i] in permSet {
          return Allow(false, permIDs);
        }
      }
      return NoPermission;
    }

    /** The middleware: roles, super test, permissions, route. Its answer is the policy's. */
    method Authorize(admin: nat, httpMethod: string, path: string) returns (v: Verdict)
      ensures v.Allow? <==> Allows(Abs(db), admin, MethodCode(httpMethod), path)
      ensures v.Allow? && v.super <==> IsSuperAdmin(Abs(db), admin)
      ensures
        var g := Guards(db.perms);
        v.NotRegistered? <==>
        !IsSuperAdmin(Abs(db), admin) && forall q :: q in g ==> !Matches(g[q], MethodCode(httpMethod), path)
      ensures v.Allow? && !v.super ==> forall q: nat :: q in v.permIDs <==> Granted(Abs(db), admin, q)
      ensures v.Allow? <==> Permitted(db, admin, httpMethod, path)
      ensures v.Allow? && v.super <==> HasSuperRole(db, admin)
      ensures v.NotRegistered? <==> !HasSuperRole(db, admin) && !Registered(db, httpMethod, path)
      ensures v.Allow? && !v.super ==> forall q: nat :: q in v.permIDs <==> Holds(db, admin, q)
    {
      PolicyReadsRows(db, admin, httpMethod, path);
      SuperByRows(db, admin);
      var roleIDs := UserRoleIDs(admin);
      var super := IsSuper(roleIDs);
      assert super <==> IsSuperAdmin(Abs(db), admin);
      if super {
        return Allow(true, []);
      }
      var permIDs := PermIDsOfRoles(roleIDs);
      GrantsOfRoles(db, admin, roleIDs);
      forall q: nat ensures Granted(Abs(db), admin, q) <==> Holds(db, admin, q) {
        GrantedByRows(db, admin, q);
      }
      v := CheckRoute(httpMethod, path, permIDs);
      if v.Allow? {
        v := Allow(false, permIDs);
      }
    }

    /**
     What the signed-in admin may see: everything for a super admin, else the live menus of the admin's roles, each
     once, by sort and then by id.
     */
    method MenusForAdmin(admin: nat) returns (menus: seq<nat>)
      ensures Ordered(db.menus, menus)
      ensures forall m: nat :: m in menus <==>
        && m in db.menus.rows && LiveMenu(db.menus.rows[m])
        && (IsSuperAdmin(Abs(db), admin)
            || exists r: nat :: (admin, r) in Abs(db).adminRole && (r, m) in Abs(db).roleMenu)
      ensures forall m: nat :: m in menus <==> Visible(db, admin, m)
      ensures forall i, j :: 0 <= i < j < |menus| ==> ShownBefore(db, menus[i], menus[j])
    {
      RelsJoined(db);
      SuperByRows(db, admin);
      var roleIDs := UserRoleIDs(admin);
      var super := IsSuper(roleIDs);
      assert super <==> IsSuperAdmin(Abs(db), admin);
      var t := db.menus;
      var live := set id | id in t.rows && LiveMenu(t.rows[id]);
      if !super {
        if |roleIDs| == 0 {
          return [];
        }
        var menuIDs := MenuIDsOfRoles(roleIDs);
        if |menuIDs| == 0 {
          forall m: nat ensures !MenuOfRoles(db, roleIDs, m) {
            assert m !in menuIDs;
          }
          return [];
        }
        live := set id | id in live && id in menuIDs;
      }
      menus := OrderBySort(t, live);
    }
  }

  /** The two-step join over role_menu and menu_perm is the policy's grant. */
  lemma GrantsOfRoles(db: Db, admin: nat, roleIDs: seq<nat>)
    requires forall r :: r in roleIDs <==> (admin, r) in Rel(db.adminRole)
    ensures forall q: nat :: PermOfRoles(db, roleIDs, q) <==> Granted(Abs(db), admin, q)
  {
    forall q: nat ensures PermOfRoles(db, roleIDs, q) <==> Granted(Abs(db), admin, q) {
      if PermOfRoles(db, roleIDs, q) {
        var m: nat :| MenuOfRoles(db, roleIDs, m) && (m, q) in Rel(db.menuPerm);
        var r :| r in roleIDs && (r, m) in Rel(db.roleMenu);
        assert (admin, r) in Abs(db).adminRole && (r, m) in Abs(db).roleMenu && (m, q) in Abs(db).menuPerm;
      }
      if Granted(Abs(db), admin, q) {
        var r: nat, m: nat :| (admin, r) in Abs(db).adminRole && (r, m) in Abs(db).roleMenu
                              && (m, q) in Abs(db).menuPerm;
        assert r in roleIDs && MenuOfRoles(db, roleIDs, m);
      }
    }
  }
}
