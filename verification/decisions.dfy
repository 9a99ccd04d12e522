/**
 Who may call what, read off the table columns and the request line alone. The staged queries of the middleware and the
 policy of policy.dfy are both proved against this.
 */
module Decisions {
  import opened Tables

  // ---------- Methods ----------

  /** What the method column counts from 1. */
  const METHODS: seq<string> := ["GET", "POST", "PUT", "DELETE"]

  /** `c` is the letter `u`, or its small form if `u` is a capital. */
  predicate SameLetter(c: char, u: char) {
    c == u || ('A' <= u <= 'Z' && c as int == u as int + 32)
  }

  /** `httpMethod` is `name` in any letter case. */
  predicate Spells(httpMethod: string, name: string) {
    |httpMethod| == |name| && forall i :: 0 <= i < |name| ==> SameLetter(httpMethod[i], name[i])
  }

  /** A method column of 0 decides for every method, one of 1 to 4 for the method it numbers, any other for none. */
  predicate MethodDecides(column: int, httpMethod: string) {
    column == 0 || (1 <= column <= 4 && Spells(httpMethod, METHODS[column - 1]))
  }

  lemma NamesApart(httpMethod: string, j: nat, k: nat)
    requires 1 <= j <= 4 && 1 <= k <= 4 && j != k && Spells(httpMethod, METHODS[j - 1])
    ensures !Spells(httpMethod, METHODS[k - 1])
  {
    assert |METHODS[0]| == 3 && |METHODS[1]| == 4 && |METHODS[2]| == 3 && |METHODS[3]| == 6;
    assert METHODS[0][0] == 'G' && METHODS[2][0] == 'P';
    assert SameLetter(httpMethod[0], METHODS[j - 1][0]);
  }

  // ---------- Rows ----------

  /** The permission row is enabled, not deleted, and for this route and method. */
  predicate RowDecides(p: PermRow, httpMethod: string, path: string) {
    p.status == 0 && p.isDel == 0 && p.route == path && MethodDecides(p.httpMethod, httpMethod)
  }

  /** An enabled row that is not deleted joins the two ids. */
  ghost predicate Joined(t: JoinTable, l: nat, r: nat) {
    exists id :: id in t.rows && t.rows[id].left == l && t.rows[id].right == r
                 && t.rows[id].status == 0 && t.rows[id].isDel == 0
  }

  lemma RelJoined(t: JoinTable, l: nat, r: nat)
    ensures (l, r) in Rel(t) <==> Joined(t, l, r)
  {
    if Joined(t, l, r) {
      var id :| id in t.rows && t.rows[id].left == l && t.rows[id].right == r
                && t.rows[id].status == 0 && t.rows[id].isDel == 0;
      InRel(t, id);
    }
  }

  lemma RelsJoined(db: Db)
    ensures forall l: nat, r: nat :: (l, r) in Rel(db.adminRole) <==> Joined(db.adminRole, l, r)
    ensures forall l: nat, r: nat :: (l, r) in Rel(db.roleMenu) <==> Joined(db.roleMenu, l, r)
    ensures forall l: nat, r: nat :: (l, r) in Rel(db.menuPerm) <==> Joined(db.menuPerm, l, r)
  {
    forall l: nat, r: nat ensures (l, r) in Rel(db.adminRole) <==> Joined(db.adminRole, l, r) {
      RelJoined(db.adminRole, l, r);
    }
    forall l: nat, r: nat ensures (l, r) in Rel(db.roleMenu) <==> Joined(db.roleMenu, l, r) {
      RelJoined(db.roleMenu, l, r);
    }
    forall l: nat, r: nat ensures (l, r) in Rel(db.menuPerm) <==> Joined(db.menuPerm, l, r) {
      RelJoined(db.menuPerm, l, r);
    }
  }

  predicate SuperRole(db: Db, role: nat) {
    && role in db.roles.rows && db.roles.rows[role].typ == 1
    && db.roles.rows[role].status == 0 && db.roles.rows[role].isDel == 0
  }

  ghost predicate HasSuperRole(db: Db, admin: nat) {
    exists r: nat :: Joined(db.adminRole, admin, r) && SuperRole(db, r)
  }

  /** `admin` has a role with a menu with the permission. */
  ghost predicate Holds(db: Db, admin: nat, perm: nat) {
    exists r: nat, m: nat ::
      Joined(db.adminRole, admin, r) && Joined(db.roleMenu, r, m) && Joined(db.menuPerm, m, perm)
  }

  ghost predicate Registered(db: Db, httpMethod: string, path: string) {
    exists q :: q in db.perms.rows && RowDecides(db.perms.rows[q], httpMethod, path)
  }

  /** Super admins may call anything, others what some row for it has open or what they hold. */
  ghost predicate Permitted(db: Db, admin: nat, httpMethod: string, path: string) {
    || HasSuperRole(db, admin)
    || exists q :: q in db.perms.rows && RowDecides(db.perms.rows[q], httpMethod, path)
                   && (db.perms.rows[q].isIntercept == 0 || Holds(db, admin, q))
  }

  // ---------- Menus ----------

  /** An enabled menu that is not deleted, of one of the admin's roles unless the admin is a super admin. */
  ghost predicate Visible(db: Db, admin: nat, m: nat) {
    && m in db.menus.rows && db.menus.rows[m].status == 0 && db.menus.rows[m].isDel == 0
    && (HasSuperRole(db, admin) || exists r: nat :: Joined(db.adminRole, admin, r) && Joined(db.roleMenu, r, m))
  }

  /** The smaller sort column, and for equal ones the smaller id. */
  predicate ShownBefore(db: Db, m: nat, n: nat) {
    && m in db.menus.rows && n in db.menus.rows
    && (db.menus.rows[m].sort < db.menus.rows[n].sort || (db.menus.rows[m].sort == db.menus.rows[n].sort && m < n))
  }

  // ---------- One method at a time ----------

  /**
   A grant is for one method: where every permission of a route that is open or held by an admin has method `k`, the
   admin is refused each of the other three, in whatever letter case.
   */
  lemma GrantIsForOneMethod(db: Db, admin: nat, path: string, k: nat, j: nat, httpMethod: string)
    requires 1 <= k <= 4 && 1 <= j <= 4 && j != k && Spells(httpMethod, METHODS[j - 1]) && !HasSuperRole(db, admin)
    requires forall q |
               q in db.perms.rows && db.perms.rows[q].route == path
               && (db.perms.rows[q].isIntercept == 0 || Holds(db, admin, q)) :: db.perms.rows[q].httpMethod == k
    ensures !Permitted(db, admin, httpMethod, path)
  {
    NamesApart(httpMethod, j, k);
  }
}
