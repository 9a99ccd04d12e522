/** What a run of the seeder does to the decisions of the request middleware. */
module SeederDecisions {
  import opened Wrappers
  import opened Tables
  import opened Seeder
  import opened SeederConvergence
  import opened SeederFixpoint
  import opened Policies

  // ---------- Permission rows after a run ----------

  lemma {:induction false} PermFoldExisting(t: Table<PermRow>, pss: seq<PermSeed>, id: nat)
    requires t.Valid() && MethodsOk(pss) && id in t.rows
    ensures id in PermFold(t, pss).rows && PermFold(t, pss).rows[id] == Rewritten(t, pss, id)
    decreases |pss|
  {
    if pss != [] {
      var u := UpsertPermRow(t, pss[0]).0;
      UpsertPermRowEffect(t, pss[0], t.rows[id].route, t.rows[id].httpMethod);
      PermFoldExisting(u, pss[1..], id);
    }
  }

  /** A new row is for a seeded method and for a key that had no row before. */
  lemma {:induction false} PermFoldNew(t: Table<PermRow>, pss: seq<PermSeed>, id: nat)
    requires t.Valid() && MethodsOk(pss) && id !in t.rows && id in PermFold(t, pss).rows
    ensures
      var r := PermFold(t, pss).rows[id];
      1 <= r.httpMethod <= 4 && FirstPerm(t, r.route, r.httpMethod).None?
    decreases |pss|
  {
    if pss != [] {
      var u := UpsertPermRow(t, pss[0]).0;
      var r := PermFold(t, pss).rows[id];
      UpsertPermRowEffect(t, pss[0], r.route, r.httpMethod);
      if id in u.rows {
        PermFoldExisting(u, pss[1..], id);
      } else {
        PermFoldNew(u, pss[1..], id);
      }
    }
  }

  // ---------- Open routes ----------

  predicate OpenPerm(r: PermRow) {
    LivePerm(r) && r.isIntercept == 0
  }

  /** The run closes permission `q`: it was open, and the last seed for its route and method is not. */
  predicate Closes(t: Table<PermRow>, pss: seq<PermSeed>, q: nat) {
    q in t.rows && OpenPerm(t.rows[q]) && !OpenPerm(Rewritten(t, pss, q))
  }

  /** Another row keeps the route and method of `q` open. */
  ghost predicate StaysOpen(t: Table<PermRow>, pss: seq<PermSeed>, q: nat)
    requires q in t.rows
  {
    exists p :: KeepsOpen(t, pss, q, p)
  }

  predicate KeepsOpen(t: Table<PermRow>, pss: seq<PermSeed>, q: nat, p: nat)
    requires q in t.rows
  {
    && p in t.rows && OpenPerm(t.rows[p]) && !Closes(t, pss, p) && t.rows[p].route == t.rows[q].route
    && (t.rows[p].httpMethod == 0 || t.rows[p].httpMethod == t.rows[q].httpMethod)
  }

  ghost predicate OpensStay(t: Table<PermRow>, pss: seq<PermSeed>) {
    forall q :: Closes(t, pss, q) ==> StaysOpen(t, pss, q)
  }

  lemma SeededMethod(pss: seq<PermSeed>, route: string, m: int)
    requires MethodsOk(pss) && LastSeed(pss, route, m).Some?
    ensures 1 <= m <= 4
  {
    var i :| 0 <= i < |pss| && pss[i] == LastSeed(pss, route, m).value;
  }

  lemma ClosedMethod(t: Table<PermRow>, pss: seq<PermSeed>, q: nat)
    requires MethodsOk(pss) && Closes(t, pss, q)
    ensures 1 <= t.rows[q].httpMethod <= 4 && FirstPerm(t, t.rows[q].route, t.rows[q].httpMethod) == Some(q)
  {
    SeededMethod(pss, t.rows[q].route, t.rows[q].httpMethod);
  }

  /** The guard of a permission that was there before the run. */
  lemma GuardAfter(db: Db, tree: seq<MenuSeed>, q: nat)
    requires Ok(db) && MethodsOk(PermSeeds(tree)) && q in Guards(db.perms)
    ensures
      var g, g' := Guards(db.perms), Guards(Seed(db, tree).perms);
      && q in g' && g'[q] == GuardOf(Rewritten(db.perms, PermSeeds(tree), q))
      && g'[q].route == g[q].route && g'[q].httpMethod == g[q].httpMethod
  {
    ForestPerms(db, 0, tree);
    PermFoldExisting(db.perms, PermSeeds(tree), q);
  }

  // ---------- Decisions ----------

  /** Whatever was allowed to anyone is still allowed after the run. */
  ghost predicate DecisionsSurvive(db: Db, tree: seq<MenuSeed>) {
    forall admin: nat, httpMethod: int, route: string :: DecisionSurvives(db, tree, admin, httpMethod, route)
  }

  ghost predicate DecisionSurvives(db: Db, tree: seq<MenuSeed>, admin: nat, httpMethod: int, route: string) {
    Allows(Abs(db), admin, httpMethod, route) ==> Allows(Abs(Seed(db, tree)), admin, httpMethod, route)
  }

  lemma OneSurvives(db: Db, tree: seq<MenuSeed>, admin: nat, httpMethod: int, route: string)
    requires Ok(db) && MethodsOk(PermSeeds(tree)) && OpensStay(db.perms, PermSeeds(tree))
    ensures DecisionSurvives(db, tree, admin, httpMethod, route)
  {
    var p, p' := Abs(db), Abs(Seed(db, tree));
    var t, pss := db.perms, PermSeeds(tree);
    SeedingNeverShrinksGrants(db, tree, admin, 0);
    if Allows(p, admin, httpMethod, route) && !IsSuperAdmin(p, admin) {
      var q: nat :| q in p.perms && Matches(p.perms[q], httpMethod, route)
                    && (!p.perms[q].intercept || Granted(p, admin, q));
      GuardAfter(db, tree, q);
      SeedingNeverShrinksGrants(db, tree, admin, q);
      if Closes(t, pss, q) {
        ClosedMethod(t, pss, q);
        var k :| KeepsOpen(t, pss, q, k);
        GuardAfter(db, tree, k);
        assert Matches(p'.perms[k], httpMethod, route) && !p'.perms[k].intercept;
      } else {
        assert Matches(p'.perms[q], httpMethod, route) && (!p'.perms[q].intercept || Granted(p', admin, q));
      }
    }
  }

  lemma {:induction false} SomeoneUnbound(r: set<(nat, nat)>) returns (admin: nat)
    ensures forall p :: p in r ==> p.0 < admin
    decreases |r|
  {
    if r == {} {
      admin := 0;
    } else {
      var p :| p in r;
      admin := SomeoneUnbound(r - {p});
      if admin <= p.0 {
        admin := p.0 + 1;
      }
    }
  }

  /** An admin without roles loses the route of a permission that is closed and not kept open by another. */
  lemma OneIsLost(db: Db, tree: seq<MenuSeed>, q: nat)
    requires Ok(db) && MethodsOk(PermSeeds(tree))
    requires Closes(db.perms, PermSeeds(tree), q) && !StaysOpen(db.perms, PermSeeds(tree), q)
    ensures !DecisionsSurvive(db, tree)
  {
    var p, p' := Abs(db), Abs(Seed(db, tree));
    var t, pss := db.perms, PermSeeds(tree);
    var r := t.rows[q];
    var admin := SomeoneUnbound(p.adminRole);
    ClosedMethod(t, pss, q);
    assert Matches(p.perms[q], r.httpMethod, r.route) && !p.perms[q].intercept;
    UpsertForestWider(db, 0, tree);
    ForestPerms(db, 0, tree);
    assert p'.adminRole == p.adminRole;
    if Allows(p', admin, r.httpMethod, r.route) {
      var k: nat :| k in p'.perms && Matches(p'.perms[k], r.httpMethod, r.route)
                    && (!p'.perms[k].intercept || Granted(p', admin, k));
      if k in t.rows {
        PermFoldExisting(t, pss, k);
        KeptRow(t, pss, q, k);
      } else {
        PermFoldNew(t, pss, k);
      }
    }
    assert !DecisionSurvives(db, tree, admin, r.httpMethod, r.route);
  }

  /** A row open after the run on the route of a closed permission was open before: the run opens no row there. */
  lemma KeptRow(t: Table<PermRow>, pss: seq<PermSeed>, q: nat, k: nat)
    requires MethodsOk(pss) && Closes(t, pss, q) && k in t.rows && OpenPerm(Rewritten(t, pss, k))
    requires t.rows[k].route == t.rows[q].route
    requires t.rows[k].httpMethod == 0 || t.rows[k].httpMethod == t.rows[q].httpMethod
    ensures KeepsOpen(t, pss, q, k)
  {
    ClosedMethod(t, pss, q);
    if LastSeed(pss, t.rows[k].route, t.rows[k].httpMethod).Some? {
      SeededMethod(pss, t.rows[k].route, t.rows[k].httpMethod);
    }
  }

  /**
   A run takes a decision from someone if and only if it closes an open permission whose route and method no other open
   permission keeps: permissions held never shrink, but a route that an administrator opened by hand is closed again
   when the tree has it closed.
   */
  lemma DecisionsSurviveIff(db: Db, tree: seq<MenuSeed>)
    requires Ok(db) && MethodsOk(PermSeeds(tree))
    ensures DecisionsSurvive(db, tree) <==> OpensStay(db.perms, PermSeeds(tree))
  {
    if OpensStay(db.perms, PermSeeds(tree)) {
      forall admin: nat, httpMethod: int, route: string ensures DecisionSurvives(db, tree, admin, httpMethod, route) {
        OneSurvives(db, tree, admin, httpMethod, route);
      }
    } else {
      var q :| Closes(db.perms, PermSeeds(tree), q) && !StaysOpen(db.perms, PermSeeds(tree), q);
      OneIsLost(db, tree, q);
    }
  }
}
