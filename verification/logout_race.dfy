/**
 Why the session window is stated for the signature check and not for the handler: a logout can come in between. The
 run is built for every configuration under which logins succeed.
 */
module LogoutRace {
  import opened Wrappers
  import opened Redis
  import opened Session
  import opened Interleaving
  import opened RunBuilding
  import Decimal
  import RenewalRace
  import SessionWindow

  lemma ReachableGrows(cfg: Config, s: Sys, s': Sys)
    requires Reachable(cfg, s, s')
    ensures s.log <= s'.log
  {
    var acts :| Exec(cfg, s, acts) == s';
    LogGrows(cfg, s, acts);
  }

  /** A request with a token arrives and gets to the comparison. */
  lemma ToComparison(cfg: Config, s: Sys, tid: nat, r: Request, c: Claims, env: Env) returns (s': Sys)
    requires r.bearer == Signed(c) && tid !in s.threads && c.jti in s.issued && s.issued[c.jti] == c
    requires r.fields.timestamp != "" && r.fields.nonce != "" && r.sig != "" && s.store.now < c.exp
    requires Decimal.Atoi(r.fields.timestamp) == Some(s.store.now) && !s.store.Alive(Nonce(r.fields.nonce))
    ensures Reachable(cfg, s, s') && s.log <= s'.log && s'.issued == s.issued
    ensures s'.store == Noted(s.store, r.fields.nonce) && s'.threads == s.threads[tid := SignSecretRead(r, c)]
  {
    var s1 := Apply(cfg, s, Spawn(tid, r));
    OneAction(cfg, s, Spawn(tid, r));
    SecretReadLeads(cfg, s.store, r, c, env);
    s' := WalkTo(cfg, s1, tid, env, Noted(s.store, r.fields.nonce), SignSecretRead(r, c));
    ReachableTransitive(cfg, s, s1, s');
    ReachableGrows(cfg, s, s');
  }

  /** A request with a token arrives and passes the comparison. */
  lemma PassSign(cfg: Config, s: Sys, tid: nat, r: Request, c: Claims, env: Env) returns (s': Sys)
    requires r.bearer == Signed(c) && (r.route == Protected || r.route == Logout) && tid !in s.threads
    requires c.jti in s.issued && s.issued[c.jti] == c && s.store.now < c.exp
    requires Fits(cfg, r, s.store.now, s.store.GetStr(SignSecret(c.admin))) && !s.store.Alive(Nonce(r.fields.nonce))
    ensures Reachable(cfg, s, s') && s.log < s'.log
    ensures s'.store == Noted(s.store, r.fields.nonce) && s'.threads == s.threads[tid := AuthToken(r)]
    ensures s'.issued == s.issued
    ensures s'.log[|s'.log| - 1].tid == tid && s'.log[|s'.log| - 1].event.SignPassed?
    ensures s'.log[|s'.log| - 1].event.r == r && s'.log[|s'.log| - 1].event.claims == c
  {
    var s1 := ToComparison(cfg, s, tid, r, c, env);
    var secret := s1.store.GetStr(SignSecret(c.admin));
    assert secret == s.store.GetStr(SignSecret(c.admin));
    SecretFits(cfg, s1.store, r, c, env);
    s' := OneCommand(cfg, s1, tid, env, Effect(s1.store, AuthToken(r), SignPassed(r, c, secret)));
    ReachableTransitive(cfg, s, s1, s');
  }

  lemma PassActive(cfg: Config, s: Sys, tid: nat, r: Request, c: Claims, env: Env) returns (s': Sys)
    requires tid in s.threads && s.threads[tid] == AuthToken(r) && r.bearer == Signed(c)
    requires s.store.now < c.exp && s.store.Alive(Token(c.jti))
    ensures Reachable(cfg, s, s') && s.log <= s'.log && s'.store == s.store && s'.issued == s.issued
    ensures s'.threads == s.threads[tid := AfterActive(cfg, r, c)]
  {
    Here(cfg, s.store, AfterActive(cfg, r, c), env);
    ActiveLeads(cfg, s.store, r, c, env, s.store, AfterActive(cfg, r, c));
    s' := WalkTo(cfg, s, tid, env, s.store, AfterActive(cfg, r, c));
    ReachableGrows(cfg, s, s');
  }

  /** The store after the refresh that follows the whitelist check. */
  function Refreshed(cfg: Config, st: Store, c: Claims): Store {
    if cfg.refresh then st.Expire(Token(c.jti), cfg.ttl) else st
  }

  /** On to the handler, for a token with at least half its life left; whether its entry still lives does not matter. */
  lemma PassHalfLife(cfg: Config, s: Sys, tid: nat, r: Request, c: Claims, env: Env) returns (s': Sys)
    requires tid in s.threads && s.threads[tid] == AfterActive(cfg, r, c)
    requires 2 * (c.exp - s.store.now) >= cfg.ttl
    ensures Reachable(cfg, s, s') && s.log <= s'.log && s'.issued == s.issued
    ensures s'.store == Refreshed(cfg, s.store, c) && s'.threads == s.threads[tid := Handler(r, c, None)]
  {
    var st, h := Refreshed(cfg, s.store, c), Handler(r, c, None);
    Here(cfg, st, h, env);
    if cfg.refresh {
      First(cfg, st, AuthHalfLife(r, c), env, st, h, st, h);
      First(cfg, s.store, AuthRefresh(r, c), env, st, AuthHalfLife(r, c), st, h);
    }
    s' := WalkTo(cfg, s, tid, env, st, h);
    ReachableGrows(cfg, s, s');
  }

  /** A logout at its handler ends the session. */
  lemma EndSession(cfg: Config, s: Sys, tid: nat, q: Request, c: Claims, env: Env) returns (s': Sys)
    requires tid in s.threads && s.threads[tid] == Handler(q, c, None) && q.route == Logout
    ensures Reachable(cfg, s, s') && s.log < s'.log && s'.issued == s.issued
    ensures s'.store == s.store.Del(SignSecret(c.admin)).Del(Token(c.jti))
    ensures s'.threads == s.threads[tid := Done(LoggedOut(c, None))]
    ensures exists m :: |s.log| <= m < |s'.log| && s'.log[m].event == SecretCleared(c.admin)
  {
    var a := Run(tid, env);
    var s1 := Apply(cfg, s, a);
    OneAction(cfg, s, a);
    var s2 := Apply(cfg, s1, a);
    OneAction(cfg, s1, a);
    s' := Apply(cfg, s2, a);
    OneAction(cfg, s2, a);
    ReachableTransitive(cfg, s, s1, s2);
    ReachableTransitive(cfg, s, s2, s');
    assert s'.log[|s.log| + 1].event == SecretCleared(c.admin);
    assert s'.threads == s.threads[tid := Done(LoggedOut(c, None))];
  }

  /** Position `k` is a handler that runs for the request checked at `i`, and at `m` a logout has ended the session. */
  predicate HandledAfterLogout(log: seq<Logged>, i: nat, m: nat, k: nat) {
    && i < m < k < |log| && log[i].event.SignPassed? && log[i].tid == log[k].tid
    && log[k].event == Handled(log[i].event.r, log[i].event.claims)
    && log[m].event == SecretCleared(log[i].event.claims.admin)
  }

  /** One request with the token of the session arrives and passes the whitelist check. */
  lemma GetInside(cfg: Config, s: Sys, tid: nat, nonce: string, route: Route, env: Env) returns (s': Sys, i: nat)
    requires Workable(cfg) && s.issued == map[FIRST_JTI := FirstClaims(cfg)] && s.store.now == 0
    requires s.store.GetStr(SignSecret(1)) == FIRST_SECRET && s.store.Alive(Token(FIRST_JTI))
    requires tid !in s.threads && nonce != "" && !s.store.Alive(Nonce(nonce)) && (route == Protected || route == Logout)
    ensures
      var c := FirstClaims(cfg);
      var r := SignedRequest(cfg, FIRST_SECRET, 0, nonce, Signed(c), route);
      && Reachable(cfg, s, s') && s.log <= s'.log && s'.store == Noted(s.store, nonce) && s'.issued == s.issued
      && s'.threads == s.threads[tid := AfterActive(cfg, r, c)]
      && i < |s'.log| && s'.log[i].tid == tid && s'.log[i].event.SignPassed?
      && s'.log[i].event.r == r && s'.log[i].event.claims == c
  {
    var c := FirstClaims(cfg);
    var r := SignedRequest(cfg, FIRST_SECRET, 0, nonce, Signed(c), route);
    SignedFits(cfg, FIRST_SECRET, 0, nonce, Signed(c), route);
    var s1 := PassSign(cfg, s, tid, r, c, env);
    i := |s1.log| - 1;
    s' := PassActive(cfg, s1, tid, r, c, env);
    ReachableTransitive(cfg, s, s1, s');
  }

  lemma NotedKeepsSession(st: Store, nonce: string)
    ensures Noted(st, nonce).GetStr(SignSecret(1)) == st.GetStr(SignSecret(1))
    ensures Noted(st, nonce).Alive(Token(FIRST_JTI)) == st.Alive(Token(FIRST_JTI))
    ensures forall n | n != nonce :: Noted(st, nonce).Alive(Nonce(n)) == st.Alive(Nonce(n))
  {
  }

  /** Up to the whitelist check of one request and of a logout with the same token. */
  lemma BothInside(cfg: Config, s: Sys, r: Request, q: Request, env: Env) returns (s': Sys, i: nat)
    requires Workable(cfg) && JustLoggedIn(cfg, s)
    requires r == SignedRequest(cfg, FIRST_SECRET, 0, Ticket(1), Signed(FirstClaims(cfg)), Protected)
    requires q == SignedRequest(cfg, FIRST_SECRET, 0, Ticket(2), Signed(FirstClaims(cfg)), Logout)
    ensures Reachable(cfg, s, s') && s'.store.now == 0
    ensures 1 in s'.threads && s'.threads[1] == AfterActive(cfg, r, FirstClaims(cfg))
    ensures 2 in s'.threads && s'.threads[2] == AfterActive(cfg, q, FirstClaims(cfg))
    ensures i < |s'.log| && s'.log[i].tid == 1 && s'.log[i].event.SignPassed?
    ensures s'.log[i].event.r == r && s'.log[i].event.claims == FirstClaims(cfg)
  {
    assert |Ticket(1)| == 2 && |Ticket(2)| == 3 && |FIRST_NONCE| == 1;
    var s1;
    s1, i := GetInside(cfg, s, 1, Ticket(1), Protected, env);
    NotedKeepsSession(s.store, Ticket(1));
    var j;
    s', j := GetInside(cfg, s1, 2, Ticket(2), Logout, env);
    ReachableTransitive(cfg, s, s1, s');
  }

  /** From there: the logout ends the session, and then the other handler runs. */
  lemma LogoutFirst(cfg: Config, s: Sys, r: Request, q: Request, c: Claims, env: Env) returns (s': Sys, m: nat)
    requires 2 * (c.exp - s.store.now) >= cfg.ttl && q.route == Logout
    requires 1 in s.threads && s.threads[1] == AfterActive(cfg, r, c)
    requires 2 in s.threads && s.threads[2] == AfterActive(cfg, q, c)
    ensures Reachable(cfg, s, s') && |s.log| <= m < |s'.log| && s.log <= s'.log
    ensures s'.log[m].event == SecretCleared(c.admin)
    ensures 1 in s'.threads && s'.threads[1] == Handler(r, c, None)
  {
    var s2 := PassHalfLife(cfg, s, 2, q, c, env);
    var s3 := EndSession(cfg, s2, 2, q, c, env);
    ReachableTransitive(cfg, s, s2, s3);
    m :| |s2.log| <= m < |s3.log| && s3.log[m].event == SecretCleared(c.admin);
    s' := PassHalfLife(cfg, s3, 1, r, c, env);
    ReachableTransitive(cfg, s, s3, s');
  }

  /**
   Under every configuration in which logins succeed, some interleaving lets a protected handler run after a logout has
   ended the session whose secret signed the request. So the window at the handler, without a word about interruption,
   is false, and the logout has to be looked for before the signature check.
   */
  lemma LogoutInBetween(cfg: Config) returns (acts: seq<Action>, i: nat, m: nat, k: nat)
    requires Workable(cfg)
    ensures HandledAfterLogout(Exec(cfg, Initial(0), acts).log, i, m, k)
  {
    var c, env := FirstClaims(cfg), Env(NotFound, "u", "");
    var r := SignedRequest(cfg, FIRST_SECRET, 0, Ticket(1), Signed(c), Protected);
    var q := SignedRequest(cfg, FIRST_SECRET, 0, Ticket(2), Signed(c), Logout);
    var s0 := StartSession(cfg);
    var s1, s2;
    s1, i := BothInside(cfg, s0, r, q, env);
    ReachableTransitive(cfg, Initial(0), s0, s1);
    s2, m := LogoutFirst(cfg, s1, r, q, c, env);
    ReachableTransitive(cfg, Initial(0), s1, s2);
    k := |s2.log|;
    OneAction(cfg, s2, Run(1, env));
    var s3 := Apply(cfg, s2, Run(1, env));
    ReachableTransitive(cfg, Initial(0), s2, s3);
    assert s3.log[k] == Logged(1, s2.store.now, Handled(r, c));
    acts :| Exec(cfg, Initial(0), acts) == s3;
  }

  // ---------- Under which configurations ----------

  /** Some interleaving runs a handler after a logout has ended its session. */
  ghost predicate LateHandler(cfg: Config) {
    exists now: int, acts, i: nat, m: nat, k: nat :: HandledAfterLogout(Exec(cfg, Initial(now), acts).log, i, m, k)
  }

  ghost predicate NoPass(log: seq<Logged>) {
    forall i :: 0 <= i < |log| ==> !log[i].event.SignPassed?
  }

  /** Without a positive lifetime or a static secret, no request with a token passes the signature check. */
  lemma {:induction false} NothingPasses(cfg: Config, now: int, acts: seq<Action>)
    requires cfg.ttl <= 0 || cfg.staticSecret == ""
    ensures NoPass(Exec(cfg, Initial(now), acts).log)
  {
    if acts != [] {
      var n := |acts| - 1;
      var s, a := Exec(cfg, Initial(now), acts[..n]), acts[n];
      NothingPasses(cfg, now, acts[..n]);
      if Enabled(cfg, s, a) && a.Run? {
        SessionWindow.Always(cfg, now, acts[..n]);
        assert SessionWindow.ThreadOk(cfg, s, a.tid, s.threads[a.tid]);
        if cfg.staticSecret == "" {
          RenewalRace.NothingIssued(cfg, now, acts[..n]);
        }
        assert !s.threads[a.tid].SignSecretRead?;
      }
    }
  }

  /**
   Exactly under which configurations the window at the handler can be missed: those under which a login succeeds and
   its token lives at all.
   */
  lemma LateHandlerIff(cfg: Config)
    requires MacAnswers(cfg) && cfg.ttl % 1000 == 0 && Decimal.Int64(cfg.ttl)
    ensures LateHandler(cfg) <==> cfg.staticSecret != "" && cfg.ttl > 0
  {
    if cfg.staticSecret != "" && cfg.ttl > 0 {
      var acts, i, m, k := LogoutInBetween(cfg);
      assert HandledAfterLogout(Exec(cfg, Initial(0), acts).log, i, m, k);
    } else {
      forall now: int, acts, i: nat, m: nat, k: nat
        ensures !HandledAfterLogout(Exec(cfg, Initial(now), acts).log, i, m, k)
      {
        NothingPasses(cfg, now, acts);
      }
    }
  }
}
