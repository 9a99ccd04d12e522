/**
 Why the one-live-token property needs whole requests: two interleaved requests with the same token can both reissue
 it, and both new tokens stay live. This happens under every configuration in which tokens are renewed at all.
 */
module RenewalRace {
  import opened Wrappers
  import opened Redis
  import opened Session
  import opened Interleaving
  import opened RunBuilding
  import Decimal

  /** The token a request has minted in place of the one it came with, and that one. */
  function Renewal(l: Local): Option<(Claims, Claims)> {
    match l
    case ReissueSet(_, c, m) => Some((c, m))
    case ReissueDel(_, c, m) => Some((c, m))
    case Handler(_, c, Some(m)) => Some((c, m))
    case LogoutSecret(c, Some(m)) => Some((c, m))
    case LogoutToken(c, Some(m)) => Some((c, m))
    case Done(Served(c, Some(m))) => Some((c, m))
    case Done(LoggedOut(c, Some(m))) => Some((c, m))
    case _ => None
  }

  /** Two requests have renewed one token, and both successors are live. */
  ghost predicate TwoSuccessors(s: Sys, t1: nat, t2: nat) {
    && t1 in s.threads && t2 in s.threads
    && Renewal(s.threads[t1]).Some? && Renewal(s.threads[t2]).Some?
    && var (c1, m1) := Renewal(s.threads[t1]).value;
       var (c2, m2) := Renewal(s.threads[t2]).value;
       c1 == c2 && m1.jti != m2.jti && s.store.Alive(Token(m1.jti)) && s.store.Alive(Token(m2.jti))
  }

  // ---------- The race ----------

  lemma BothMint(cfg: Config, s: Sys, r1: Request, r2: Request, c: Claims, e1: Env, e2: Env) returns (s': Sys)
    requires 1 in s.threads && s.threads[1] == AuthHalfLife(r1, c)
    requires 2 in s.threads && s.threads[2] == AuthHalfLife(r2, c)
    requires 0 < c.exp - s.store.now && 2 * (c.exp - s.store.now) < cfg.ttl
    requires e1.jti !in s.issued && e2.jti !in s.issued && e1.jti != e2.jti
    ensures Reachable(cfg, s, s') && s'.store == s.store && 1 in s'.threads && 2 in s'.threads
    ensures s'.threads[1] == ReissueSet(r1, c, Generate(cfg, s.store.now, e1.jti, c.admin, c.account))
    ensures s'.threads[2] == ReissueSet(r2, c, Generate(cfg, s.store.now, e2.jti, c.admin, c.account))
  {
    OneAction(cfg, s, Run(1, e1));
    var s1 := Apply(cfg, s, Run(1, e1));
    OneAction(cfg, s1, Run(2, e2));
    s' := Apply(cfg, s1, Run(2, e2));
    ReachableTransitive(cfg, s, s1, s');
  }

  /** The store after the reissues of two requests that came with the token `c`. */
  lemma BothLive(cfg: Config, st: Store, c: Claims, m1: Claims, m2: Claims)
    requires cfg.ttl > 0 && m1.jti != m2.jti && m1.jti != c.jti && m2.jti != c.jti
    ensures
      var st1 := st.Set(Token(m1.jti), Num(m1.admin), cfg.ttl).Del(Token(c.jti));
      var st2 := st1.Set(Token(m2.jti), Num(m2.admin), cfg.ttl).Del(Token(c.jti));
      st2.Alive(Token(m1.jti)) && st2.Alive(Token(m2.jti))
  {
  }

  lemma FinishLeads(cfg: Config, st: Store, r: Request, c: Claims, m: Claims, env: Env)
    requires c.jti != ""
    ensures Leads(cfg, st, ReissueSet(r, c, m), env,
                  st.Set(Token(m.jti), Num(m.admin), cfg.ttl).Del(Token(c.jti)), Handler(r, c, Some(m)))
  {
    var st1 := st.Set(Token(m.jti), Num(m.admin), cfg.ttl);
    var st2, l := st1.Del(Token(c.jti)), Handler(r, c, Some(m));
    Here(cfg, st2, l, env);
    First(cfg, st1, ReissueDel(r, c, m), env, st2, l, st2, l);
    First(cfg, st, ReissueSet(r, c, m), env, st1, ReissueDel(r, c, m), st2, l);
  }

  /** One of the requests finishes its reissue. */
  lemma Finish(cfg: Config, s: Sys, tid: nat, r: Request, c: Claims, m: Claims, env: Env) returns (s': Sys)
    requires tid in s.threads && s.threads[tid] == ReissueSet(r, c, m) && c.jti != ""
    ensures Reachable(cfg, s, s') && s'.store == s.store.Set(Token(m.jti), Num(m.admin), cfg.ttl).Del(Token(c.jti))
    ensures s'.threads == s.threads[tid := Handler(r, c, Some(m))]
  {
    FinishLeads(cfg, s.store, r, c, m, env);
    var st := s.store.Set(Token(m.jti), Num(m.admin), cfg.ttl).Del(Token(c.jti));
    s' := WalkTo(cfg, s, tid, env, st, Handler(r, c, Some(m)));
  }

  lemma BothFinish(cfg: Config, s: Sys, r1: Request, r2: Request, c: Claims, m1: Claims, m2: Claims, env: Env)
    returns (s': Sys)
    requires 1 in s.threads && s.threads[1] == ReissueSet(r1, c, m1)
    requires 2 in s.threads && s.threads[2] == ReissueSet(r2, c, m2)
    requires cfg.ttl > 0 && c.jti != "" && m1.jti != m2.jti && m1.jti != c.jti && m2.jti != c.jti
    ensures Reachable(cfg, s, s') && TwoSuccessors(s', 1, 2)
  {
    var s1 := Finish(cfg, s, 1, r1, c, m1, env);
    s' := Finish(cfg, s1, 2, r2, c, m2, env);
    ReachableTransitive(cfg, s, s1, s');
    BothLive(cfg, s.store, c, m1, m2);
  }

  /** A request arrives and gets to the half-life check. */
  lemma Arrive(cfg: Config, s: Sys, tid: nat, r: Request, c: Claims, env: Env) returns (s': Sys)
    requires cfg.refresh && cfg.ttl > 0 && s.store.now < c.exp
    requires r.bearer == Signed(c) && r.route == Protected
    requires Fits(cfg, r, s.store.now, s.store.GetStr(SignSecret(c.admin)))
    requires tid !in s.threads && c.jti in s.issued && s.issued[c.jti] == c
    requires !s.store.Alive(Nonce(r.fields.nonce)) && s.store.Alive(Token(c.jti))
    ensures Reachable(cfg, s, s')
    ensures s'.store == Noted(s.store, r.fields.nonce).Expire(Token(c.jti), cfg.ttl)
    ensures s'.issued == s.issued && s'.threads == s.threads[tid := AuthHalfLife(r, c)]
  {
    OneAction(cfg, s, Spawn(tid, r));
    var s1 := Apply(cfg, s, Spawn(tid, r));
    HalfLifeLeads(cfg, Noted(s.store, r.fields.nonce), r, c, env);
    var st := Noted(s.store, r.fields.nonce).Expire(Token(c.jti), cfg.ttl);
    SignLeads(cfg, s.store, r, c, env, st, AuthHalfLife(r, c));
    s' := WalkTo(cfg, s1, tid, env, st, AuthHalfLife(r, c));
    ReachableTransitive(cfg, s, s1, s');
    assert s1.threads[tid := AuthHalfLife(r, c)] == s.threads[tid := AuthHalfLife(r, c)];
  }

  /** The session of the first login is open one millisecond before its token expires. */
  ghost predicate LateInSession(cfg: Config, s: Sys) {
    && s.issued == map[FIRST_JTI := FirstClaims(cfg)] && s.store.now == cfg.ttl - 1
    && s.store.GetStr(SignSecret(1)) == FIRST_SECRET && s.store.Alive(Token(FIRST_JTI))
  }

  lemma NotedAndRefreshed(cfg: Config, st: Store, nonce: string, other: string)
    requires other != nonce && cfg.ttl > 0 && st.Alive(Token(FIRST_JTI))
    ensures
      var st' := Noted(st, nonce).Expire(Token(FIRST_JTI), cfg.ttl);
      && st'.now == st.now && st'.GetStr(SignSecret(1)) == st.GetStr(SignSecret(1)) && st'.Alive(Token(FIRST_JTI))
      && st'.Alive(Nonce(other)) == st.Alive(Nonce(other))
  {
  }

  /** A request of that session arrives; the nonce `other` is as free as it was. */
  lemma ArriveLate(cfg: Config, s: Sys, tid: nat, nonce: string, other: string, env: Env) returns (s': Sys)
    requires cfg.refresh && Workable(cfg) && LateInSession(cfg, s)
    requires tid !in s.threads && nonce != "" && other != nonce && !s.store.Alive(Nonce(nonce))
    ensures
      var c := FirstClaims(cfg);
      var r := SignedRequest(cfg, FIRST_SECRET, cfg.ttl - 1, nonce, Signed(c), Protected);
      && Reachable(cfg, s, s') && LateInSession(cfg, s') && s'.threads == s.threads[tid := AuthHalfLife(r, c)]
    ensures s'.store.Alive(Nonce(other)) == s.store.Alive(Nonce(other))
  {
    var c := FirstClaims(cfg);
    var r := SignedRequest(cfg, FIRST_SECRET, cfg.ttl - 1, nonce, Signed(c), Protected);
    SignedFits(cfg, FIRST_SECRET, cfg.ttl - 1, nonce, Signed(c), Protected);
    s' := Arrive(cfg, s, tid, r, c, env);
    NotedAndRefreshed(cfg, s.store, nonce, other);
  }

  lemma WaitUntilLate(cfg: Config, s: Sys, n1: string, n2: string) returns (s': Sys)
    requires Workable(cfg) && JustLoggedIn(cfg, s) && n1 != FIRST_NONCE && n2 != FIRST_NONCE
    ensures Reachable(cfg, s, s') && LateInSession(cfg, s') && s'.threads == s.threads
    ensures !s'.store.Alive(Nonce(n1)) && !s'.store.Alive(Nonce(n2))
  {
    OneAction(cfg, s, Tick(cfg.ttl - 1));
    s' := Apply(cfg, s, Tick(cfg.ttl - 1));
    assert !s.store.Alive(Nonce(n1)) && !s.store.Alive(Nonce(n2));
  }

  lemma BothArriveLate(cfg: Config, s: Sys, n1: string, n2: string, env: Env) returns (s': Sys)
    requires cfg.refresh && Workable(cfg) && LateInSession(cfg, s) && n1 != "" && n2 != "" && n1 != n2
    requires s.threads.Keys == {0} && !s.store.Alive(Nonce(n1)) && !s.store.Alive(Nonce(n2))
    ensures
      var c := FirstClaims(cfg);
      var r1 := SignedRequest(cfg, FIRST_SECRET, cfg.ttl - 1, n1, Signed(c), Protected);
      var r2 := SignedRequest(cfg, FIRST_SECRET, cfg.ttl - 1, n2, Signed(c), Protected);
      && Reachable(cfg, s, s') && LateInSession(cfg, s') && 1 in s'.threads && 2 in s'.threads
      && s'.threads[1] == AuthHalfLife(r1, c) && s'.threads[2] == AuthHalfLife(r2, c)
  {
    var s1 := ArriveLate(cfg, s, 1, n1, n2, env);
    s' := ArriveLate(cfg, s1, 2, n2, n1, env);
    ReachableTransitive(cfg, s, s1, s');
  }

  /** Both requests arrive one millisecond before the token expires. */
  lemma BothArrive(cfg: Config, s: Sys, env: Env) returns (s': Sys)
    requires cfg.refresh && Workable(cfg) && JustLoggedIn(cfg, s)
    ensures Reachable(cfg, s, s') && LateInSession(cfg, s')
    ensures 1 in s'.threads && s'.threads[1] == AuthHalfLife(LateRequest(cfg, 1), FirstClaims(cfg))
    ensures 2 in s'.threads && s'.threads[2] == AuthHalfLife(LateRequest(cfg, 2), FirstClaims(cfg))
  {
    assert |Ticket(1)| == 2 && |Ticket(2)| == 3 && |FIRST_NONCE| == 1;
    var s1 := WaitUntilLate(cfg, s, Ticket(1), Ticket(2));
    s' := BothArriveLate(cfg, s1, Ticket(1), Ticket(2), env);
    ReachableTransitive(cfg, s, s1, s');
  }

  function LateRequest(cfg: Config, i: nat): Request {
    SignedRequest(cfg, FIRST_SECRET, cfg.ttl - 1, Ticket(i), Signed(FirstClaims(cfg)), Protected)
  }

  /**
   From the empty store, one login and two requests with its token one millisecond before the token's expiry can
   interleave so that two successors of the token are live.
   */
  lemma InterleavedReissueForks(cfg: Config) returns (acts: seq<Action>)
    requires cfg.refresh && Workable(cfg)
    ensures TwoSuccessors(Exec(cfg, Initial(0), acts), 1, 2)
  {
    var c := FirstClaims(cfg);
    var e1, e2 := Env(NotFound, "u", ""), Env(NotFound, "v", "");
    var r1, r2 := LateRequest(cfg, 1), LateRequest(cfg, 2);
    var s1 := StartSession(cfg);
    var s2 := BothArrive(cfg, s1, e1);
    ReachableTransitive(cfg, Initial(0), s1, s2);
    assert |e1.jti| == |e2.jti| == |FIRST_JTI| == 1 && e1.jti[0] != e2.jti[0];
    assert e1.jti[0] != FIRST_JTI[0] && e2.jti[0] != FIRST_JTI[0];
    var s3 := BothMint(cfg, s2, r1, r2, c, e1, e2);
    ReachableTransitive(cfg, Initial(0), s2, s3);
    var m1 := Generate(cfg, s2.store.now, e1.jti, c.admin, c.account);
    var m2 := Generate(cfg, s2.store.now, e2.jti, c.admin, c.account);
    var s := BothFinish(cfg, s3, r1, r2, c, m1, m2, e1);
    ReachableTransitive(cfg, Initial(0), s3, s);
    acts :| Exec(cfg, Initial(0), acts) == s;
  }

  // ---------- When no token is ever renewed ----------

  predicate Renewing(cfg: Config) {
    cfg.refresh && cfg.ttl > 0
  }

  /** Without renewal no request gets to the commands that reissue a token. */
  predicate Unrenewed(cfg: Config, l: Local) {
    Renewal(l).None? && (!cfg.refresh ==> !l.AuthRefresh? && !l.AuthHalfLife?)
  }

  ghost predicate NoneRenewed(cfg: Config, s: Sys) {
    forall t :: t in s.threads ==> Unrenewed(cfg, s.threads[t])
  }

  lemma UnrenewedStep(cfg: Config, st: Store, l: Local, env: Env)
    requires !Renewing(cfg) && Unrenewed(cfg, l)
    ensures Unrenewed(cfg, Step(cfg, st, l, env).next)
  {
  }

  lemma {:induction false} NoRenewal(cfg: Config, now: int, acts: seq<Action>)
    requires !Renewing(cfg)
    ensures NoneRenewed(cfg, Exec(cfg, Initial(now), acts))
  {
    if acts != [] {
      var s := Exec(cfg, Initial(now), acts[..|acts| - 1]);
      var a := acts[|acts| - 1];
      NoRenewal(cfg, now, acts[..|acts| - 1]);
      if Enabled(cfg, s, a) && a.Run? {
        UnrenewedStep(cfg, s.store, s.threads[a.tid], a.env);
      }
    }
  }

  /** Without a static secret no login gets past Sign, and without a login there is no token to come with. */
  predicate Shut(l: Local) {
    match l
    case SignClock(r) => !r.bearer.Signed?
    case SignNonce(r, _, _) => !r.bearer.Signed?
    case SignToken(r) => !r.bearer.Signed?
    case Done(o) => Renewal(l).None?
    case _ => false
  }

  ghost predicate AllShut(s: Sys) {
    s.issued == map[] && forall t :: t in s.threads ==> Shut(s.threads[t])
  }

  lemma ShutStep(cfg: Config, st: Store, l: Local, env: Env)
    requires cfg.staticSecret == "" && Shut(l)
    ensures Shut(Step(cfg, st, l, env).next) && !Step(cfg, st, l, env).event.Minted?
  {
  }

  lemma {:induction false} NothingIssued(cfg: Config, now: int, acts: seq<Action>)
    requires cfg.staticSecret == ""
    ensures AllShut(Exec(cfg, Initial(now), acts))
  {
    if acts != [] {
      var s := Exec(cfg, Initial(now), acts[..|acts| - 1]);
      var a := acts[|acts| - 1];
      NothingIssued(cfg, now, acts[..|acts| - 1]);
      if Enabled(cfg, s, a) && a.Run? {
        ShutStep(cfg, s.store, s.threads[a.tid], a.env);
      }
    }
  }

  /** Some interleaving leaves two live successors of one token. */
  ghost predicate ForkReachable(cfg: Config) {
    exists now: int, acts, t1: nat, t2: nat :: TwoSuccessors(Exec(cfg, Initial(now), acts), t1, t2)
  }

  lemma NoFork(cfg: Config)
    requires !Renewing(cfg) || cfg.staticSecret == ""
    ensures !ForkReachable(cfg)
  {
    forall now: int, acts, t1: nat, t2: nat ensures !TwoSuccessors(Exec(cfg, Initial(now), acts), t1, t2) {
      if Renewing(cfg) {
        NothingIssued(cfg, now, acts);
      } else {
        NoRenewal(cfg, now, acts);
      }
    }
  }

  /**
   Under which configurations interleaved requests can leave two live successors of one token: exactly where tokens are
   refreshed, live for some time, and logins can pass the signature check. Everywhere else no run renews any token.
   */
  lemma ForkIff(cfg: Config)
    requires MacAnswers(cfg) && cfg.ttl % 1000 == 0 && Decimal.Int64(cfg.ttl)
    ensures ForkReachable(cfg) <==> cfg.refresh && cfg.ttl > 0 && cfg.staticSecret != ""
  {
    if cfg.refresh && cfg.ttl > 0 && cfg.staticSecret != "" {
      var acts := InterleavedReissueForks(cfg);
      assert TwoSuccessors(Exec(cfg, Initial(0), acts), 1, 2);
    } else {
      NoFork(cfg);
    }
  }
}
