/**
 When a request with a token can be accepted twice, over all interleaved runs: the session has to outlive the nonce.
 */
module TokenReplay {
  import opened Wrappers
  import opened Redis
  import opened Session
  import opened Interleaving
  import opened RunBuilding
  import opened Nonces
  import Decimal
  import RenewalRace
  import SessionWindow

  // ---------- What a taken nonce says about the token that came with it ----------

  predicate AccountOk(l: Local) {
    match l
    case LoginGate(a) => a != ""
    case LoginLookup(a) => a != ""
    case LoginReset(a, _) => a != ""
    case LoginGenerate(a, _) => a != ""
    case _ => true
  }

  /** A token that some login or reissue up to time `at` can have minted. */
  predicate Mintable(cfg: Config, c: Claims, at: int) {
    c.account != "" && c.exp % 1000 == 0 && c.exp <= at + cfg.ttl
  }

  ghost predicate TokensOk(cfg: Config, s: Sys) {
    && (forall j :: j in s.issued ==> Mintable(cfg, s.issued[j], s.store.now))
    && (forall t :: t in s.threads ==> AccountOk(s.threads[t]))
  }

  /** A request that has taken its nonce and has not been refused was parsed before its token expired. */
  predicate TakenBy(cfg: Config, s: Sys, l: Logged, c: Claims) {
    && l.event.NonceTaken? && Mintable(cfg, c, l.at) && c.jti in s.issued && l.tid in s.threads && l.at <= s.store.now
    && !s.threads[l.tid].SignClock? && !s.threads[l.tid].SignNonce?
    && (s.threads[l.tid] == SignToken(l.event.r) || s.threads[l.tid] == Done(SignInvalid) || l.at < c.exp)
  }

  ghost predicate TakingsOk(cfg: Config, s: Sys) {
    forall i :: 0 <= i < |s.log| && s.log[i].event.NonceTaken? && s.log[i].event.r.bearer.Signed? ==>
      TakenBy(cfg, s, s.log[i], s.log[i].event.r.bearer.claims)
  }

  ghost predicate Inv(cfg: Config, s: Sys) {
    TokensOk(cfg, s) && TakingsOk(cfg, s)
  }

  /** What one command means for accounts and minted tokens. */
  lemma MintEffect(cfg: Config, st: Store, l: Local, env: Env)
    requires AccountOk(l) && (l.AuthHalfLife? ==> l.claims.account != "")
    ensures
      var e := Step(cfg, st, l, env);
      && e.store.now == st.now && AccountOk(e.next)
      && (e.event.Minted? ==> Mintable(cfg, e.event.token, st.now))
  {
  }

  /** What one command means for a request that has taken its nonce. */
  lemma TakenEffect(cfg: Config, st: Store, l: Local, env: Env)
    requires !l.SignClock? && !l.SignNonce?
    ensures
      var e := Step(cfg, st, l, env);
      && !e.next.SignClock? && !e.next.SignNonce? && !e.event.NonceTaken?
      && (l.SignToken? && l.r.bearer.Signed? ==> e.next == Done(SignInvalid) || st.now < l.r.bearer.claims.exp)
  {
  }

  lemma TokensStep(cfg: Config, s: Sys, tid: nat, env: Env)
    requires SessionWindow.Inv(cfg, s) && TokensOk(cfg, s) && Enabled(cfg, s, Run(tid, env))
    ensures TokensOk(cfg, Apply(cfg, s, Run(tid, env)))
  {
    assert SessionWindow.ThreadOk(cfg, s, tid, s.threads[tid]);
    MintEffect(cfg, s.store, s.threads[tid], env);
  }

  /** A request at its SETNX takes the nonce. */
  lemma TakingStep(cfg: Config, s: Sys, tid: nat, env: Env)
    requires SessionWindow.Inv(cfg, s) && TokensOk(cfg, s) && Enabled(cfg, s, Run(tid, env))
    requires s.threads[tid].SignNonce? && s.threads[tid].r.bearer.Signed?
    ensures
      var s' := Apply(cfg, s, Run(tid, env));
      var l := s'.log[|s.log|];
      |s'.log| == |s.log| + 1 && (l.event.NonceTaken? ==> TakenBy(cfg, s', l, s.threads[tid].r.bearer.claims))
  {
    assert SessionWindow.ThreadOk(cfg, s, tid, s.threads[tid]);
  }

  /** An earlier taking stays what it is. */
  lemma TakenStays(cfg: Config, s: Sys, tid: nat, env: Env, l: Logged)
    requires l.event.NonceTaken? && l.event.r.bearer.Signed? && TakenBy(cfg, s, l, l.event.r.bearer.claims)
    requires Enabled(cfg, s, Run(tid, env))
    ensures TakenBy(cfg, Apply(cfg, s, Run(tid, env)), l, l.event.r.bearer.claims)
  {
    if l.tid == tid {
      TakenEffect(cfg, s.store, s.threads[tid], env);
    }
    NonceEffect(cfg, s.store, s.threads[tid], env, "");
  }

  lemma RunKeepsInv(cfg: Config, s: Sys, tid: nat, env: Env)
    requires SessionWindow.Inv(cfg, s) && Inv(cfg, s) && Enabled(cfg, s, Run(tid, env))
    ensures Inv(cfg, Apply(cfg, s, Run(tid, env)))
  {
    var s' := Apply(cfg, s, Run(tid, env));
    TokensStep(cfg, s, tid, env);
    forall i | 0 <= i < |s'.log| && s'.log[i].event.NonceTaken? && s'.log[i].event.r.bearer.Signed?
      ensures TakenBy(cfg, s', s'.log[i], s'.log[i].event.r.bearer.claims)
    {
      if i < |s.log| {
        assert s'.log[i] == s.log[i];
        TakenStays(cfg, s, tid, env, s.log[i]);
      } else {
        NonceEffect(cfg, s.store, s.threads[tid], env, s'.log[i].event.r.fields.nonce);
        TakingStep(cfg, s, tid, env);
      }
    }
  }

  lemma {:induction false} Always(cfg: Config, now: int, acts: seq<Action>)
    ensures Inv(cfg, Exec(cfg, Initial(now), acts))
  {
    if acts != [] {
      var n := |acts| - 1;
      Always(cfg, now, acts[..n]);
      SessionWindow.Always(cfg, now, acts[..n]);
      var s := Exec(cfg, Initial(now), acts[..n]);
      if Enabled(cfg, s, acts[n]) && acts[n].Run? {
        RunKeepsInv(cfg, s, acts[n].tid, acts[n].env);
      }
    }
  }

  // ---------- The condition ----------

  /** There is a static secret to log in with, the token can exist at `t`, and it outlives the nonce taken at `t`. */
  predicate Room(cfg: Config, c: Claims, ts: int, t: int) {
    && cfg.staticSecret != "" && ts - SIGN_WINDOW <= t < ts && Mintable(cfg, c, t) && FreeAgain(t) < c.exp
  }

  lemma ReplayNeedsRoom(cfg: Config, r: Request, c: Claims, ts: int, t: int)
    requires r.bearer == Signed(c) && Complete(r, ts) && ReplayableAt(cfg, r, t)
    ensures Room(cfg, c, ts, t)
  {
    var now: int, acts, i: nat, j: nat :| AcceptedTwice(Exec(cfg, Initial(now), acts), i, j, r, t);
    var s := Exec(cfg, Initial(now), acts);
    ReplayNeedsEarlyAcceptance(cfg, now, acts, i, j, r);
    AcceptancesApart(cfg, now, acts, i, j);
    Nonces.Always(cfg, now, acts);
    assert TakenOk(s, i) && TakenOk(s, j);
    Always(cfg, now, acts);
    assert TakenBy(cfg, s, s.log[i], c) && TakenBy(cfg, s, s.log[j], c);
    if cfg.staticSecret == "" {
      RenewalRace.NothingIssued(cfg, now, acts);
    }
  }

  // ---------- The run ----------

  /** `secret` is the session secret of `c`, to be read until `c` expires, and the token may be presented. */
  ghost predicate SessionOpen(s: Sys, c: Claims, secret: string) {
    && c.jti in s.issued && s.issued[c.jti] == c && SignSecret(c.admin) in s.store.entries
    && s.store.entries[SignSecret(c.admin)] == Entry(Str(secret), Some(c.exp))
  }

  lemma TokenStep(cfg: Config, st: Store, r: Request, c: Claims, env: Env)
    requires r.bearer == Signed(c) && st.now < c.exp
    ensures Step(cfg, st, SignToken(r), env) == Effect(st, SignSecretRead(r, c), Event.Quiet)
  {
  }

  lemma CompareStep(cfg: Config, st: Store, r: Request, c: Claims, ts: int, env: Env)
    requires Fits(cfg, r, ts, st.GetStr(SignSecret(c.admin)))
    ensures
      var e := Step(cfg, st, SignSecretRead(r, c), env);
      e.store == st && e.next == AfterSign(r) && !e.event.Minted?
  {
  }

  /** A request with the token of an open session gets to the comparison. */
  lemma ToComparison(cfg: Config, s: Sys, tid: nat, r: Request, c: Claims, ts: int, env: Env) returns (s': Sys)
    requires r.bearer == Signed(c) && Complete(r, ts) && Presentable(s, r.bearer) && s.store.now < c.exp
    requires InWindow(ts, s.store.now) && !s.store.Alive(Nonce(r.fields.nonce)) && tid !in s.threads
    ensures Reachable(cfg, s, s') && s'.issued == s.issued
    ensures s'.store == Noted(s.store, r.fields.nonce) && s'.threads == s.threads[tid := SignSecretRead(r, c)]
    ensures |s'.log| == |s.log| + 3 && s.log <= s'.log
    ensures s'.log[|s.log| + 1] == Logged(tid, s.store.now, NonceTaken(r, ts, s.store.now))
  {
    var s1 := TakeNonce(cfg, s, tid, r, ts, env);
    TokenStep(cfg, s1.store, r, c, env);
    s' := OneCommand(cfg, s1, tid, env, Effect(s1.store, SignSecretRead(r, c), Event.Quiet));
    ReachableTransitive(cfg, s, s1, s');
  }

  /** A request signed with the secret of an open session passes Sign. */
  lemma PassWithToken(cfg: Config, s: Sys, tid: nat, r: Request, c: Claims, ts: int, secret: string)
    returns (s': Sys)
    requires r.bearer == Signed(c) && Fits(cfg, r, ts, secret) && SessionOpen(s, c, secret) && s.store.now < c.exp
    requires InWindow(ts, s.store.now) && !s.store.Alive(Nonce(r.fields.nonce)) && tid !in s.threads
    ensures Reachable(cfg, s, s') && SessionOpen(s', c, secret)
    ensures s'.store == Noted(s.store, r.fields.nonce) && s'.threads == s.threads[tid := AfterSign(r)]
    ensures |s'.log| == |s.log| + 4 && s.log <= s'.log
    ensures s'.log[|s.log| + 1] == Logged(tid, s.store.now, NonceTaken(r, ts, s.store.now))
  {
    var env := Env(NotFound, "", "");
    var s1 := ToComparison(cfg, s, tid, r, c, ts, env);
    CompareStep(cfg, s1.store, r, c, ts, env);
    s' := OneCommand(cfg, s1, tid, env, Step(cfg, s1.store, SignSecretRead(r, c), env));
    ReachableTransitive(cfg, s, s1, s');
  }

  /** The login whose token is `c`: one lifetime before the token expires. */
  lemma OpenSession(cfg: Config, r: Request, c: Claims, secret: string) returns (s: Sys)
    requires MacAnswers(cfg) && cfg.staticSecret != "" && cfg.ttl > 0 && Decimal.Int64(c.exp - cfg.ttl)
    requires c.account != "" && c.exp % 1000 == 0
    ensures Reachable(cfg, Initial(c.exp - cfg.ttl), s) && SessionOpen(s, c, secret)
    ensures s.store.now == c.exp - cfg.ttl && s.threads.Keys == {0} && !s.store.Alive(Nonce(r.fields.nonce))
  {
    var now, nonce := c.exp - cfg.ttl, Ticket(|r.fields.nonce|);
    var login := SignedRequest(cfg, cfg.staticSecret, now, nonce, NoToken, Login(c.account, "p"));
    SignedFits(cfg, cfg.staticSecret, now, nonce, NoToken, Login(c.account, "p"));
    s := LogIn(cfg, now, login, c.account, "p", c.admin, Env(Found(c.admin), c.jti, secret));
    assert Generate(cfg, now, c.jti, c.admin, c.account) == c;
    assert |nonce| != |r.fields.nonce|;
  }

  /** Time passes. */
  lemma Pass(cfg: Config, s: Sys, d: nat) returns (s': Sys)
    ensures Reachable(cfg, s, s') && s' == s.(store := s.store.(now := s.store.now + d))
  {
    OneAction(cfg, s, Tick(d));
    s' := Apply(cfg, s, Tick(d));
  }

  /** The login, the request at `t`, and the request again as soon as its nonce is free. */
  lemma SendTwiceWithToken(cfg: Config, r: Request, c: Claims, ts: int, secret: string, t: int)
    returns (s: Sys, i: nat, j: nat)
    requires MacAnswers(cfg) && Decimal.Int64(c.exp - cfg.ttl) && Room(cfg, c, ts, t)
    requires r.bearer == Signed(c) && Fits(cfg, r, ts, secret)
    ensures Reachable(cfg, Initial(c.exp - cfg.ttl), s) && AcceptedTwice(s, i, j, r, t)
  {
    var s0 := Initial(c.exp - cfg.ttl);
    var s1 := OpenSession(cfg, r, c, secret);
    var s2 := Pass(cfg, s1, t - s1.store.now);
    ReachableTransitive(cfg, s0, s1, s2);
    var s3 := PassWithToken(cfg, s2, 1, r, c, ts, secret);
    ReachableTransitive(cfg, s0, s2, s3);
    var s4 := Pass(cfg, s3, FreeAgain(t) - t);
    ReachableTransitive(cfg, s0, s3, s4);
    s := PassWithToken(cfg, s4, 2, r, c, ts, secret);
    ReachableTransitive(cfg, s0, s4, s);
    i, j := |s2.log| + 1, |s4.log| + 1;
    assert s.log[i] == s3.log[i];
    AfterSignIsPast(r);
  }

  /**
   Exactly-once acceptance for requests with a token: a request signed with its session's secret for the timestamp
   `ts`, whose time check and SETNX happen at one instant `t`, can pass Sign twice in some run if and only if `t` is
   before `ts` inside the window and its token can exist at `t` and lives on when the nonce is free again. With a
   lifetime of five minutes or less it therefore never can.
   */
  lemma TokenReplayIff(cfg: Config, r: Request, c: Claims, ts: int, secret: string, t: int)
    requires r.bearer == Signed(c) && Fits(cfg, r, ts, secret)
    requires MacAnswers(cfg) && Decimal.Int64(c.exp - cfg.ttl)
    ensures ReplayableAt(cfg, r, t) <==> Room(cfg, c, ts, t)
    ensures cfg.ttl <= NONCE_TTL ==> !ReplayableAt(cfg, r, t)
  {
    if ReplayableAt(cfg, r, t) {
      ReplayNeedsRoom(cfg, r, c, ts, t);
    }
    if Room(cfg, c, ts, t) {
      var s, i, j := SendTwiceWithToken(cfg, r, c, ts, secret, t);
      var now := c.exp - cfg.ttl;
      var acts :| Exec(cfg, Initial(now), acts) == s;
      assert AcceptedTwice(Exec(cfg, Initial(now), acts), i, j, r, t);
    }
  }
}
