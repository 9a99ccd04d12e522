/** Replay protection under interleaving: the time window and the nonce of `Sign` taken together. */
module Nonces {
  import opened Wrappers
  import opened Redis
  import opened Session
  import opened Interleaving
  import opened RunBuilding
  import Decimal

  predicate InWindow(ts: int, at: int) {
    -SIGN_WINDOW <= at - ts <= SIGN_WINDOW
  }

  predicate Takes(l: Logged, nonce: string) {
    l.event.NonceTaken? && l.event.r.fields.nonce == nonce
  }

  ghost predicate TakenOk(s: Sys, i: nat)
    requires i < |s.log|
  {
    var l := s.log[i];
    l.event.NonceTaken? ==>
      && InWindow(l.event.ts, l.event.checkedAt) && l.event.checkedAt <= l.at <= s.store.now
      && Decimal.Atoi(l.event.r.fields.timestamp) == Some(l.event.ts)
      && Nonce(l.event.r.fields.nonce) in s.store.entries
      && var d := s.store.entries[Nonce(l.event.r.fields.nonce)].deadline;
         d.Some? && l.at + NONCE_TTL <= d.value
  }

  ghost predicate Apart(log: seq<Logged>, i: nat, j: nat)
    requires i < j < |log|
  {
    log[i].event.NonceTaken? && Takes(log[j], log[i].event.r.fields.nonce) ==> log[i].at + NONCE_TTL < log[j].at
  }

  ghost predicate Inv(s: Sys) {
    && (forall tid :: tid in s.threads && s.threads[tid].SignNonce? ==>
          var l := s.threads[tid];
          InWindow(l.ts, l.checkedAt) && l.checkedAt <= s.store.now
          && Decimal.Atoi(l.r.fields.timestamp) == Some(l.ts))
    && (forall i :: 0 <= i < |s.log| ==> TakenOk(s, i))
    && (forall i, j :: 0 <= i < j < |s.log| ==> Apart(s.log, i, j))
  }

  /** Only a successful SETNX changes a nonce key, and only when it is free. */
  lemma NonceEffect(cfg: Config, st: Store, l: Local, env: Env, nonce: string)
    ensures
      var e := Step(cfg, st, l, env);
      && e.store.now == st.now
      && (e.event.NonceTaken? <==> l.SignNonce? && !st.Alive(Nonce(l.r.fields.nonce)))
      && (e.event.NonceTaken? && e.event.r.fields.nonce == nonce ==>
            && !st.Alive(Nonce(nonce)) && Nonce(nonce) in e.store.entries
            && e.store.entries[Nonce(nonce)] == Entry(Num(1), Some(st.now + NONCE_TTL))
            && e.event.r == l.r && e.event.ts == l.ts && e.event.checkedAt == l.checkedAt)
      && (!(e.event.NonceTaken? && e.event.r.fields.nonce == nonce) && Nonce(nonce) in st.entries ==>
            Nonce(nonce) in e.store.entries && e.store.entries[Nonce(nonce)] == st.entries[Nonce(nonce)])
  {
  }

  lemma RunStep(cfg: Config, s: Sys, tid: nat, env: Env)
    requires Inv(s) && Enabled(cfg, s, Run(tid, env))
    ensures Inv(Apply(cfg, s, Run(tid, env)))
  {
    var s' := Apply(cfg, s, Run(tid, env));
    var n, l := |s.log|, s.threads[tid];
    var e := Step(cfg, s.store, l, env);
    NonceEffect(cfg, s.store, l, env, "");
    forall i | 0 <= i <= n ensures TakenOk(s', i) {
      if s'.log[i].event.NonceTaken? {
        NonceEffect(cfg, s.store, l, env, s'.log[i].event.r.fields.nonce);
        if i < n {
          assert TakenOk(s, i);
        }
      }
    }
    forall i, j | 0 <= i < j <= n ensures Apart(s'.log, i, j) {
      if j < n {
        assert Apart(s.log, i, j);
      } else {
        assert TakenOk(s, i);
        if s.log[i].event.NonceTaken? && Takes(s'.log[n], s.log[i].event.r.fields.nonce) {
          NonceEffect(cfg, s.store, l, env, s.log[i].event.r.fields.nonce);
        }
      }
    }
  }

  lemma InvStep(cfg: Config, s: Sys, a: Action)
    requires Inv(s)
    ensures Inv(Apply(cfg, s, a))
  {
    if Enabled(cfg, s, a) {
      match a {
        case Tick(_) =>
          forall i | 0 <= i < |s.log| ensures TakenOk(Apply(cfg, s, a), i) {
            assert TakenOk(s, i);
          }
        case Spawn(_, _) =>
          forall i | 0 <= i < |s.log| ensures TakenOk(Apply(cfg, s, a), i) {
            assert TakenOk(s, i);
          }
        case Run(tid, env) =>
          RunStep(cfg, s, tid, env);
      }
    }
  }

  lemma {:induction false} Always(cfg: Config, now: int, acts: seq<Action>)
    ensures Inv(Exec(cfg, Initial(now), acts))
  {
    if acts != [] {
      Always(cfg, now, acts[..|acts| - 1]);
      InvStep(cfg, Exec(cfg, Initial(now), acts[..|acts| - 1]), acts[|acts| - 1]);
    }
  }

  // ---------- The theorems ----------

  /** Two acceptances of one nonce are more than the nonce lifetime apart, in any run. */
  lemma AcceptancesApart(cfg: Config, now: int, acts: seq<Action>, i: nat, j: nat)
    requires
      var log := Exec(cfg, Initial(now), acts).log;
      i < j < |log| && log[i].event.NonceTaken? && Takes(log[j], log[i].event.r.fields.nonce)
    ensures
      var log := Exec(cfg, Initial(now), acts).log;
      log[i].at + NONCE_TTL < log[j].at
  {
    Always(cfg, now, acts);
    assert Apart(Exec(cfg, Initial(now), acts).log, i, j);
  }

  /** Positions `i` and `j` take the nonce of one request. */
  predicate Replayed(log: seq<Logged>, i: nat, j: nat, r: Request) {
    && i < j < |log| && log[i].event.NonceTaken? && log[j].event.NonceTaken?
    && log[i].event.r == log[j].event.r == r
  }

  /**
   A request whose nonce is taken twice was first let in before its own timestamp, up to the delay `g` between the
   second time check and its SETNX. This holds for every request, whatever signs it.
   */
  lemma ReplayNeedsEarlyAcceptance(cfg: Config, now: int, acts: seq<Action>, i: nat, j: nat, r: Request)
    requires Replayed(Exec(cfg, Initial(now), acts).log, i, j, r)
    ensures
      var log := Exec(cfg, Initial(now), acts).log;
      var g := log[j].at - log[j].event.checkedAt;
      log[i].at < log[j].event.ts + g
  {
    AcceptancesApart(cfg, now, acts, i, j);
    Always(cfg, now, acts);
    assert TakenOk(Exec(cfg, Initial(now), acts), j);
  }

  // ---------- When a request can be accepted twice ----------

  /** The signature layer has let the request through. */
  predicate PastSign(l: Local) {
    !l.SignClock? && !l.SignNonce? && !l.SignToken? && !l.SignSecretRead? && l != Done(SignInvalid)
    && l != Done(SignExpired)
  }

  /** Two acceptances of `r` by Sign, each with its time check and SETNX at one instant, the first at `t`. */
  ghost predicate AcceptedTwice(s: Sys, i: nat, j: nat, r: Request, t: int) {
    && Replayed(s.log, i, j, r) && s.log[i].tid != s.log[j].tid
    && s.log[i].at == s.log[i].event.checkedAt == t && s.log[j].at == s.log[j].event.checkedAt
    && s.log[i].tid in s.threads && PastSign(s.threads[s.log[i].tid])
    && s.log[j].tid in s.threads && PastSign(s.threads[s.log[j].tid])
  }

  ghost predicate ReplayableAt(cfg: Config, r: Request, t: int) {
    exists now: int, acts, i: nat, j: nat :: AcceptedTwice(Exec(cfg, Initial(now), acts), i, j, r, t)
  }

  /** `r` is signed with the static secret, as a request without a token has to be, for the timestamp `ts`. */
  predicate StaticallySigned(cfg: Config, r: Request, ts: int) {
    r.bearer == NoToken && Fits(cfg, r, ts, cfg.staticSecret)
  }

  /** A request with the three headers, sent for the timestamp `ts`. */
  predicate Complete(r: Request, ts: int) {
    && r.fields.timestamp != "" && r.fields.nonce != "" && r.sig != ""
    && Decimal.Atoi(r.fields.timestamp) == Some(ts)
  }

  /** Such a request arrives and takes its nonce. */
  lemma TakeNonce(cfg: Config, s: Sys, tid: nat, r: Request, ts: int, env: Env) returns (s': Sys)
    requires Complete(r, ts) && Presentable(s, r.bearer) && tid !in s.threads
    requires InWindow(ts, s.store.now) && !s.store.Alive(Nonce(r.fields.nonce))
    ensures Reachable(cfg, s, s') && s'.issued == s.issued
    ensures s'.store == Noted(s.store, r.fields.nonce) && s'.threads == s.threads[tid := SignToken(r)]
    ensures |s'.log| == |s.log| + 2 && s.log <= s'.log
    ensures s'.log[|s.log| + 1] == Logged(tid, s.store.now, NonceTaken(r, ts, s.store.now))
  {
    OneAction(cfg, s, Spawn(tid, r));
    var s1 := Apply(cfg, s, Spawn(tid, r));
    assert s1.threads == s.threads[tid := SignClock(r)];
    ClockStep(cfg, s.store, r, ts, env);
    var s2 := OneCommand(cfg, s1, tid, env, Effect(s.store, SignNonce(r, ts, s.store.now), Event.Quiet));
    ReachableTransitive(cfg, s, s1, s2);
    NonceStep(cfg, s.store, r, ts, s.store.now, env);
    s' := OneCommand(cfg, s2, tid, env,
                     Effect(Noted(s.store, r.fields.nonce), SignToken(r), NonceTaken(r, ts, s.store.now)));
    ReachableTransitive(cfg, s, s2, s');
  }

  /** One more sending of the request passes Sign whenever its nonce is free and the clock is inside the window. */
  lemma PassAgain(cfg: Config, s: Sys, tid: nat, r: Request, ts: int) returns (s': Sys)
    requires StaticallySigned(cfg, r, ts) && tid !in s.threads
    requires InWindow(ts, s.store.now) && !s.store.Alive(Nonce(r.fields.nonce))
    ensures Reachable(cfg, s, s')
    ensures s'.store == Noted(s.store, r.fields.nonce) && s'.threads == s.threads[tid := AfterSign(r)]
    ensures |s'.log| == |s.log| + 3 && s.log <= s'.log
    ensures s'.log[|s.log| + 1] == Logged(tid, s.store.now, NonceTaken(r, ts, s.store.now))
  {
    var env := Env(NotFound, "", "");
    var s1 := TakeNonce(cfg, s, tid, r, ts, env);
    StaticStep(cfg, s1.store, r, ts, env);
    s' := OneCommand(cfg, s1, tid, env, Effect(s1.store, AfterSign(r), Event.Quiet));
    ReachableTransitive(cfg, s, s1, s');
  }

  /** Two sendings, the second as late as the window allows. */
  lemma SendTwice(cfg: Config, r: Request, ts: int, t: int) returns (s: Sys)
    requires StaticallySigned(cfg, r, ts) && InWindow(ts, t) && t < ts
    ensures Reachable(cfg, Initial(t), s) && AcceptedTwice(s, 1, 4, r, t)
  {
    var wait := Tick(ts + SIGN_WINDOW - t);
    var s1 := PassAgain(cfg, Initial(t), 0, r, ts);
    var s2 := Apply(cfg, s1, wait);
    OneAction(cfg, s1, wait);
    ReachableTransitive(cfg, Initial(t), s1, s2);
    s := PassAgain(cfg, s2, 1, r, ts);
    ReachableTransitive(cfg, Initial(t), s2, s);
    AfterSignIsPast(r);
  }

  lemma ReplayRun(cfg: Config, r: Request, ts: int, t: int)
    requires StaticallySigned(cfg, r, ts) && InWindow(ts, t) && t < ts
    ensures ReplayableAt(cfg, r, t)
  {
    var s := SendTwice(cfg, r, ts, t);
    var acts :| Exec(cfg, Initial(t), acts) == s;
    assert AcceptedTwice(Exec(cfg, Initial(t), acts), 1, 4, r, t);
  }

  lemma AfterSignIsPast(r: Request)
    ensures PastSign(AfterSign(r))
  {
  }

  /**
   Exactly-once acceptance, with its exact condition: a request signed with the static secret for the timestamp `ts`,
   whose time check and SETNX happen at one instant `t`, can pass Sign a second time if and only if `t` is before `ts`,
   that is, if the client's clock was ahead (and `t` is in the window at all).
   */
  lemma ReplayableIff(cfg: Config, r: Request, ts: int, t: int)
    requires StaticallySigned(cfg, r, ts)
    ensures ReplayableAt(cfg, r, t) <==> ts - SIGN_WINDOW <= t < ts
  {
    if ReplayableAt(cfg, r, t) {
      var now: int, acts, i: nat, j: nat :| AcceptedTwice(Exec(cfg, Initial(now), acts), i, j, r, t);
      ReplayNeedsEarlyAcceptance(cfg, now, acts, i, j, r);
      Always(cfg, now, acts);
      assert TakenOk(Exec(cfg, Initial(now), acts), i);
      assert TakenOk(Exec(cfg, Initial(now), acts), j);
    }
    if ts - SIGN_WINDOW <= t < ts {
      ReplayRun(cfg, r, ts, t);
    }
  }

  /** The guard can be met: a request that a client signs one millisecond ahead of the server passes Sign twice. */
  lemma ClockAheadReplay(cfg: Config, now: int, route: Route) returns (r: Request)
    requires MacAnswers(cfg) && cfg.staticSecret != "" && Decimal.Int64(now + 1)
    ensures r.route == route && StaticallySigned(cfg, r, now + 1) && ReplayableAt(cfg, r, now)
  {
    r := SignedRequest(cfg, cfg.staticSecret, now + 1, "n", NoToken, route);
    SignedFits(cfg, cfg.staticSecret, now + 1, "n", NoToken, route);
    ReplayableIff(cfg, r, now + 1, now);
  }

  // ---------- Requests with a token as well ----------

  predicate InSign(l: Local) {
    l.SignClock? || l.SignNonce? || l.SignToken? || l.SignSecretRead?
  }

  /** The signature layer, run to its end at one instant. */
  function Through(cfg: Config, st: Store, l: Local, env: Env): (Store, Local)
    decreases Rank(l)
  {
    if !InSign(l) then (st, l)
    else
      StepDescends(cfg, st, l, env);
      var e := Step(cfg, st, l, env);
      Through(cfg, e.store, e.next, env)
  }

  /** The signature of `r` is right, under the static secret or under that of a session open now. */
  predicate SignatureHolds(cfg: Config, st: Store, r: Request) {
    match r.bearer
    case NoToken => PastSign(Compare(cfg, r, cfg.staticSecret))
    case Signed(c) => st.now < c.exp && PastSign(Compare(cfg, r, st.GetStr(SignSecret(c.admin))))
    case Garbage => false
  }

  lemma ThroughSecret(cfg: Config, st: Store, r: Request, env: Env)
    ensures
      var (st', l) := Through(cfg, st, SignToken(r), env);
      st' == st && (PastSign(l) <==> SignatureHolds(cfg, st, r))
  {
    var e := Step(cfg, st, SignToken(r), env);
    assert Through(cfg, st, SignToken(r), env) == Through(cfg, e.store, e.next, env);
    if e.next.SignSecretRead? {
      var e' := Step(cfg, st, e.next, env);
      assert Through(cfg, st, e.next, env) == Through(cfg, e'.store, e'.next, env);
    }
  }

  /** What it takes to pass the layer, and what passing it changes. */
  lemma ThroughSign(cfg: Config, st: Store, r: Request, ts: int, env: Env)
    requires Decimal.Atoi(r.fields.timestamp) == Some(ts)
    ensures
      var (st', l) := Through(cfg, st, StartSign(r), env);
      && (PastSign(l) <==>
            && r.fields.nonce != "" && r.sig != "" && InWindow(ts, st.now)
            && !st.Alive(Nonce(r.fields.nonce)) && SignatureHolds(cfg, st, r))
      && (PastSign(l) ==> st' == Noted(st, r.fields.nonce))
  {
    if StartSign(r) == SignClock(r) {
      var e := Step(cfg, st, SignClock(r), env);
      assert Through(cfg, st, SignClock(r), env) == Through(cfg, st, e.next, env);
      if InWindow(ts, st.now) {
        var e' := Step(cfg, st, SignNonce(r, ts, st.now), env);
        assert Through(cfg, st, e.next, env) == Through(cfg, e'.store, e'.next, env);
        ThroughSecret(cfg, Noted(st, r.fields.nonce), r, env);
        SignatureIgnoresNonces(cfg, st, r);
      }
    }
  }

  lemma SignatureIgnoresNonces(cfg: Config, st: Store, r: Request)
    ensures SignatureHolds(cfg, Noted(st, r.fields.nonce), r) == SignatureHolds(cfg, st, r)
  {
    assert forall a: nat :: Noted(st, r.fields.nonce).GetStr(SignSecret(a)) == st.GetStr(SignSecret(a));
  }

  /** The next moment at which a nonce taken at `t` is free again. */
  function FreeAgain(t: int): int {
    t + NONCE_TTL + 1
  }

  /** A signature that holds later held earlier, on an unchanged store. */
  lemma SignatureFades(cfg: Config, st: Store, r: Request, t: int, u: int)
    requires t <= u && SignatureHolds(cfg, st.(now := u), r)
    ensures SignatureHolds(cfg, st.(now := t), r)
  {
  }

  /**
   For every request, whatever signs it: accepted at `t` and then sent again after some wait, with nothing else
   happening, it passes Sign again if and only if `t` was before its timestamp and its signature still holds at the
   moment its nonce is free again, which for a request with a token means that its session is still open then.
   */
  lemma WaitAndResendIff(cfg: Config, st: Store, r: Request, ts: int, env: Env)
    requires Decimal.Atoi(r.fields.timestamp) == Some(ts) && PastSign(Through(cfg, st, StartSign(r), env).1)
    ensures
      var st1 := Through(cfg, st, StartSign(r), env).0;
      (exists u: int :: u >= st.now && PastSign(Through(cfg, st1.(now := u), StartSign(r), env).1))
      <==> (st.now < ts && SignatureHolds(cfg, st1.(now := FreeAgain(st.now)), r))
  {
    ThroughSign(cfg, st, r, ts, env);
    var st1 := Through(cfg, st, StartSign(r), env).0;
    var free := FreeAgain(st.now);
    if u: int :| u >= st.now && PastSign(Through(cfg, st1.(now := u), StartSign(r), env).1) {
      ThroughSign(cfg, st1.(now := u), r, ts, env);
      assert u >= free;
      SignatureFades(cfg, st1, r, free, u);
    }
    if st.now < ts && SignatureHolds(cfg, st1.(now := free), r) {
      ThroughSign(cfg, st1.(now := free), r, ts, env);
      assert PastSign(Through(cfg, st1.(now := free), StartSign(r), env).1);
    }
  }
}
