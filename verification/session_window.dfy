/**
 The session window over whole interleaved runs: a protected handler runs only for a request that was signed with
 the secret of the admin's most recent login, less than one lifetime after it and with no logout in between.
 */
module SessionWindow {
  import opened Wrappers
  import opened Redis
  import opened Session
  import opened Interleaving
  import Signing

  // ---------- What the log says about an admin's session ----------

  predicate Touches(e: Event, admin: nat) {
    (e.SecretIssued? && e.admin == admin) || (e.SecretCleared? && e.admin == admin)
  }

  /** The secret and the time of the admin's last login, unless a logout came after it. */
  function LastSession(log: seq<Logged>, admin: nat): Option<(string, int)> {
    if log == [] then None
    else
      var l := log[|log| - 1];
      if !Touches(l.event, admin) then LastSession(log[..|log| - 1], admin)
      else if l.event.SecretIssued? then Some((l.event.secret, l.at))
      else None
  }

  /** Position `j` of the log is a login of `admin` that issued `secret`, and nothing after it touched the session. */
  ghost predicate LoginAt(log: seq<Logged>, admin: nat, secret: string, at: int, j: nat) {
    && j < |log| && log[j].event == SecretIssued(admin, secret) && log[j].at == at
    && forall m :: j < m < |log| ==> !Touches(log[m].event, admin)
  }

  lemma {:induction false} LastSessionMeaning(log: seq<Logged>, admin: nat) returns (j: nat)
    requires LastSession(log, admin).Some?
    ensures LoginAt(log, admin, LastSession(log, admin).value.0, LastSession(log, admin).value.1, j)
  {
    var n := |log| - 1;
    if Touches(log[n].event, admin) {
      j := n;
    } else {
      j := LastSessionMeaning(log[..n], admin);
    }
  }

  lemma LastSessionStep(log: seq<Logged>, l: Logged, admin: nat)
    ensures LastSession(log + [l], admin)
         == if !Touches(l.event, admin) then LastSession(log, admin)
            else if l.event.SecretIssued? then Some((l.event.secret, l.at))
            else None
  {
    assert (log + [l])[..|log|] == log;
  }

  // ---------- The invariant ----------

  /** The stored secret is exactly the log's open session. */
  ghost predicate SecretsMatch(cfg: Config, s: Sys) {
    forall a: nat {:trigger LastSession(s.log, a)} ::
      match LastSession(s.log, a)
      case None => SignSecret(a) !in s.store.entries
      case Some((secret, at)) =>
        && SignSecret(a) in s.store.entries && at <= s.store.now
        && s.store.entries[SignSecret(a)] == Entry(Str(secret), if cfg.ttl > 0 then Some(at + cfg.ttl) else None)
  }

  /** No token lives longer than one lifetime from now. */
  ghost predicate TokensBounded(cfg: Config, s: Sys) {
    forall j :: j in s.issued ==> s.issued[j].jti == j && s.issued[j].exp <= s.store.now + cfg.ttl
  }

  /** The request `r` has passed the signature check as the holder of `c`. */
  ghost predicate Passed(log: seq<Logged>, tid: nat, r: Request, c: Claims) {
    exists i :: PassedAt(log, tid, r, c, i)
  }

  predicate PassedAt(log: seq<Logged>, tid: nat, r: Request, c: Claims, i: nat) {
    && i < |log| && log[i].tid == tid && log[i].event.SignPassed?
    && log[i].event.r == r && log[i].event.claims == c
  }

  predicate Genuine(cfg: Config, s: Sys, r: Request, c: Claims) {
    r.bearer == Signed(c) && c.jti in s.issued && s.issued[c.jti] == c && cfg.ttl > 0
  }

  ghost predicate ThreadOk(cfg: Config, s: Sys, tid: nat, l: Local) {
    match l
    case SignClock(r) => Presentable(s, r.bearer)
    case SignNonce(r, _, _) => Presentable(s, r.bearer)
    case SignToken(r) => Presentable(s, r.bearer)
    case SignSecretRead(r, c) => Genuine(cfg, s, r, c)
    case AuthToken(r) =>
      Presentable(s, r.bearer) && (r.bearer.Signed? ==> Passed(s.log, tid, r, r.bearer.claims))
    case AuthActive(r, c) => Genuine(cfg, s, r, c) && Passed(s.log, tid, r, c)
    case AuthRefresh(r, c) => Genuine(cfg, s, r, c) && Passed(s.log, tid, r, c)
    case AuthHalfLife(r, c) => Genuine(cfg, s, r, c) && Passed(s.log, tid, r, c)
    case ReissueSet(r, c, _) => Genuine(cfg, s, r, c) && Passed(s.log, tid, r, c)
    case ReissueDel(r, c, _) => Genuine(cfg, s, r, c) && Passed(s.log, tid, r, c)
    case Handler(r, c, _) => Genuine(cfg, s, r, c) && Passed(s.log, tid, r, c)
    case _ => true
  }

  ghost predicate ThreadsOk(cfg: Config, s: Sys) {
    forall tid :: tid in s.threads ==> ThreadOk(cfg, s, tid, s.threads[tid])
  }

  /** The signature check at position `i` used the secret of a session open at that moment. */
  ghost predicate PassOk(cfg: Config, log: seq<Logged>, i: nat)
    requires i < |log|
  {
    match log[i].event
    case SignPassed(r, c, secret) =>
      && r.bearer == Signed(c) && r.sig == Signing.CalcSign(cfg.mac, r.fields, secret)
      && LastSession(log[..i], c.admin).Some?
      && LastSession(log[..i], c.admin).value.0 == secret
      && LastSession(log[..i], c.admin).value.1 <= log[i].at <= LastSession(log[..i], c.admin).value.1 + cfg.ttl
    case Handled(r, c) => Passed(log[..i], log[i].tid, r, c) && r.bearer == Signed(c)
    case _ => true
  }

  ghost predicate LogOk(cfg: Config, s: Sys) {
    && (forall i :: 0 <= i < |s.log| ==> PassOk(cfg, s.log, i))
    && (forall i :: 0 <= i < |s.log| ==> s.log[i].at <= s.store.now)
  }

  ghost predicate Inv(cfg: Config, s: Sys) {
    SecretsMatch(cfg, s) && TokensBounded(cfg, s) && ThreadsOk(cfg, s) && LogOk(cfg, s)
  }

  // ---------- It holds in every run ----------

  lemma PassedMono(log: seq<Logged>, l: Logged, tid: nat, r: Request, c: Claims)
    requires Passed(log, tid, r, c)
    ensures Passed(log + [l], tid, r, c)
  {
    var i :| PassedAt(log, tid, r, c, i);
    assert PassedAt(log + [l], tid, r, c, i);
  }

  /** One command changes the secret of an admin only by the event it logs. */
  lemma SecretEffect(cfg: Config, st: Store, l: Local, env: Env, a: nat)
    ensures
      var e := Step(cfg, st, l, env);
      && e.store.now == st.now
      && (if e.event.SecretIssued? && e.event.admin == a then
            && SignSecret(a) in e.store.entries
            && e.store.entries[SignSecret(a)]
               == Entry(Str(e.event.secret), if cfg.ttl > 0 then Some(st.now + cfg.ttl) else None)
          else if e.event.SecretCleared? && e.event.admin == a then SignSecret(a) !in e.store.entries
          else
            && (SignSecret(a) in e.store.entries <==> SignSecret(a) in st.entries)
            && (SignSecret(a) in st.entries ==> e.store.entries[SignSecret(a)] == st.entries[SignSecret(a)]))
  {
  }

  lemma SecretsStep(cfg: Config, s: Sys, tid: nat, env: Env)
    requires Inv(cfg, s) && Enabled(cfg, s, Run(tid, env))
    ensures SecretsMatch(cfg, Apply(cfg, s, Run(tid, env)))
  {
    var s' := Apply(cfg, s, Run(tid, env));
    var e := Step(cfg, s.store, s.threads[tid], env);
    forall a: nat {:trigger LastSession(s'.log, a)}
      ensures
        match LastSession(s'.log, a)
        case None => SignSecret(a) !in s'.store.entries
        case Some((secret, at)) =>
          && SignSecret(a) in s'.store.entries && at <= s'.store.now
          && s'.store.entries[SignSecret(a)] == Entry(Str(secret), if cfg.ttl > 0 then Some(at + cfg.ttl) else None)
    {
      LastSessionStep(s.log, Logged(tid, s.store.now, e.event), a);
      SecretEffect(cfg, s.store, s.threads[tid], env, a);
      assert LastSession(s.log, a) == LastSession(s.log, a);
    }
  }

  lemma ThreadOkMono(cfg: Config, s: Sys, s': Sys, l: Logged, tid: nat, x: Local)
    requires ThreadOk(cfg, s, tid, x) && s'.log == s.log + [l]
    requires forall j :: j in s.issued ==> j in s'.issued && s'.issued[j] == s.issued[j]
    ensures ThreadOk(cfg, s', tid, x)
  {
    forall r, c | Passed(s.log, tid, r, c) ensures Passed(s'.log, tid, r, c) {
      PassedMono(s.log, l, tid, r, c);
    }
  }

  /** A request on its way through Sign. */
  lemma SignThreadStep(cfg: Config, s: Sys, tid: nat, env: Env)
    requires Inv(cfg, s) && Enabled(cfg, s, Run(tid, env))
    requires s.threads[tid].SignClock? || s.threads[tid].SignNonce? || s.threads[tid].SignToken?
    ensures ThreadOk(cfg, s, tid, Step(cfg, s.store, s.threads[tid], env).next)
  {
    assert ThreadOk(cfg, s, tid, s.threads[tid]);
  }

  /** The comparison puts the pass on the log. */
  lemma ComparisonStep(cfg: Config, s: Sys, tid: nat, env: Env)
    requires Inv(cfg, s) && Enabled(cfg, s, Run(tid, env)) && s.threads[tid].SignSecretRead?
    ensures ThreadOk(cfg, Apply(cfg, s, Run(tid, env)), tid, Step(cfg, s.store, s.threads[tid], env).next)
  {
    var x := s.threads[tid];
    assert ThreadOk(cfg, s, tid, x);
    if Step(cfg, s.store, x, env).next.AuthToken? {
      assert PassedAt(Apply(cfg, s, Run(tid, env)).log, tid, x.r, x.claims, |s.log|);
    }
  }

  predicate BehindSign(l: Local) {
    !l.SignClock? && !l.SignNonce? && !l.SignToken? && !l.SignSecretRead?
  }

  /** A request behind Sign stays what its pass says it is. */
  lemma AuthThreadStep(cfg: Config, s: Sys, tid: nat, env: Env)
    requires Inv(cfg, s) && Enabled(cfg, s, Run(tid, env))
    requires BehindSign(s.threads[tid])
    ensures ThreadOk(cfg, s, tid, Step(cfg, s.store, s.threads[tid], env).next)
  {
    assert ThreadOk(cfg, s, tid, s.threads[tid]);
  }

  lemma ThreadStep(cfg: Config, s: Sys, tid: nat, env: Env)
    requires Inv(cfg, s) && Enabled(cfg, s, Run(tid, env))
    ensures ThreadOk(cfg, Apply(cfg, s, Run(tid, env)), tid, Step(cfg, s.store, s.threads[tid], env).next)
  {
    var x := s.threads[tid];
    var e := Step(cfg, s.store, x, env);
    if x.SignSecretRead? {
      ComparisonStep(cfg, s, tid, env);
    } else {
      if x.SignClock? || x.SignNonce? || x.SignToken? {
        SignThreadStep(cfg, s, tid, env);
      } else {
        AuthThreadStep(cfg, s, tid, env);
      }
      ThreadOkMono(cfg, s, Apply(cfg, s, Run(tid, env)), Logged(tid, s.store.now, e.event), tid, e.next);
    }
  }

  lemma ThreadsStep(cfg: Config, s: Sys, tid: nat, env: Env)
    requires Inv(cfg, s) && Enabled(cfg, s, Run(tid, env))
    ensures ThreadsOk(cfg, Apply(cfg, s, Run(tid, env)))
  {
    var s' := Apply(cfg, s, Run(tid, env));
    ThreadStep(cfg, s, tid, env);
    forall t | t in s'.threads && t != tid ensures ThreadOk(cfg, s', t, s'.threads[t]) {
      ThreadOkMono(cfg, s, s', s'.log[|s.log|], t, s.threads[t]);
    }
  }

  lemma LogStep(cfg: Config, s: Sys, tid: nat, env: Env)
    requires Inv(cfg, s) && Enabled(cfg, s, Run(tid, env))
    ensures LogOk(cfg, Apply(cfg, s, Run(tid, env)))
  {
    var s' := Apply(cfg, s, Run(tid, env));
    var n := |s.log|;
    forall i | 0 <= i <= n ensures PassOk(cfg, s'.log, i) {
      if i < n {
        assert PassOk(cfg, s.log, i);
        assert s'.log[..i] == s.log[..i];
      } else {
        assert s'.log[..n] == s.log;
        assert ThreadOk(cfg, s, tid, s.threads[tid]);
        if s.threads[tid].SignSecretRead? {
          assert LastSession(s.log, s.threads[tid].claims.admin) == LastSession(s.log, s.threads[tid].claims.admin);
        }
      }
    }
  }

  lemma QuietStep(cfg: Config, s: Sys, a: Action)
    requires Inv(cfg, s) && Enabled(cfg, s, a) && !a.Run?
    ensures Inv(cfg, Apply(cfg, s, a))
  {
    var s' := Apply(cfg, s, a);
    assert ThreadsOk(cfg, s') by {
      forall t | t in s'.threads ensures ThreadOk(cfg, s', t, s'.threads[t]) {
        if t in s.threads {
          assert ThreadOk(cfg, s, t, s.threads[t]);
        }
      }
    }
  }

  lemma InvStep(cfg: Config, s: Sys, a: Action)
    requires Inv(cfg, s)
    ensures Inv(cfg, Apply(cfg, s, a))
  {
    if Enabled(cfg, s, a) {
      match a {
        case Run(tid, env) =>
          SecretsStep(cfg, s, tid, env);
          ThreadsStep(cfg, s, tid, env);
          LogStep(cfg, s, tid, env);
        case _ =>
          QuietStep(cfg, s, a);
      }
    }
  }

  lemma {:induction false} Always(cfg: Config, now: int, acts: seq<Action>)
    ensures
      var s := Exec(cfg, Initial(now), acts);
      SecretsMatch(cfg, s) && TokensBounded(cfg, s) && ThreadsOk(cfg, s) && LogOk(cfg, s)
  {
    if acts != [] {
      Always(cfg, now, acts[..|acts| - 1]);
      InvStep(cfg, Exec(cfg, Initial(now), acts[..|acts| - 1]), acts[|acts| - 1]);
    }
  }

  // ---------- The theorems ----------

  /**
   In any run under any interleaving: the secret of an admin can be read exactly when the admin's last session
   event is a login no more than one lifetime old, and then it is the secret that login issued. (A lifetime of
   zero or less means no expiry in Redis.)
   */
  lemma SecretReadable(cfg: Config, now: int, acts: seq<Action>, admin: nat, secret: string)
    ensures
      var s := Exec(cfg, Initial(now), acts);
      s.store.Get(SignSecret(admin)) == Some(Str(secret))
      <==> (&& LastSession(s.log, admin).Some?
            && LastSession(s.log, admin).value.0 == secret
            && (cfg.ttl > 0 ==> s.store.now <= LastSession(s.log, admin).value.1 + cfg.ttl))
  {
    Always(cfg, now, acts);
  }

  /** Position `k` is a protected handler running for `r` and `c`; position `i` its signature check; `j` the login. */
  ghost predicate Explained(cfg: Config, log: seq<Logged>, k: nat, i: nat, j: nat)
    requires k < |log| && log[k].event.Handled?
  {
    var r, c := log[k].event.r, log[k].event.claims;
    && j < i < k
    && log[i].tid == log[k].tid && log[i].event.SignPassed? && log[i].event.r == r && log[i].event.claims == c
    && r.bearer == Signed(c)
    && r.sig == Signing.CalcSign(cfg.mac, r.fields, log[i].event.secret)
    && log[j].event == SecretIssued(c.admin, log[i].event.secret)
    && log[j].at <= log[i].at <= log[j].at + cfg.ttl
    && (forall m :: j < m < i ==> !Touches(log[m].event, c.admin))
  }

  /**
   Whenever a protected handler runs as an admin, its request passed the signature check (at `i`) within one
   lifetime after a login of that admin (at `j`), with no logout and no other login of that admin in between, and
   the signature was made with the secret that login issued.
   */
  lemma SessionWindowHolds(cfg: Config, now: int, acts: seq<Action>, k: nat) returns (i: nat, j: nat)
    requires k < |Exec(cfg, Initial(now), acts).log|
    requires Exec(cfg, Initial(now), acts).log[k].event.Handled?
    ensures Explained(cfg, Exec(cfg, Initial(now), acts).log, k, i, j)
  {
    Always(cfg, now, acts);
    var log := Exec(cfg, Initial(now), acts).log;
    var r, c := log[k].event.r, log[k].event.claims;
    assert PassOk(cfg, log, k);
    i :| PassedAt(log[..k], log[k].tid, r, c, i);
    assert PassOk(cfg, log, i);
    j := LastSessionMeaning(log[..i], c.admin);
  }

  /**
   For a request that nothing interrupts, the window reaches to the handler itself: no session event of the admin
   and no time lies between the signature check and the handler.
   */
  lemma UninterruptedWindow(cfg: Config, now: int, acts: seq<Action>, k: nat) returns (j: nat)
    requires
      var log := Exec(cfg, Initial(now), acts).log;
      && k < |log| && log[k].event.Handled?
      && forall i :: 0 <= i < k && log[i].tid == log[k].tid && log[i].event.SignPassed? ==>
           log[i].at == log[k].at && forall m :: i < m < k ==> log[m].tid == log[k].tid
    ensures
      var log := Exec(cfg, Initial(now), acts).log;
      var c := log[k].event.claims;
      && j < k && log[j].event.SecretIssued? && log[j].event.admin == c.admin
      && log[j].at <= log[k].at <= log[j].at + cfg.ttl
      && log[k].event.r.sig == Signing.CalcSign(cfg.mac, log[k].event.r.fields, log[j].event.secret)
      && forall m :: j < m < k && log[m].tid != log[k].tid ==> !Touches(log[m].event, c.admin)
  {
    var i;
    i, j := SessionWindowHolds(cfg, now, acts, k);
  }

  // ---------- The window at the handler ----------

  /** The action that wrote position `k` of the log, and the state it was taken in. */
  lemma {:induction false} WrittenBy(cfg: Config, s0: Sys, acts: seq<Action>, k: nat) returns (p: nat)
    requires |s0.log| <= k < |Exec(cfg, s0, acts).log|
    ensures p < |acts| && acts[p].Run?
    ensures
      var s := Exec(cfg, s0, acts[..p]);
      && Enabled(cfg, s, acts[p]) && s.log == Exec(cfg, s0, acts).log[..k]
      && Exec(cfg, s0, acts).log[k]
         == Logged(acts[p].tid, s.store.now, Step(cfg, s.store, s.threads[acts[p].tid], acts[p].env).event)
  {
    var n := |acts| - 1;
    var s := Exec(cfg, s0, acts[..n]);
    if k < |s.log| {
      p := WrittenBy(cfg, s0, acts[..n], k);
      assert acts[..n][..p] == acts[..p];
      assert s.log <= Exec(cfg, s0, acts).log;
    } else {
      p := n;
    }
  }

  /** `admin` has a session open at time `now` under `secret`, with no logout and no other login after its login. */
  ghost predicate OpenAt(cfg: Config, log: seq<Logged>, admin: nat, secret: string, now: int) {
    exists at: int, j: nat :: LoginAt(log, admin, secret, at, j) && now <= at + cfg.ttl
  }

  lemma {:induction false} LoginAtIsLast(log: seq<Logged>, admin: nat, secret: string, at: int, j: nat)
    requires LoginAt(log, admin, secret, at, j)
    ensures LastSession(log, admin) == Some((secret, at))
  {
    if j < |log| - 1 {
      LoginAtIsLast(log[..|log| - 1], admin, secret, at, j);
    }
  }

  lemma OpenIffReadable(cfg: Config, now: int, acts: seq<Action>, admin: nat, secret: string)
    requires cfg.ttl > 0
    ensures
      var s := Exec(cfg, Initial(now), acts);
      OpenAt(cfg, s.log, admin, secret, s.store.now) <==> s.store.Get(SignSecret(admin)) == Some(Str(secret))
  {
    var s := Exec(cfg, Initial(now), acts);
    SecretReadable(cfg, now, acts, admin, secret);
    if at: int, j: nat :| LoginAt(s.log, admin, secret, at, j) && s.store.now <= at + cfg.ttl {
      LoginAtIsLast(s.log, admin, secret, at, j);
    }
    if s.store.Get(SignSecret(admin)) == Some(Str(secret)) {
      var j := LastSessionMeaning(s.log, admin);
      assert LoginAt(s.log, admin, secret, LastSession(s.log, admin).value.1, j);
    }
  }

  /**
   The window at the moment the handler runs, exactly: the session whose secret signed the request (position `i` is the
   check) is open there if and only if that secret can still be read in the state the handler runs in, after the first
   `p` actions.
   */
  lemma WindowAtHandlerIff(cfg: Config, now: int, acts: seq<Action>, k: nat) returns (p: nat, i: nat)
    requires k < |Exec(cfg, Initial(now), acts).log|
    requires Exec(cfg, Initial(now), acts).log[k].event.Handled?
    ensures p < |acts| && i < k
    ensures
      var log := Exec(cfg, Initial(now), acts).log;
      var s := Exec(cfg, Initial(now), acts[..p]);
      var r, c := log[k].event.r, log[k].event.claims;
      && s.log == log[..k] && s.store.now == log[k].at && PassedAt(log, log[k].tid, r, c, i)
      && r.sig == Signing.CalcSign(cfg.mac, r.fields, log[i].event.secret)
      && (OpenAt(cfg, log[..k], c.admin, log[i].event.secret, log[k].at)
          <==> s.store.Get(SignSecret(c.admin)) == Some(Str(log[i].event.secret)))
  {
    var log := Exec(cfg, Initial(now), acts).log;
    var j;
    i, j := SessionWindowHolds(cfg, now, acts, k);
    p := WrittenBy(cfg, Initial(now), acts, k);
    Always(cfg, now, acts[..p]);
    var s := Exec(cfg, Initial(now), acts[..p]);
    assert ThreadOk(cfg, s, acts[p].tid, s.threads[acts[p].tid]);
    OpenIffReadable(cfg, now, acts[..p], log[k].event.claims.admin, log[i].event.secret);
  }
}
