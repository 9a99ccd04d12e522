/**
 Requests interleaved at single Redis commands. A run is any sequence of actions: time passes, a request arrives,
 or some request sends its next command. Actions that cannot happen are no-ops: a request id is used once, a client
 only presents tokens the service has signed, and minted token ids are fresh.
 */
module Interleaving {
  import opened Redis
  import opened Session

  datatype Action = Tick(d: nat) | Spawn(tid: nat, r: Request) | Run(tid: nat, env: Env)

  datatype Logged = Logged(tid: nat, at: int, event: Event)

  datatype Sys = Sys(
    store: Store,
    threads: map<nat, Local>,
    issued: map<string, Claims>,   // every token ever minted, by its id
    listed: set<string>,           // every token id ever put on the whitelist
    log: seq<Logged>)

  function Initial(now: int): Sys {
    Sys(Store(now, map[]), map[], map[], {}, [])
  }

  predicate Presentable(s: Sys, b: Bearer) {
    b.Signed? ==> b.claims.jti in s.issued && s.issued[b.claims.jti] == b.claims
  }

  predicate Enabled(cfg: Config, s: Sys, a: Action) {
    match a
    case Tick(_) => true
    case Spawn(tid, r) => tid !in s.threads && Presentable(s, r.bearer)
    case Run(tid, env) =>
      && tid in s.threads && !s.threads[tid].Done?
      && var e := Step(cfg, s.store, s.threads[tid], env);
         e.event.Minted? ==> e.event.token.jti !in s.issued
  }

  function After(s: Sys, tid: nat, e: Effect): Sys {
    Sys(e.store,
        s.threads[tid := e.next],
        if e.event.Minted? then s.issued[e.event.token.jti := e.event.token] else s.issued,
        if e.event.Listed? then s.listed + {e.event.jti} else s.listed,
        s.log + [Logged(tid, s.store.now, e.event)])
  }

  function Apply(cfg: Config, s: Sys, a: Action): Sys {
    if !Enabled(cfg, s, a) then s
    else match a
      case Tick(d) => s.(store := s.store.(now := s.store.now + d))
      case Spawn(tid, r) => s.(threads := s.threads[tid := StartSign(r)])
      case Run(tid, env) => After(s, tid, Step(cfg, s.store, s.threads[tid], env))
  }

  function Exec(cfg: Config, s: Sys, acts: seq<Action>): Sys {
    if acts == [] then s else Apply(cfg, Exec(cfg, s, acts[..|acts| - 1]), acts[|acts| - 1])
  }

  lemma {:induction false} ExecAppend(cfg: Config, s: Sys, xs: seq<Action>, ys: seq<Action>)
    ensures Exec(cfg, s, xs + ys) == Exec(cfg, Exec(cfg, s, xs), ys)
  {
    if ys == [] {
      assert xs + ys == xs;
    } else {
      var n := |xs + ys|;
      assert (xs + ys)[..n - 1] == xs + ys[..|ys| - 1];
      ExecAppend(cfg, s, xs, ys[..|ys| - 1]);
    }
  }

  lemma ExecOne(cfg: Config, s: Sys, xs: seq<Action>, a: Action)
    ensures Exec(cfg, s, xs + [a]) == Apply(cfg, Exec(cfg, s, xs), a)
  {
    assert (xs + [a])[..|xs|] == xs;
  }

  /** The log is append-only. */
  lemma {:induction false} LogGrows(cfg: Config, s: Sys, acts: seq<Action>)
    ensures s.log <= Exec(cfg, s, acts).log
  {
    if acts != [] {
      LogGrows(cfg, s, acts[..|acts| - 1]);
    }
  }

  /** Once a request has minted its token, its remaining steps mint no other. */
  predicate MayMint(l: Local) {
    match l
    case ReissueSet(_, _, _) => false
    case ReissueDel(_, _, _) => false
    case Handler(_, _, _) => false
    case LogoutSecret(_, _) => false
    case LogoutToken(_, _) => false
    case FailIncr(_) => false
    case FailExpire(_) => false
    case LoginList(_) => false
    case LoginSecret(_) => false
    case Done(_) => false
    case _ => true
  }

  lemma MintsOnce(cfg: Config, st: Store, l: Local, env: Env)
    ensures !MayMint(l) ==> !Step(cfg, st, l, env).event.Minted? && !MayMint(Step(cfg, st, l, env).next)
    ensures Step(cfg, st, l, env).event.Minted? ==>
      Step(cfg, st, l, env).event.token.jti == env.jti && !MayMint(Step(cfg, st, l, env).next)
  {
  }

  function Repeat(a: Action, n: nat): (acts: seq<Action>)
    ensures |acts| == n && forall i :: 0 <= i < n ==> acts[i] == a
  {
    seq(n, i => a)
  }

  lemma RepeatStep(cfg: Config, s: Sys, a: Action, n: nat)
    requires n > 0
    ensures Exec(cfg, s, Repeat(a, n)) == Exec(cfg, Apply(cfg, s, a), Repeat(a, n - 1))
  {
    assert Repeat(a, n) == [a] + Repeat(a, n - 1);
    ExecAppend(cfg, s, [a], Repeat(a, n - 1));
    ExecOne(cfg, s, [], a);
    assert [] + [a] == [a];
  }

  /** One command of a request that is not done yet; what is left of it is what was left without that command. */
  lemma AloneStep(cfg: Config, s: Sys, tid: nat, env: Env)
    requires tid in s.threads && !s.threads[tid].Done?
    requires env.jti !in s.issued || !MayMint(s.threads[tid])
    ensures
      var s' := Apply(cfg, s, Run(tid, env));
      && tid in s'.threads && Rank(s'.threads[tid]) < Rank(s.threads[tid])
      && s'.threads == s.threads[tid := s'.threads[tid]]
      && (env.jti !in s'.issued || !MayMint(s'.threads[tid]))
      && Alone(cfg, s'.store, s'.threads[tid], env) == Alone(cfg, s.store, s.threads[tid], env)
  {
    var l := s.threads[tid];
    StepDescends(cfg, s.store, l, env);
    MintsOnce(cfg, s.store, l, env);
    Advance(cfg, s.store, l, env);
  }

  /**
   A request that is the only one to run behaves as `Alone` says, so `AuthService.Serve` is one of the runs of the
   interleaved system.
   */
  lemma {:induction false} AloneIsARun(cfg: Config, s: Sys, tid: nat, env: Env, n: nat)
    requires tid in s.threads && n >= Rank(s.threads[tid])
    requires env.jti !in s.issued || !MayMint(s.threads[tid])
    ensures
      var t := Exec(cfg, s, Repeat(Run(tid, env), n));
      var (st, o) := Alone(cfg, s.store, s.threads[tid], env);
      t.store == st && t.threads == s.threads[tid := Done(o)]
    decreases n
  {
    if n == 0 {
      assert s.threads == s.threads[tid := s.threads[tid]];
    } else {
      var a := Run(tid, env);
      RepeatStep(cfg, s, a, n);
      if !s.threads[tid].Done? {
        AloneStep(cfg, s, tid, env);
      }
      AloneIsARun(cfg, Apply(cfg, s, a), tid, env, n - 1);
    }
  }
}
