/** The login-error counter under interleaving: how far it can overshoot, and who gives it its deadline. */
module Lockout {
  import opened Wrappers
  import opened Redis
  import opened Session
  import opened Interleaving

  /** The account whose login this request is running, from the limit check to its last command. */
  function LoginOf(l: Local): Option<string> {
    match l
    case LoginGate(a) => Some(a)
    case LoginLookup(a) => Some(a)
    case FailIncr(a) => Some(a)
    case FailExpire(a) => Some(a)
    case LoginReset(a, _) => Some(a)
    case LoginGenerate(a, _) => Some(a)
    case LoginList(token) => Some(token.account)
    case LoginSecret(token) => Some(token.account)
    case _ => None
  }

  /** Past the limit check, with a possible INCR still to come. */
  predicate MayCount(l: Local, account: string) {
    l == LoginLookup(account) || l == FailIncr(account)
  }

  function InFlight(s: Sys, account: string): set<nat> {
    set t | t in s.threads && LoginOf(s.threads[t]) == Some(account)
  }

  function Counting(s: Sys, account: string): set<nat> {
    set t | t in s.threads && MayCount(s.threads[t], account)
  }

  function Counter(s: Sys, account: string): int {
    s.store.GetInt(LoginErr(account))
  }

  // ---------- The bound ----------

  /** The counter together with the increments that may still come. */
  ghost predicate Bounded(cfg: Config, s: Sys, account: string, n: nat) {
    Counter(s, account) + |Counting(s, account)| <= cfg.errLimit - 1 + n
  }

  lemma CountingSubset(s: Sys, account: string)
    ensures |Counting(s, account)| <= |InFlight(s, account)|
  {
    Subset(Counting(s, account), InFlight(s, account));
  }

  lemma {:induction false} Subset(a: set<nat>, b: set<nat>)
    requires a <= b
    ensures |a| <= |b|
  {
    if a != {} {
      var x :| x in a;
      Subset(a - {x}, b - {x});
    }
  }

  /** One command keeps counters numbers from one on. */
  lemma NaturalStep(cfg: Config, st: Store, l: Local, env: Env)
    requires Natural(st)
    ensures Natural(Step(cfg, st, l, env).store) && Step(cfg, st, l, env).store.now == st.now
  {
  }

  /** Only the limit check lets a request on to an INCR. */
  lemma GateEffect(cfg: Config, st: Store, l: Local, env: Env, account: string)
    ensures
      var e := Step(cfg, st, l, env);
      !MayCount(l, account) && MayCount(e.next, account) ==>
        l == LoginGate(account) && e.store == st && !(cfg.errLimit > 0 && st.GetInt(LoginErr(account)) >= cfg.errLimit)
  {
  }

  /** How one command moves the counter of an account and the request's own share of the bound. */
  lemma CounterEffect(cfg: Config, st: Store, l: Local, env: Env, account: string)
    requires Natural(st)
    ensures
      var e := Step(cfg, st, l, env);
      if l == FailIncr(account) then
        e.store.GetInt(LoginErr(account)) == st.GetInt(LoginErr(account)) + 1 && !MayCount(e.next, account)
      else e.store.GetInt(LoginErr(account)) <= st.GetInt(LoginErr(account))
  {
  }

  /** Counters hold numbers from one on. */
  ghost predicate Natural(st: Store) {
    forall a :: LoginErr(a) in st.entries ==>
      st.entries[LoginErr(a)].value.Num? && st.entries[LoginErr(a)].value.n >= 1
  }

  lemma CountingAfter(s: Sys, tid: nat, e: Effect, account: string)
    requires tid in s.threads
    ensures
      var before, after := Counting(s, account), Counting(After(s, tid, e), account);
      && (MayCount(e.next, account) ==> after == before + {tid})
      && (!MayCount(e.next, account) ==> after == before - {tid})
      && (tid in before <==> MayCount(s.threads[tid], account))
  {
  }

  lemma BoundRun(cfg: Config, s: Sys, tid: nat, env: Env, account: string, n: nat)
    requires cfg.errLimit > 0 && Natural(s.store) && Bounded(cfg, s, account, n) && Enabled(cfg, s, Run(tid, env))
    requires |InFlight(Apply(cfg, s, Run(tid, env)), account)| <= n
    ensures
      var s' := Apply(cfg, s, Run(tid, env));
      Natural(s'.store) && Bounded(cfg, s', account, n)
  {
    var s' := Apply(cfg, s, Run(tid, env));
    var l := s.threads[tid];
    var e := Step(cfg, s.store, l, env);
    assert s' == After(s, tid, e);
    NaturalStep(cfg, s.store, l, env);
    GateEffect(cfg, s.store, l, env, account);
    CounterEffect(cfg, s.store, l, env, account);
    CountingAfter(s, tid, e, account);
    CountingSubset(s', account);
  }

  lemma BoundStep(cfg: Config, s: Sys, a: Action, account: string, n: nat)
    requires cfg.errLimit > 0 && Natural(s.store) && Bounded(cfg, s, account, n)
    requires |InFlight(Apply(cfg, s, a), account)| <= n
    ensures Natural(Apply(cfg, s, a).store) && Bounded(cfg, Apply(cfg, s, a), account, n)
  {
    var s' := Apply(cfg, s, a);
    if Enabled(cfg, s, a) {
      match a {
        case Tick(_) =>
          assert Counting(s', account) == Counting(s, account);
        case Spawn(tid, r) =>
          assert Counting(s', account) == Counting(s, account);
        case Run(tid, env) =>
          BoundRun(cfg, s, tid, env, account, n);
      }
    }
  }

  /** At most `n` logins of `account` are in flight after every prefix of the run. */
  ghost predicate AtMost(cfg: Config, now: int, acts: seq<Action>, account: string, n: nat) {
    forall k :: 0 <= k <= |acts| ==> |InFlight(Exec(cfg, Initial(now), acts[..k]), account)| <= n
  }

  lemma {:induction false} Always(cfg: Config, now: int, acts: seq<Action>, account: string, n: nat)
    requires cfg.errLimit > 0 && AtMost(cfg, now, acts, account, n)
    ensures Natural(Exec(cfg, Initial(now), acts).store)
    ensures Bounded(cfg, Exec(cfg, Initial(now), acts), account, n)
  {
    if acts == [] {
      assert Counting(Initial(now), account) == {};
    } else {
      var k := |acts| - 1;
      forall i | 0 <= i <= k ensures |InFlight(Exec(cfg, Initial(now), acts[..k][..i]), account)| <= n {
        assert acts[..k][..i] == acts[..i];
      }
      Always(cfg, now, acts[..k], account, n);
      assert acts[..|acts|] == acts;
      BoundStep(cfg, Exec(cfg, Initial(now), acts[..k]), acts[k], account, n);
    }
  }

  /**
   With a positive limit, and at most `n` logins of an account in flight at any time, the failure counter of that
   account never exceeds `limit - 1 + n`, however the commands of all requests interleave.
   */
  lemma {:induction false} CounterBound(cfg: Config, now: int, acts: seq<Action>, account: string, n: nat)
    requires cfg.errLimit > 0 && AtMost(cfg, now, acts, account, n)
    ensures Counter(Exec(cfg, Initial(now), acts), account) <= cfg.errLimit - 1 + n
  {
    Always(cfg, now, acts, account, n);
  }

  // ---------- The deadline ----------

  /** The request that made the present counter of `account`: the last one whose INCR returned 1. */
  function Creator(log: seq<Logged>, account: string): Option<nat> {
    if log == [] then None
    else
      var l := log[|log| - 1];
      if l.event == Counted(account, 1) then Some(l.tid) else Creator(log[..|log| - 1], account)
  }

  /** A counter that would never expire is about to get its deadline from the request that created it. */
  ghost predicate DeadlinePending(s: Sys) {
    forall a {:trigger LoginErr(a)} :: LoginErr(a) in s.store.entries && s.store.entries[LoginErr(a)].deadline.None? ==>
      && Creator(s.log, a).Some? && Creator(s.log, a).value in s.threads
      && s.threads[Creator(s.log, a).value] == FailExpire(a)
  }

  lemma DeadlineEffect(cfg: Config, st: Store, l: Local, env: Env, account: string)
    requires Natural(st)
    ensures
      var e := Step(cfg, st, l, env);
      && (e.event == Counted(account, 1) ==> e.next == FailExpire(account))
      && (LoginErr(account) in e.store.entries && e.store.entries[LoginErr(account)].deadline.None? ==>
            if e.event == Counted(account, 1) then true
            else
              && LoginErr(account) in st.entries && st.entries[LoginErr(account)].deadline.None?
              && l != FailExpire(account))
  {
  }

  lemma DeadlineRun(cfg: Config, s: Sys, tid: nat, env: Env)
    requires Natural(s.store) && DeadlinePending(s) && Enabled(cfg, s, Run(tid, env))
    ensures
      var s' := Apply(cfg, s, Run(tid, env));
      Natural(s'.store) && DeadlinePending(s')
  {
    var s' := Apply(cfg, s, Run(tid, env));
    var l := s.threads[tid];
    var e := Step(cfg, s.store, l, env);
    NaturalStep(cfg, s.store, l, env);
    forall a {:trigger LoginErr(a)} | LoginErr(a) in s'.store.entries && s'.store.entries[LoginErr(a)].deadline.None?
      ensures Creator(s'.log, a).Some? && Creator(s'.log, a).value in s'.threads
      ensures s'.threads[Creator(s'.log, a).value] == FailExpire(a)
    {
      DeadlineEffect(cfg, s.store, l, env, a);
      assert s'.log[..|s.log|] == s.log;
    }
  }

  lemma {:induction false} DeadlineAlways(cfg: Config, now: int, acts: seq<Action>)
    ensures Natural(Exec(cfg, Initial(now), acts).store)
    ensures DeadlinePending(Exec(cfg, Initial(now), acts))
  {
    if acts != [] {
      var s := Exec(cfg, Initial(now), acts[..|acts| - 1]);
      var a := acts[|acts| - 1];
      DeadlineAlways(cfg, now, acts[..|acts| - 1]);
      if Enabled(cfg, s, a) && a.Run? {
        DeadlineRun(cfg, s, a.tid, a.env);
      }
    }
  }

  /**
   Under any interleaving, a live counter without a deadline has a pending Expire by the request that created it;
   so once no failed login of the account is in flight, its counter has a deadline or is gone.
   */
  lemma {:induction false} CounterExpires(cfg: Config, now: int, acts: seq<Action>, account: string)
    ensures
      var s := Exec(cfg, Initial(now), acts);
      s.store.Alive(LoginErr(account)) ==>
        || s.store.entries[LoginErr(account)].deadline.Some?
        || (&& Creator(s.log, account).Some? && Creator(s.log, account).value in InFlight(s, account)
            && s.threads[Creator(s.log, account).value] == FailExpire(account))
  {
    DeadlineAlways(cfg, now, acts);
  }
}
