/** The bound of `Lockout.CounterBound` is reached: a run for every limit and every number of logins in flight. */
module LockoutReached {
  import opened Redis
  import opened Session
  import opened Interleaving
  import opened RunBuilding
  import opened Lockout

  const ACCOUNT: string := "a"

  // ---------- Runs with few logins in flight ----------

  ghost predicate Within(cfg: Config, s: Sys, acts: seq<Action>, n: nat) {
    forall k :: 0 <= k <= |acts| ==> |InFlight(Exec(cfg, s, acts[..k]), ACCOUNT)| <= n
  }

  /** Some run leads from `s` to `s'` with at most `n` logins in flight all the way. */
  ghost predicate ReachesWithin(cfg: Config, s: Sys, s': Sys, n: nat) {
    exists acts :: Within(cfg, s, acts, n) && Exec(cfg, s, acts) == s'
  }

  lemma WithinTransitive(cfg: Config, s: Sys, s1: Sys, s2: Sys, n: nat)
    requires ReachesWithin(cfg, s, s1, n) && ReachesWithin(cfg, s1, s2, n)
    ensures ReachesWithin(cfg, s, s2, n)
  {
    var a :| Within(cfg, s, a, n) && Exec(cfg, s, a) == s1;
    var b :| Within(cfg, s1, b, n) && Exec(cfg, s1, b) == s2;
    forall k | 0 <= k <= |a + b| ensures |InFlight(Exec(cfg, s, (a + b)[..k]), ACCOUNT)| <= n {
      if k <= |a| {
        assert (a + b)[..k] == a[..k];
      } else {
        assert (a + b)[..k] == a + b[..k - |a|];
        ExecAppend(cfg, s, a, b[..k - |a|]);
      }
    }
    ExecAppend(cfg, s, a, b);
    assert Within(cfg, s, a + b, n);
  }

  lemma WithinOne(cfg: Config, s: Sys, a: Action, n: nat)
    requires |InFlight(s, ACCOUNT)| <= n && |InFlight(Apply(cfg, s, a), ACCOUNT)| <= n
    ensures ReachesWithin(cfg, s, Apply(cfg, s, a), n)
  {
    var acts := [a];
    OneAction(cfg, s, a);
    forall k | 0 <= k <= |acts| ensures |InFlight(Exec(cfg, s, acts[..k]), ACCOUNT)| <= n {
      if k == 0 {
        assert acts[..0] == [];
      } else {
        assert acts[..1] == acts;
      }
    }
    assert Within(cfg, s, acts, n);
  }

  lemma {:induction false} NoMintPrefix(cfg: Config, st: Store, l: Local, env: Env, k: nat, j: nat)
    requires NoMint(cfg, st, l, env, k) && j <= k
    ensures NoMint(cfg, st, l, env, j)
    decreases k
  {
    if j > 0 {
      var e := Step(cfg, st, l, env);
      NoMintPrefix(cfg, e.store, e.next, env, k - 1, j - 1);
    }
  }

  /** While one request walks, the others stay in flight or not as they were. */
  lemma WalkWithin(cfg: Config, s: Sys, tid: nat, env: Env, st: Store, l: Local, n: nat) returns (s': Sys)
    requires tid in s.threads && Leads(cfg, s.store, s.threads[tid], env, st, l)
    requires |InFlight(s, ACCOUNT) - {tid}| < n
    ensures ReachesWithin(cfg, s, s', n)
    ensures s'.store == st && s'.threads == s.threads[tid := l]
  {
    var k: nat :| LeadsIn(cfg, s.store, s.threads[tid], env, k, st, l);
    var acts := Repeat(Run(tid, env), k);
    forall j | 0 <= j <= k ensures |InFlight(Exec(cfg, s, acts[..j]), ACCOUNT)| <= n {
      assert acts[..j] == Repeat(Run(tid, env), j);
      NoMintPrefix(cfg, s.store, s.threads[tid], env, k, j);
      WalkIsARun(cfg, s, tid, env, j);
      OthersStay(s, Exec(cfg, s, acts[..j]), tid);
    }
    WalkIsARun(cfg, s, tid, env, k);
    s' := Exec(cfg, s, acts);
    assert Within(cfg, s, acts, n);
  }

  lemma OthersStay(s: Sys, s': Sys, tid: nat)
    requires tid in s'.threads && s'.threads == s.threads[tid := s'.threads[tid]]
    ensures |InFlight(s', ACCOUNT)| <= |InFlight(s, ACCOUNT) - {tid}| + 1
  {
    Subset(InFlight(s', ACCOUNT), (InFlight(s, ACCOUNT) - {tid}) + {tid});
  }

  // ---------- Failing logins ----------

  function Attempt(cfg: Config, i: nat): Request {
    SignedRequest(cfg, cfg.staticSecret, 0, Ticket(i), NoToken, Login(ACCOUNT, "p"))
  }

  /** The counter is stored as `n`, and nothing is stored for zero. */
  predicate CounterIs(st: Store, n: nat) {
    if n == 0 then LoginErr(ACCOUNT) !in st.entries
    else st.Alive(LoginErr(ACCOUNT)) && st.entries[LoginErr(ACCOUNT)].value == Num(n)
  }

  /** Time 0, `i` requests so far, and the nonces of later attempts are free. */
  ghost predicate Fresh(s: Sys, i: nat) {
    && s.store.now == 0 && (forall t :: t in s.threads ==> t < i)
    && forall j: nat :: j >= i ==> !s.store.Alive(Nonce(Ticket(j)))
  }

  lemma FreshAfter(s: Sys, i: nat, s': Sys)
    requires Fresh(s, i) && s'.store == Noted(s.store, Ticket(i)) && s'.threads.Keys == s.threads.Keys + {i}
    ensures Fresh(s', i + 1)
  {
    forall j: nat | j >= i + 1 ensures !s'.store.Alive(Nonce(Ticket(j))) {
      assert |Ticket(j)| != |Ticket(i)|;
    }
  }

  const FAIL: Env := Env(NotFound, "", "")

  lemma AttemptLeads(cfg: Config, st: Store, i: nat, n: nat)
    requires MacAnswers(cfg) && cfg.staticSecret != "" && st.now == 0
    requires !st.Alive(Nonce(Ticket(i))) && CounterIs(st, n) && n < cfg.errLimit
    ensures Leads(cfg, st, SignClock(Attempt(cfg, i)), FAIL, Noted(st, Ticket(i)), FailIncr(ACCOUNT))
  {
    var st1, l := Noted(st, Ticket(i)), FailIncr(ACCOUNT);
    SignedFits(cfg, cfg.staticSecret, 0, Ticket(i), NoToken, Login(ACCOUNT, "p"));
    Here(cfg, st1, l, FAIL);
    First(cfg, st1, LoginLookup(ACCOUNT), FAIL, st1, l, st1, l);
    assert st1.GetInt(LoginErr(ACCOUNT)) == n;
    First(cfg, st1, LoginGate(ACCOUNT), FAIL, st1, LoginLookup(ACCOUNT), st1, l);
    StaticLeads(cfg, st, Attempt(cfg, i), FAIL, st1, l);
  }

  lemma Appear(cfg: Config, s: Sys, i: nat, n: nat) returns (s': Sys)
    requires MacAnswers(cfg) && cfg.staticSecret != "" && i !in s.threads && |InFlight(s, ACCOUNT)| <= n
    ensures ReachesWithin(cfg, s, s', n) && s'.store == s.store
    ensures s'.threads == s.threads[i := SignClock(Attempt(cfg, i))] && InFlight(s', ACCOUNT) == InFlight(s, ACCOUNT)
  {
    SignedFits(cfg, cfg.staticSecret, 0, Ticket(i), NoToken, Login(ACCOUNT, "p"));
    s' := Apply(cfg, s, Spawn(i, Attempt(cfg, i)));
    assert s'.threads == s.threads[i := SignClock(Attempt(cfg, i))];
    assert InFlight(s', ACCOUNT) == InFlight(s, ACCOUNT);
    WithinOne(cfg, s, Spawn(i, Attempt(cfg, i)), n);
  }

  lemma NotedKeepsCounter(st: Store, nonce: string, count: nat)
    requires CounterIs(st, count)
    ensures CounterIs(Noted(st, nonce), count)
  {
  }

  /** An attempt that has arrived gets past the limit check and stops in front of its INCR. */
  lemma ToCount(cfg: Config, s: Sys, i: nat, count: nat, n: nat) returns (s': Sys)
    requires MacAnswers(cfg) && cfg.staticSecret != "" && count < cfg.errLimit && s.store.now == 0
    requires i in s.threads && s.threads[i] == SignClock(Attempt(cfg, i)) && i !in InFlight(s, ACCOUNT)
    requires !s.store.Alive(Nonce(Ticket(i))) && CounterIs(s.store, count) && |InFlight(s, ACCOUNT)| < n
    ensures ReachesWithin(cfg, s, s', n) && s'.store == Noted(s.store, Ticket(i))
    ensures s'.threads == s.threads[i := FailIncr(ACCOUNT)]
  {
    assert InFlight(s, ACCOUNT) - {i} == InFlight(s, ACCOUNT);
    AttemptLeads(cfg, s.store, i, count);
    s' := WalkWithin(cfg, s, i, FAIL, Noted(s.store, Ticket(i)), FailIncr(ACCOUNT), n);
  }

  /** One more attempt, from its arrival to its INCR. */
  lemma ArriveAndWait(cfg: Config, s: Sys, i: nat, count: nat, n: nat) returns (s': Sys)
    requires MacAnswers(cfg) && cfg.staticSecret != "" && count < cfg.errLimit && s.store.now == 0
    requires i !in s.threads && !s.store.Alive(Nonce(Ticket(i)))
    requires CounterIs(s.store, count) && |InFlight(s, ACCOUNT)| < n
    ensures ReachesWithin(cfg, s, s', n) && s'.store == Noted(s.store, Ticket(i))
    ensures s'.threads == s.threads[i := FailIncr(ACCOUNT)]
  {
    var s1 := Appear(cfg, s, i, n);
    assert i !in InFlight(s1, ACCOUNT);
    s' := ToCount(cfg, s1, i, count, n);
    WithinTransitive(cfg, s, s1, s', n);
  }

  /** One more attempt gets past the limit check and stops in front of its INCR. */
  lemma Park(cfg: Config, s: Sys, i: nat, count: nat, n: nat) returns (s': Sys)
    requires MacAnswers(cfg) && cfg.staticSecret != "" && count < cfg.errLimit
    requires Fresh(s, i) && CounterIs(s.store, count) && |InFlight(s, ACCOUNT)| < n
    ensures ReachesWithin(cfg, s, s', n) && Fresh(s', i + 1) && CounterIs(s'.store, count)
    ensures s'.threads == s.threads[i := FailIncr(ACCOUNT)]
  {
    s' := ArriveAndWait(cfg, s, i, count, n);
    NotedKeepsCounter(s.store, Ticket(i), count);
    FreshAfter(s, i, s');
  }

  /** What the INCR of a failed attempt does. */
  lemma IncrStep(cfg: Config, st: Store, count: nat)
    requires CounterIs(st, count) && st.now == 0
    ensures
      var e := Step(cfg, st, FailIncr(ACCOUNT), FAIL);
      && e.next == (if count == 0 then FailExpire(ACCOUNT) else Done(AuthFail)) && !e.event.Minted?
      && e.store.now == 0 && CounterIs(e.store, count + 1)
      && forall n :: e.store.Alive(Nonce(n)) == st.Alive(Nonce(n))
  {
  }

  /** A parked attempt counts. */
  lemma Fire(cfg: Config, s: Sys, i: nat, tid: nat, count: nat, n: nat) returns (s': Sys)
    requires tid in s.threads && s.threads[tid] == FailIncr(ACCOUNT) && |InFlight(s, ACCOUNT)| <= n
    requires Fresh(s, i) && CounterIs(s.store, count)
    ensures ReachesWithin(cfg, s, s', n) && Fresh(s', i) && CounterIs(s'.store, count + 1)
    ensures s'.threads == s.threads[tid := if count == 0 then FailExpire(ACCOUNT) else Done(AuthFail)]
    ensures InFlight(s', ACCOUNT) <= InFlight(s, ACCOUNT)
  {
    IncrStep(cfg, s.store, count);
    s' := Apply(cfg, s, Run(tid, FAIL));
    assert s' == After(s, tid, Step(cfg, s.store, FailIncr(ACCOUNT), FAIL));
    assert InFlight(s', ACCOUNT) <= InFlight(s, ACCOUNT);
    Subset(InFlight(s', ACCOUNT), InFlight(s, ACCOUNT));
    WithinOne(cfg, s, Run(tid, FAIL), n);
  }

  lemma ExpireStep(cfg: Config, st: Store)
    requires CounterIs(st, 1) && st.now == 0
    ensures
      var e := Step(cfg, st, FailExpire(ACCOUNT), FAIL);
      && e.next == Done(AuthFail) && !e.event.Minted? && e.store.now == 0 && CounterIs(e.store, 1)
      && forall n :: e.store.Alive(Nonce(n)) == st.Alive(Nonce(n))
  {
  }

  /** The first failure gives the counter its deadline. */
  lemma Expire(cfg: Config, s: Sys, i: nat, tid: nat, n: nat) returns (s': Sys)
    requires tid in s.threads && s.threads[tid] == FailExpire(ACCOUNT) && |InFlight(s, ACCOUNT)| <= n
    requires Fresh(s, i) && CounterIs(s.store, 1)
    ensures ReachesWithin(cfg, s, s', n) && Fresh(s', i) && CounterIs(s'.store, 1)
    ensures s'.threads == s.threads[tid := Done(AuthFail)]
  {
    ExpireStep(cfg, s.store);
    s' := Apply(cfg, s, Run(tid, FAIL));
    assert s' == After(s, tid, Step(cfg, s.store, FailExpire(ACCOUNT), FAIL));
    assert InFlight(s', ACCOUNT) <= InFlight(s, ACCOUNT);
    Subset(InFlight(s', ACCOUNT), InFlight(s, ACCOUNT));
    WithinOne(cfg, s, Run(tid, FAIL), n);
  }

  // ---------- One after the other, up to the limit ----------

  lemma {:induction false} FailOneByOne(cfg: Config, count: nat, n: nat) returns (s: Sys)
    requires MacAnswers(cfg) && cfg.staticSecret != "" && count < cfg.errLimit && n >= 1
    ensures ReachesWithin(cfg, Initial(0), s, n)
    ensures Fresh(s, count) && CounterIs(s.store, count) && InFlight(s, ACCOUNT) == {}
    decreases count
  {
    if count == 0 {
      s := Initial(0);
      assert InFlight(s, ACCOUNT) == {};
      WithinNothing(cfg, s, n);
    } else {
      var s0 := FailOneByOne(cfg, count - 1, n);
      s := FailOnce(cfg, s0, count - 1, n);
      WithinTransitive(cfg, Initial(0), s0, s, n);
    }
  }

  lemma WithinNothing(cfg: Config, s: Sys, n: nat)
    requires |InFlight(s, ACCOUNT)| <= n
    ensures ReachesWithin(cfg, s, s, n)
  {
    var acts: seq<Action> := [];
    assert forall k :: 0 <= k <= |acts| ==> acts[..k] == [];
    assert Within(cfg, s, acts, n) && Exec(cfg, s, acts) == s;
  }

  lemma InFlightDone(s: Sys, s': Sys, tid: nat)
    requires s'.threads == s.threads[tid := Done(AuthFail)]
    ensures InFlight(s', ACCOUNT) == InFlight(s, ACCOUNT) - {tid}
  {
  }

  lemma FinishFirst(cfg: Config, s: Sys, s1: Sys, tid: nat, n: nat) returns (s': Sys)
    requires ReachesWithin(cfg, s, s1, n) && s1.threads == s.threads[tid := FailExpire(ACCOUNT)]
    requires |InFlight(s1, ACCOUNT)| <= n && Fresh(s1, tid + 1) && CounterIs(s1.store, 1)
    ensures ReachesWithin(cfg, s, s', n) && Fresh(s', tid + 1) && CounterIs(s'.store, 1)
    ensures s'.threads == s.threads[tid := Done(AuthFail)]
  {
    s' := Expire(cfg, s1, tid + 1, tid, n);
    WithinTransitive(cfg, s, s1, s', n);
  }

  /** A parked attempt counts and is done. */
  lemma FireAndFinish(cfg: Config, s: Sys, tid: nat, count: nat, n: nat) returns (s': Sys)
    requires tid in s.threads && s.threads[tid] == FailIncr(ACCOUNT) && |InFlight(s, ACCOUNT)| <= n
    requires Fresh(s, tid + 1) && CounterIs(s.store, count)
    ensures ReachesWithin(cfg, s, s', n) && Fresh(s', tid + 1) && CounterIs(s'.store, count + 1)
    ensures s'.threads == s.threads[tid := Done(AuthFail)]
  {
    s' := Fire(cfg, s, tid + 1, tid, count, n);
    if count == 0 {
      Subset(InFlight(s', ACCOUNT), InFlight(s, ACCOUNT));
      s' := FinishFirst(cfg, s, s', tid, n);
    }
  }

  lemma FailOnce(cfg: Config, s: Sys, count: nat, n: nat) returns (s': Sys)
    requires MacAnswers(cfg) && cfg.staticSecret != "" && count < cfg.errLimit && n >= 1
    requires Fresh(s, count) && CounterIs(s.store, count) && InFlight(s, ACCOUNT) == {}
    ensures ReachesWithin(cfg, s, s', n)
    ensures Fresh(s', count + 1) && CounterIs(s'.store, count + 1) && InFlight(s', ACCOUNT) == {}
  {
    var s1 := Park(cfg, s, count, count, n);
    InFlightParked(s, s1, count);
    s' := FireAndFinish(cfg, s1, count, count, n);
    WithinTransitive(cfg, s, s1, s', n);
    InFlightDone(s1, s', count);
  }

  // ---------- All at once ----------

  lemma {:induction false} SizeOfRange(ts: set<nat>, lo: nat, k: nat)
    requires forall t :: t in ts <==> lo <= t < lo + k
    ensures |ts| == k
    decreases k
  {
    if k == 0 {
      assert forall t :: t !in ts;
      assert ts == {};
    } else {
      SizeOfRange(ts - {lo + k - 1}, lo, k - 1);
    }
  }

  lemma InFlightParked(s: Sys, s': Sys, tid: nat)
    requires tid !in s.threads && s'.threads == s.threads[tid := FailIncr(ACCOUNT)]
    ensures InFlight(s', ACCOUNT) == InFlight(s, ACCOUNT) + {tid}
  {
  }

  /** Attempts `count` to `count + k - 1` are in front of their INCR, and nothing else is in flight. */
  ghost predicate Parked(s: Sys, count: nat, k: nat) {
    && Fresh(s, count + k) && CounterIs(s.store, count)
    && (forall t :: t in InFlight(s, ACCOUNT) <==> count <= t < count + k)
    && forall t :: count <= t < count + k ==> t in s.threads && s.threads[t] == FailIncr(ACCOUNT)
  }

  lemma ParkedNext(s: Sys, s': Sys, count: nat, k: nat)
    requires Parked(s, count, k) && s'.threads == s.threads[count + k := FailIncr(ACCOUNT)]
    requires Fresh(s', count + k + 1) && CounterIs(s'.store, count)
    ensures Parked(s', count, k + 1)
  {
    InFlightParked(s, s', count + k);
  }

  lemma ParkedCount(s: Sys, count: nat, k: nat)
    requires Parked(s, count, k)
    ensures |InFlight(s, ACCOUNT)| == k
  {
    SizeOfRange(InFlight(s, ACCOUNT), count, k);
  }

  lemma ParkOneMore(cfg: Config, s: Sys, count: nat, k: nat, n: nat) returns (s': Sys)
    requires MacAnswers(cfg) && cfg.staticSecret != "" && count < cfg.errLimit && k < n
    requires Parked(s, count, k)
    ensures ReachesWithin(cfg, s, s', n) && Parked(s', count, k + 1)
  {
    ParkedCount(s, count, k);
    s' := Park(cfg, s, count + k, count, n);
    ParkedNext(s, s', count, k);
  }

  lemma {:induction false} ParkMany(cfg: Config, s: Sys, count: nat, k: nat, n: nat) returns (s': Sys)
    requires MacAnswers(cfg) && cfg.staticSecret != "" && count < cfg.errLimit && k <= n
    requires Parked(s, count, 0)
    ensures ReachesWithin(cfg, s, s', n) && Parked(s', count, k)
    decreases k
  {
    if k == 0 {
      s' := s;
      assert forall t :: t !in InFlight(s, ACCOUNT);
      assert InFlight(s, ACCOUNT) == {};
      WithinNothing(cfg, s, n);
    } else {
      var s1 := ParkMany(cfg, s, count, k - 1, n);
      s' := ParkOneMore(cfg, s1, count, k - 1, n);
      WithinTransitive(cfg, s, s1, s', n);
    }
  }

  /** Of the attempts `count` to `count + n - 1` the first `k` have counted. */
  ghost predicate Counted(s: Sys, count: nat, k: nat, n: nat) {
    && Fresh(s, count + n) && CounterIs(s.store, count + k)
    && forall t :: count + k <= t < count + n ==> t in s.threads && s.threads[t] == FailIncr(ACCOUNT)
  }

  lemma FireOneMore(cfg: Config, s: Sys, count: nat, k: nat, n: nat) returns (s': Sys)
    requires k < n && Counted(s, count, k, n) && |InFlight(s, ACCOUNT)| <= n
    ensures ReachesWithin(cfg, s, s', n) && Counted(s', count, k + 1, n) && |InFlight(s', ACCOUNT)| <= n
  {
    s' := Fire(cfg, s, count + n, count + k, count + k, n);
    Subset(InFlight(s', ACCOUNT), InFlight(s, ACCOUNT));
  }

  lemma FireNext(cfg: Config, s: Sys, s1: Sys, count: nat, k: nat, n: nat) returns (s': Sys)
    requires ReachesWithin(cfg, s, s1, n) && k < n && Counted(s1, count, k, n) && |InFlight(s1, ACCOUNT)| <= n
    ensures ReachesWithin(cfg, s, s', n) && Counted(s', count, k + 1, n) && |InFlight(s', ACCOUNT)| <= n
  {
    s' := FireOneMore(cfg, s1, count, k, n);
    WithinTransitive(cfg, s, s1, s', n);
  }

  lemma {:induction false} FireMany(cfg: Config, s: Sys, count: nat, k: nat, n: nat) returns (s': Sys)
    requires k <= n && Counted(s, count, 0, n) && |InFlight(s, ACCOUNT)| <= n
    ensures ReachesWithin(cfg, s, s', n) && Counted(s', count, k, n) && |InFlight(s', ACCOUNT)| <= n
    decreases k
  {
    if k == 0 {
      s' := s;
      WithinNothing(cfg, s, n);
    } else {
      var s1 := FireMany(cfg, s, count, k - 1, n);
      s' := FireNext(cfg, s, s1, count, k - 1, n);
    }
  }

  /**
   For every positive limit and every number `n` of logins in flight there is a run in which the counter reaches
   `limit - 1 + n`: that many attempts pass the limit check before any of them counts.
   */
  lemma BoundReached(cfg: Config, n: nat) returns (acts: seq<Action>)
    requires MacAnswers(cfg) && cfg.staticSecret != "" && cfg.errLimit > 0 && n >= 1
    ensures AtMost(cfg, 0, acts, ACCOUNT, n)
    ensures Counter(Exec(cfg, Initial(0), acts), ACCOUNT) == cfg.errLimit - 1 + n
  {
    var count := cfg.errLimit - 1;
    var s1 := FailOneByOne(cfg, count, n);
    var s2 := ParkMany(cfg, s1, count, n, n);
    WithinTransitive(cfg, Initial(0), s1, s2, n);
    SizeOfRange(InFlight(s2, ACCOUNT), count, n);
    var s3 := FireMany(cfg, s2, count, n, n);
    WithinTransitive(cfg, Initial(0), s2, s3, n);
    acts :| Within(cfg, Initial(0), acts, n) && Exec(cfg, Initial(0), acts) == s3;
  }
}
