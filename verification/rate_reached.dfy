/** The bound of `Sequential.LockoutRate` is reached: a run for every limit and every counter lifetime. */
module RateReached {
  import opened Wrappers
  import opened Redis
  import opened Session
  import opened Sequential
  import opened RunBuilding
  import Decimal

  const ACCOUNT: string := "a"

  function Attempt(cfg: Config, now: int, i: nat): Request {
    SignedRequest(cfg, cfg.staticSecret, now, Ticket(i), NoToken, Login(ACCOUNT, "p"))
  }

  const FAIL: Env := Env(WrongPassword, "u", "")

  /** No token so far, the nonces from `i` on are free, and the account has `count` failures counted. */
  ghost predicate Ready(cfg: Config, s: Sys, now: int, i: nat, count: nat) {
    && s.store.now == now && Decimal.Int64(now) && s.issued == map[] && CountersOk(cfg, s.store)
    && (forall j :: j >= i ==> Nonce(Ticket(j)) !in s.store.entries)
    && s.store.GetInt(LoginErr(ACCOUNT)) == count
  }

  /** The store after a failed attempt. */
  function Failed(cfg: Config, st: Store, i: nat): Store {
    var st1 := Noted(st, Ticket(i));
    st1.(entries := st1.entries[LoginErr(ACCOUNT) := Bumped(cfg, st1, ACCOUNT)])
  }

  lemma SignRun(cfg: Config, st: Store, r: Request, env: Env)
    requires r.bearer == NoToken && Fits(cfg, r, st.now, cfg.staticSecret) && !st.Alive(Nonce(r.fields.nonce))
    ensures Alone(cfg, st, StartSign(r), env) == Alone(cfg, Noted(st, r.fields.nonce), AfterSign(r), env)
  {
    var st1 := Noted(st, r.fields.nonce);
    Goes(cfg, st, SignClock(r), env, st, SignNonce(r, st.now, st.now));
    Goes(cfg, st, SignNonce(r, st.now, st.now), env, st1, SignToken(r));
    Goes(cfg, st1, SignToken(r), env, st1, AfterSign(r));
  }

  lemma GateRun(cfg: Config, st: Store)
    requires CountersOk(cfg, st) && st.GetInt(LoginErr(ACCOUNT)) < cfg.errLimit
    ensures Alone(cfg, st, LoginGate(ACCOUNT), FAIL)
         == (st.(entries := st.entries[LoginErr(ACCOUNT) := Bumped(cfg, st, ACCOUNT)]), AuthFail)
  {
    Goes(cfg, st, LoginGate(ACCOUNT), FAIL, st, LoginLookup(ACCOUNT));
    Goes(cfg, st, LoginLookup(ACCOUNT), FAIL, st, FailIncr(ACCOUNT));
    FailEffect(cfg, st, ACCOUNT, FAIL);
  }

  lemma FailRun(cfg: Config, st: Store, i: nat)
    requires MacAnswers(cfg) && cfg.staticSecret != "" && Decimal.Int64(st.now) && CountersOk(cfg, st)
    requires Nonce(Ticket(i)) !in st.entries && st.GetInt(LoginErr(ACCOUNT)) < cfg.errLimit
    ensures Alone(cfg, st, StartSign(Attempt(cfg, st.now, i)), FAIL) == (Failed(cfg, st, i), AuthFail)
  {
    SignedFits(cfg, cfg.staticSecret, st.now, Ticket(i), NoToken, Login(ACCOUNT, "p"));
    SignRun(cfg, st, Attempt(cfg, st.now, i), FAIL);
    NotedKeepsCounter(cfg, st, Ticket(i));
    GateRun(cfg, Noted(st, Ticket(i)));
  }

  lemma NotedKeepsCounter(cfg: Config, st: Store, nonce: string)
    requires CountersOk(cfg, st)
    ensures CountersOk(cfg, Noted(st, nonce))
    ensures Noted(st, nonce).GetInt(LoginErr(ACCOUNT)) == st.GetInt(LoginErr(ACCOUNT))
  {
  }

  lemma FailedCounts(cfg: Config, st: Store, i: nat)
    requires CountersOk(cfg, st)
    ensures CountersOk(cfg, Failed(cfg, st, i))
    ensures Failed(cfg, st, i).GetInt(LoginErr(ACCOUNT)) == st.GetInt(LoginErr(ACCOUNT)) + 1
  {
    NotedKeepsCounter(cfg, st, Ticket(i));
  }

  /** One more failed attempt, counted. */
  lemma FailOnce(cfg: Config, s: Sys, now: int, i: nat, count: nat)
    requires MacAnswers(cfg) && cfg.staticSecret != "" && Ready(cfg, s, now, i, count) && count < cfg.errLimit
    ensures
      var a := Serve(Attempt(cfg, now, i), FAIL);
      && FailedFor(cfg, s, a, ACCOUNT) && !SucceededFor(cfg, s, a, ACCOUNT)
      && Apply(cfg, s, a) == s.(store := Failed(cfg, s.store, i))
      && Ready(cfg, Apply(cfg, s, a), now, i + 1, count + 1)
  {
    FailRun(cfg, s.store, i);
    FailedCounts(cfg, s.store, i);
    forall j | j >= i + 1 ensures Nonce(Ticket(j)) !in Failed(cfg, s.store, i).entries {
      assert |Ticket(j)| != |Ticket(i)|;
    }
  }

  /** `k` failures at one instant. */
  lemma {:induction false} FailMany(cfg: Config, s: Sys, now: int, i: nat, count: nat, k: nat, until: int)
    returns (acts: seq<Action>)
    requires MacAnswers(cfg) && cfg.staticSecret != "" && Ready(cfg, s, now, i, count)
    requires count + k <= cfg.errLimit && now <= until
    ensures Failures(cfg, s, acts, ACCOUNT) == k && Sequential.Quiet(cfg, s, acts, ACCOUNT, until)
    decreases k
  {
    if k == 0 {
      acts := [];
    } else {
      var a := Serve(Attempt(cfg, now, i), FAIL);
      FailOnce(cfg, s, now, i, count);
      var rest := FailMany(cfg, Apply(cfg, s, a), now, i + 1, count + 1, k - 1, until);
      acts := [a] + rest;
      assert acts[1..] == rest;
    }
  }

  /** The counter expires within the next millisecond. */
  predicate AboutToExpire(st: Store) {
    LoginErr(ACCOUNT) in st.entries && st.entries[LoginErr(ACCOUNT)].deadline == Some(st.now)
  }

  lemma FailedKeepsDeadline(cfg: Config, st: Store, i: nat)
    requires AboutToExpire(st)
    ensures AboutToExpire(Failed(cfg, st, i))
  {
  }

  /** A millisecond later the count starts over. */
  lemma StartOver(cfg: Config, s: Sys, now: int, i: nat, count: nat)
    requires Ready(cfg, s, now, i, count) && AboutToExpire(s.store) && Decimal.Int64(now + 1)
    ensures Ready(cfg, Apply(cfg, s, Wait(1)), now + 1, i, 0)
    ensures !SucceededFor(cfg, s, Wait(1), ACCOUNT) && !FailedFor(cfg, s, Wait(1), ACCOUNT)
  {
  }

  /** `k` failures, then a millisecond, then as many as the limit allows. */
  lemma {:induction false} TwoBursts(cfg: Config, s: Sys, now: int, i: nat, count: nat, k: nat, until: int)
    returns (acts: seq<Action>)
    requires MacAnswers(cfg) && cfg.staticSecret != "" && Ready(cfg, s, now, i, count) && AboutToExpire(s.store)
    requires count + k <= cfg.errLimit && now + 1 <= until && Decimal.Int64(now + 1)
    ensures Failures(cfg, s, acts, ACCOUNT) == k + cfg.errLimit && Sequential.Quiet(cfg, s, acts, ACCOUNT, until)
    decreases k
  {
    var a, rest;
    if k == 0 {
      a := Wait(1);
      StartOver(cfg, s, now, i, count);
      rest := FailMany(cfg, Apply(cfg, s, a), now + 1, i, 0, cfg.errLimit, until);
    } else {
      a := Serve(Attempt(cfg, now, i), FAIL);
      FailOnce(cfg, s, now, i, count);
      FailedKeepsDeadline(cfg, s.store, i);
      rest := TwoBursts(cfg, Apply(cfg, s, a), now, i + 1, count + 1, k - 1, until);
    }
    acts := [a] + rest;
    assert acts[1..] == rest;
  }

  /** One failure at time 0, and then the wait to the last millisecond of the counter it made. */
  lemma Prepare(cfg: Config) returns (past: seq<Action>)
    requires MacAnswers(cfg) && cfg.staticSecret != "" && cfg.errLimit > 0 && Decimal.Int64(cfg.LoginErrTtl())
    ensures
      var s := Exec(cfg, Initial(0), past);
      Ready(cfg, s, cfg.LoginErrTtl(), 1, 1) && AboutToExpire(s.store)
  {
    var s0, a, b := Initial(0), Serve(Attempt(cfg, 0, 0), FAIL), Wait(cfg.LoginErrTtl());
    past := [a, b];
    FailOnce(cfg, s0, 0, 0, 0);
    assert past[..1] == [a] && [a][..0] == [];
    assert Exec(cfg, s0, [a]) == Apply(cfg, s0, a);
    assert Exec(cfg, s0, past) == Apply(cfg, Apply(cfg, s0, a), b);
  }

  /**
   For every positive limit and every lifetime of the counter there is a run with `2 * limit - 1` counted failures, and
   no successful login, within one lifetime: one failure less than the limit in the last millisecond of a counter, and
   as many as the limit in the next.
   */
  lemma RateBoundReached(cfg: Config) returns (past: seq<Action>, window: seq<Action>)
    requires MacAnswers(cfg) && cfg.staticSecret != "" && cfg.errLimit > 0 && Decimal.Int64(cfg.LoginErrTtl() + 1)
    ensures
      var s := Exec(cfg, Initial(0), past);
      && Sequential.Quiet(cfg, s, window, ACCOUNT, s.store.now + cfg.LoginErrTtl())
      && Failures(cfg, s, window, ACCOUNT) == 2 * cfg.errLimit - 1
  {
    past := Prepare(cfg);
    var s := Exec(cfg, Initial(0), past);
    var now := cfg.LoginErrTtl();
    window := TwoBursts(cfg, s, now, 1, 1, cfg.errLimit - 1, s.store.now + now);
  }
}
