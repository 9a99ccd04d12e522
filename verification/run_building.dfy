/**
 Building runs of the interleaved system: requests that the signature layer accepts, and walks in which one request
 sends several commands in a row.
 */
module RunBuilding {
  import opened Wrappers
  import opened Redis
  import opened Session
  import opened Interleaving
  import Decimal
  import Signing

  // ---------- Requests ----------

  /** A request that the signature layer accepts at time `now` under `secret`, if its nonce is free. */
  predicate Fits(cfg: Config, r: Request, now: int, secret: string) {
    && r.fields.timestamp != "" && r.fields.nonce != "" && r.sig != "" && secret != ""
    && Decimal.Atoi(r.fields.timestamp) == Some(now)
    && r.sig == Signing.CalcSign(cfg.mac, r.fields, secret)
  }

  function SignedRequest(cfg: Config, secret: string, ts: int, nonce: string, bearer: Bearer, route: Route): Request {
    var fields := Signing.Fields("POST", "/", "", Decimal.Print(ts), nonce, "");
    Request(fields, Signing.CalcSign(cfg.mac, fields, secret), bearer, route)
  }

  /** The keyed hash never answers the empty string. */
  ghost predicate MacAnswers(cfg: Config) {
    forall secret, payload :: cfg.mac(secret, payload) != ""
  }

  lemma SignedFits(cfg: Config, secret: string, ts: int, nonce: string, bearer: Bearer, route: Route)
    requires MacAnswers(cfg) && Decimal.Int64(ts) && nonce != "" && secret != ""
    ensures Fits(cfg, SignedRequest(cfg, secret, ts, nonce, bearer, route), ts, secret)
  {
    Decimal.AtoiPrint(ts);
  }

  /** A nonce for each request, no two alike. */
  function Ticket(i: nat): (t: string)
    ensures |t| == i + 1
  {
    seq(i + 1, _ => 'x')
  }

  // ---------- Walks ----------

  /** The next `k` commands of one request, all of them sent before anyone else's. */
  function Walk(cfg: Config, st: Store, l: Local, env: Env, k: nat): (Store, Local)
    decreases k
  {
    if k == 0 then (st, l)
    else
      var e := Step(cfg, st, l, env);
      Walk(cfg, e.store, e.next, env, k - 1)
  }

  predicate NoMint(cfg: Config, st: Store, l: Local, env: Env, k: nat)
    decreases k
  {
    k == 0 || (var e := Step(cfg, st, l, env);
               !l.Done? && !e.event.Minted? && NoMint(cfg, e.store, e.next, env, k - 1))
  }

  /** `k` commands lead from `l` to `l'` without minting a token. */
  predicate LeadsIn(cfg: Config, st: Store, l: Local, env: Env, k: nat, st': Store, l': Local) {
    NoMint(cfg, st, l, env, k) && Walk(cfg, st, l, env, k) == (st', l')
  }

  ghost predicate Leads(cfg: Config, st: Store, l: Local, env: Env, st': Store, l': Local) {
    exists k: nat :: LeadsIn(cfg, st, l, env, k, st', l')
  }

  lemma Here(cfg: Config, st: Store, l: Local, env: Env)
    ensures Leads(cfg, st, l, env, st, l)
  {
    assert LeadsIn(cfg, st, l, env, 0, st, l);
  }

  lemma First(cfg: Config, st: Store, l: Local, env: Env, st1: Store, l1: Local, st': Store, l': Local)
    requires !l.Done? && Leads(cfg, st1, l1, env, st', l')
    requires
      var e := Step(cfg, st, l, env);
      e.store == st1 && e.next == l1 && !e.event.Minted?
    ensures Leads(cfg, st, l, env, st', l')
  {
    var k: nat :| LeadsIn(cfg, st1, l1, env, k, st', l');
    assert LeadsIn(cfg, st, l, env, k + 1, st', l');
  }

  lemma {:induction false} WalkIsARun(cfg: Config, s: Sys, tid: nat, env: Env, k: nat)
    requires tid in s.threads && NoMint(cfg, s.store, s.threads[tid], env, k)
    ensures
      var s' := Exec(cfg, s, Repeat(Run(tid, env), k));
      var (st, l) := Walk(cfg, s.store, s.threads[tid], env, k);
      s'.store == st && s'.threads == s.threads[tid := l] && s'.issued == s.issued
    decreases k
  {
    var a := Run(tid, env);
    if k == 0 {
      assert s.threads == s.threads[tid := s.threads[tid]];
    } else {
      var s1 := Apply(cfg, s, a);
      RepeatStep(cfg, s, a, k);
      WalkIsARun(cfg, s1, tid, env, k - 1);
      var l := Walk(cfg, s.store, s.threads[tid], env, k).1;
      assert s1.threads[tid := l] == s.threads[tid := l];
    }
  }

  lemma OneAction(cfg: Config, s: Sys, a: Action)
    ensures Exec(cfg, s, [a]) == Apply(cfg, s, a)
    ensures Reachable(cfg, s, Apply(cfg, s, a))
  {
    ExecOne(cfg, s, [], a);
    assert Exec(cfg, s, []) == s && [] + [a] == [a];
  }

  /** Some run leads from `s` to `s'`. */
  ghost predicate Reachable(cfg: Config, s: Sys, s': Sys) {
    exists acts :: Exec(cfg, s, acts) == s'
  }

  lemma ReachableTransitive(cfg: Config, s: Sys, s1: Sys, s2: Sys)
    requires Reachable(cfg, s, s1) && Reachable(cfg, s1, s2)
    ensures Reachable(cfg, s, s2)
  {
    var a :| Exec(cfg, s, a) == s1;
    var b :| Exec(cfg, s1, b) == s2;
    ExecAppend(cfg, s, a, b);
  }

  /** A walk of one request, as a run of the system. */
  lemma WalkTo(cfg: Config, s: Sys, tid: nat, env: Env, st: Store, l: Local) returns (s': Sys)
    requires tid in s.threads && Leads(cfg, s.store, s.threads[tid], env, st, l)
    ensures Reachable(cfg, s, s')
    ensures s'.store == st && s'.threads == s.threads[tid := l] && s'.issued == s.issued
  {
    var k: nat :| LeadsIn(cfg, s.store, s.threads[tid], env, k, st, l);
    WalkIsARun(cfg, s, tid, env, k);
    s' := Exec(cfg, s, Repeat(Run(tid, env), k));
  }
  /** One command of a request, which mints nothing. */
  lemma OneCommand(cfg: Config, s: Sys, tid: nat, env: Env, e: Effect) returns (s': Sys)
    requires tid in s.threads && !s.threads[tid].Done? && Step(cfg, s.store, s.threads[tid], env) == e
    requires !e.event.Minted?
    ensures Reachable(cfg, s, s') && s'.store == e.store && s'.threads == s.threads[tid := e.next]
    ensures s'.issued == s.issued
    ensures s'.log == s.log + [Logged(tid, s.store.now, e.event)]
  {
    OneAction(cfg, s, Run(tid, env));
    s' := Apply(cfg, s, Run(tid, env));
  }

  // ---------- The layers ----------

  function Noted(st: Store, nonce: string): Store {
    st.Set(Nonce(nonce), Num(1), NONCE_TTL)
  }

  lemma ClockStep(cfg: Config, st: Store, r: Request, ts: int, env: Env)
    requires Decimal.Atoi(r.fields.timestamp) == Some(ts) && -SIGN_WINDOW <= st.now - ts <= SIGN_WINDOW
    ensures Step(cfg, st, SignClock(r), env) == Effect(st, SignNonce(r, ts, st.now), Quiet)
  {
  }

  lemma NonceStep(cfg: Config, st: Store, r: Request, ts: int, at: int, env: Env)
    requires !st.Alive(Nonce(r.fields.nonce))
    ensures Step(cfg, st, SignNonce(r, ts, at), env)
         == Effect(Noted(st, r.fields.nonce), SignToken(r), NonceTaken(r, ts, at))
  {
  }

  lemma StaticStep(cfg: Config, st: Store, r: Request, ts: int, env: Env)
    requires r.bearer == NoToken && Fits(cfg, r, ts, cfg.staticSecret)
    ensures Step(cfg, st, SignToken(r), env) == Effect(st, AfterSign(r), Quiet)
  {
  }

  /** The time check and the nonce, in front of a walk that goes on from the choice of the secret. */
  lemma FreshLeads(cfg: Config, st: Store, r: Request, env: Env, st': Store, l': Local)
    requires Decimal.Atoi(r.fields.timestamp) == Some(st.now) && !st.Alive(Nonce(r.fields.nonce))
    requires Leads(cfg, Noted(st, r.fields.nonce), SignToken(r), env, st', l')
    ensures Leads(cfg, st, SignClock(r), env, st', l')
  {
    First(cfg, st, SignNonce(r, st.now, st.now), env, Noted(st, r.fields.nonce), SignToken(r), st', l');
    First(cfg, st, SignClock(r), env, st, SignNonce(r, st.now, st.now), st', l');
  }

  lemma StaticLeads(cfg: Config, st: Store, r: Request, env: Env, st': Store, l': Local)
    requires r.bearer == NoToken && Fits(cfg, r, st.now, cfg.staticSecret) && !st.Alive(Nonce(r.fields.nonce))
    requires Leads(cfg, Noted(st, r.fields.nonce), AfterSign(r), env, st', l')
    ensures Leads(cfg, st, SignClock(r), env, st', l')
  {
    var st1 := Noted(st, r.fields.nonce);
    First(cfg, st1, SignToken(r), env, st1, AfterSign(r), st', l');
    FreshLeads(cfg, st, r, env, st', l');
  }

  /** Up to the comparison with the session's secret. */
  lemma SecretReadLeads(cfg: Config, st: Store, r: Request, c: Claims, env: Env)
    requires r.bearer == Signed(c) && Decimal.Atoi(r.fields.timestamp) == Some(st.now)
    requires !st.Alive(Nonce(r.fields.nonce)) && st.now < c.exp
    ensures Leads(cfg, st, SignClock(r), env, Noted(st, r.fields.nonce), SignSecretRead(r, c))
  {
    var st1 := Noted(st, r.fields.nonce);
    Here(cfg, st1, SignSecretRead(r, c), env);
    First(cfg, st1, SignToken(r), env, st1, SignSecretRead(r, c), st1, SignSecretRead(r, c));
    FreshLeads(cfg, st, r, env, st1, SignSecretRead(r, c));
  }

  /** The comparison itself. */
  lemma SecretFits(cfg: Config, st: Store, r: Request, c: Claims, env: Env)
    requires Fits(cfg, r, st.now, st.GetStr(SignSecret(c.admin)))
    ensures
      Step(cfg, st, SignSecretRead(r, c), env)
      == Effect(st, AfterSign(r), if AfterSign(r) == Done(SignInvalid) then Quiet
                                  else SignPassed(r, c, st.GetStr(SignSecret(c.admin))))
  {
  }

  lemma SignLeads(cfg: Config, st: Store, r: Request, c: Claims, env: Env, st': Store, l': Local)
    requires r.bearer == Signed(c) && Fits(cfg, r, st.now, st.GetStr(SignSecret(c.admin)))
    requires r.route == Protected || r.route == Logout
    requires !st.Alive(Nonce(r.fields.nonce)) && st.now < c.exp
    requires Leads(cfg, Noted(st, r.fields.nonce), AuthToken(r), env, st', l')
    ensures Leads(cfg, st, SignClock(r), env, st', l')
  {
    var st1 := Noted(st, r.fields.nonce);
    assert st1.GetStr(SignSecret(c.admin)) == st.GetStr(SignSecret(c.admin));
    SecretFits(cfg, st1, r, c, env);
    First(cfg, st1, SignSecretRead(r, c), env, st1, AuthToken(r), st', l');
    First(cfg, st1, SignToken(r), env, st1, SignSecretRead(r, c), st', l');
    FreshLeads(cfg, st, r, env, st', l');
  }

  /** The local state behind the whitelist check. */
  function AfterActive(cfg: Config, r: Request, c: Claims): Local {
    if cfg.refresh then AuthRefresh(r, c) else Handler(r, c, None)
  }

  lemma ActiveLeads(cfg: Config, st: Store, r: Request, c: Claims, env: Env, st': Store, l': Local)
    requires r.bearer == Signed(c) && st.now < c.exp && st.Alive(Token(c.jti))
    requires Leads(cfg, st, AfterActive(cfg, r, c), env, st', l')
    ensures Leads(cfg, st, AuthToken(r), env, st', l')
  {
    First(cfg, st, AuthActive(r, c), env, st, AfterActive(cfg, r, c), st', l');
    First(cfg, st, AuthToken(r), env, st, AuthActive(r, c), st', l');
  }

  lemma HalfLifeLeads(cfg: Config, st: Store, r: Request, c: Claims, env: Env)
    requires r.bearer == Signed(c) && cfg.refresh
    requires st.now < c.exp && st.Alive(Token(c.jti))
    ensures Leads(cfg, st, AuthToken(r), env, st.Expire(Token(c.jti), cfg.ttl), AuthHalfLife(r, c))
  {
    var st1 := st.Expire(Token(c.jti), cfg.ttl);
    Here(cfg, st1, AuthHalfLife(r, c), env);
    First(cfg, st, AuthRefresh(r, c), env, st1, AuthHalfLife(r, c), st1, AuthHalfLife(r, c));
    ActiveLeads(cfg, st, r, c, env, st1, AuthHalfLife(r, c));
  }

  // ---------- One login from the empty store ----------

  lemma LoginLeads(cfg: Config, now: int, r: Request, account: string, password: string, admin: nat, env: Env)
    requires r.bearer == NoToken && r.route == Login(account, password) && account != "" && password != ""
    requires Fits(cfg, r, now, cfg.staticSecret) && env.lookup == Found(admin)
    ensures Leads(cfg, Store(now, map[]), SignClock(r), env, Noted(Store(now, map[]), r.fields.nonce),
                  LoginGenerate(account, admin))
  {
    var st0, l := Store(now, map[]), LoginGenerate(account, admin);
    var st := Noted(st0, r.fields.nonce);
    AcceptedLeads(cfg, st, account, admin, env);
    StaticLeads(cfg, st0, r, env, st, l);
  }

  lemma AcceptedLeads(cfg: Config, st: Store, account: string, admin: nat, env: Env)
    requires env.lookup == Found(admin) && LoginErr(account) !in st.entries
    ensures Leads(cfg, st, LoginGate(account), env, st, LoginGenerate(account, admin))
  {
    var l := LoginGenerate(account, admin);
    assert st.Del(LoginErr(account)).entries == st.entries;
    Here(cfg, st, l, env);
    First(cfg, st, LoginReset(account, admin), env, st, l, st, l);
    First(cfg, st, LoginLookup(account), env, st, LoginReset(account, admin), st, l);
    First(cfg, st, LoginGate(account), env, st, LoginLookup(account), st, l);
  }

  lemma IssueLeads(cfg: Config, st: Store, c: Claims, env: Env)
    ensures Leads(cfg, st, LoginList(c), env,
                  st.Set(Token(c.jti), Num(c.admin), cfg.ttl).Set(SignSecret(c.admin), Str(env.secret), cfg.ttl),
                  Done(LoggedIn(c, env.secret)))
  {
    var st1 := st.Set(Token(c.jti), Num(c.admin), cfg.ttl);
    var st2 := st1.Set(SignSecret(c.admin), Str(env.secret), cfg.ttl);
    var l := Done(LoggedIn(c, env.secret));
    Here(cfg, st2, l, env);
    First(cfg, st1, LoginSecret(c), env, st2, l, st2, l);
    First(cfg, st, LoginList(c), env, st1, LoginSecret(c), st2, l);
  }

  /** A login at time `now`, up to the whitelisting of its token. */
  lemma MintFirst(cfg: Config, now: int, r: Request, account: string, password: string, admin: nat, env: Env)
    returns (s': Sys)
    requires r.bearer == NoToken && r.route == Login(account, password) && account != "" && password != ""
    requires Fits(cfg, r, now, cfg.staticSecret) && env.lookup == Found(admin)
    ensures Reachable(cfg, Initial(now), s')
    ensures
      var c := Generate(cfg, now, env.jti, admin, account);
      && s'.store == Noted(Store(now, map[]), r.fields.nonce)
      && s'.issued == map[env.jti := c] && s'.threads == map[0 := LoginList(c)]
  {
    var s := Initial(now);
    var st := Noted(Store(now, map[]), r.fields.nonce);
    OneAction(cfg, s, Spawn(0, r));
    var s1 := Apply(cfg, s, Spawn(0, r));
    LoginLeads(cfg, now, r, account, password, admin, env);
    var s2 := WalkTo(cfg, s1, 0, env, st, LoginGenerate(account, admin));
    ReachableTransitive(cfg, s, s1, s2);
    OneAction(cfg, s2, Run(0, env));
    s' := Apply(cfg, s2, Run(0, env));
    ReachableTransitive(cfg, s, s2, s');
  }

  /** The login that everything starts from. */
  lemma LogIn(cfg: Config, now: int, r: Request, account: string, password: string, admin: nat, env: Env)
    returns (s': Sys)
    requires r.bearer == NoToken && r.route == Login(account, password) && account != "" && password != ""
    requires Fits(cfg, r, now, cfg.staticSecret) && env.lookup == Found(admin) && cfg.ttl > 0
    ensures Reachable(cfg, Initial(now), s')
    ensures s'.issued == map[env.jti := Generate(cfg, now, env.jti, admin, account)] && s'.threads.Keys == {0}
    ensures s'.store.now == now
    ensures Token(env.jti) in s'.store.entries
    ensures s'.store.entries[Token(env.jti)] == Entry(Num(admin), Some(now + cfg.ttl))
    ensures SignSecret(admin) in s'.store.entries
    ensures s'.store.entries[SignSecret(admin)] == Entry(Str(env.secret), Some(now + cfg.ttl))
    ensures forall n | n != r.fields.nonce :: !s'.store.Alive(Nonce(n))
  {
    var c := Generate(cfg, now, env.jti, admin, account);
    var s3 := MintFirst(cfg, now, r, account, password, admin, env);
    var st := Noted(Store(now, map[]), r.fields.nonce);
    IssueLeads(cfg, st, c, env);
    s' := WalkTo(cfg, s3, 0, env,
                st.Set(Token(c.jti), Num(c.admin), cfg.ttl).Set(SignSecret(c.admin), Str(env.secret), cfg.ttl),
                Done(LoggedIn(c, env.secret)));
    ReachableTransitive(cfg, Initial(now), s3, s');
  }

  // ---------- A session to start from ----------

  const FIRST_JTI: string := "t"
  const FIRST_SECRET: string := "k"
  const FIRST_NONCE: string := "n"

  /** Logins can succeed: the lifetime is a positive number of whole seconds and the static secret is set. */
  ghost predicate Workable(cfg: Config) {
    MacAnswers(cfg) && cfg.staticSecret != "" && cfg.ttl > 0 && cfg.ttl % 1000 == 0 && Decimal.Int64(cfg.ttl)
  }

  function FirstClaims(cfg: Config): Claims {
    Claims(FIRST_JTI, 1, "a", cfg.ttl)
  }

  /** Time 0, one finished login, its token and its secret, and no nonce but that of the login. */
  ghost predicate JustLoggedIn(cfg: Config, s: Sys) {
    var c := FirstClaims(cfg);
    && s.issued == map[FIRST_JTI := c] && s.threads.Keys == {0} && s.store.now == 0
    && Token(c.jti) in s.store.entries && s.store.entries[Token(c.jti)] == Entry(Num(1), Some(cfg.ttl))
    && SignSecret(1) in s.store.entries && s.store.entries[SignSecret(1)] == Entry(Str(FIRST_SECRET), Some(cfg.ttl))
    && forall n | n != FIRST_NONCE :: !s.store.Alive(Nonce(n))
  }

  lemma StartSession(cfg: Config) returns (s: Sys)
    requires Workable(cfg)
    ensures Reachable(cfg, Initial(0), s) && JustLoggedIn(cfg, s)
  {
    var r := SignedRequest(cfg, cfg.staticSecret, 0, FIRST_NONCE, NoToken, Login("a", "p"));
    SignedFits(cfg, cfg.staticSecret, 0, FIRST_NONCE, NoToken, Login("a", "p"));
    s := LogIn(cfg, 0, r, "a", "p", 1, Env(Found(1), FIRST_JTI, FIRST_SECRET));
    assert Generate(cfg, 0, FIRST_JTI, 1, "a") == FirstClaims(cfg);
  }
}
