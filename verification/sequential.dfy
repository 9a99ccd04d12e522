/**
 Requests served one after the other. What a whole request does to the whitelist and to the login-error counters,
 the lineage of reissued tokens, and the rate at which failed logins are counted.
 */
module Sequential {
  import opened Wrappers
  import opened Redis
  import opened Session

  /** `root` maps each token id to the number of the login its chain of reissues started from. */
  datatype Sys = Sys(store: Store, issued: map<string, Claims>, root: map<string, nat>, logins: nat)

  datatype Action = Wait(d: nat) | Serve(r: Request, env: Env)

  function Initial(now: int): Sys {
    Sys(Store(now, map[]), map[], map[], 0)
  }

  predicate Enabled(s: Sys, a: Action) {
    a.Serve? ==>
      && (a.r.bearer.Signed? ==>
            a.r.bearer.claims.jti in s.issued && s.issued[a.r.bearer.claims.jti] == a.r.bearer.claims)
      && a.env.jti != "" && a.env.jti !in s.issued
  }

  function Answer(cfg: Config, s: Sys, a: Action): Outcome
    requires a.Serve?
  {
    Alone(cfg, s.store, StartSign(a.r), a.env).1
  }

  function Renewed(o: Outcome): Option<Claims> {
    match o
    case Served(_, renewed) => renewed
    case LoggedOut(_, renewed) => renewed
    case _ => None
  }

  function Apply(cfg: Config, s: Sys, a: Action): Sys {
    if !Enabled(s, a) then s
    else match a
      case Wait(d) => s.(store := s.store.(now := s.store.now + d))
      case Serve(r, env) =>
        var (st, o) := Alone(cfg, s.store, StartSign(r), env);
        if o.LoggedIn? then
          Sys(st, s.issued[o.token.jti := o.token], s.root[o.token.jti := s.logins], s.logins + 1)
        else if Renewed(o).Some? && o.claims.jti in s.root then
          var m := Renewed(o).value;
          Sys(st, s.issued[m.jti := m], s.root[m.jti := s.root[o.claims.jti]], s.logins)
        else s.(store := st)
  }

  function Exec(cfg: Config, s: Sys, acts: seq<Action>): Sys {
    if acts == [] then s else Apply(cfg, Exec(cfg, s, acts[..|acts| - 1]), acts[|acts| - 1])
  }

  // ---------- What one request does to the whitelist ----------

  predicate Live(st: Store, jti: string) {
    st.Alive(Token(jti))
  }

  /**
   The whitelist after a request: `o` says what became of it. Refreshing with a lifetime of zero or less deletes the
   entry that it should extend.
   */
  ghost predicate LiveAfter(cfg: Config, st: Store, st': Store, o: Outcome, j: string) {
    match o
    case LoggedIn(token, _) => Live(st', j) <==> Live(st, j) || j == token.jti
    case Served(c, None) =>
      Live(st, c.jti) && (Live(st', j) <==> Live(st, j) && !(j == c.jti && cfg.refresh && cfg.ttl <= 0))
    case Served(c, Some(m)) => Live(st, c.jti) && (Live(st', j) <==> j == m.jti || (Live(st, j) && j != c.jti))
    case LoggedOut(c, None) => Live(st, c.jti) && (Live(st', j) <==> Live(st, j) && j != c.jti)
    case LoggedOut(c, Some(m)) => Live(st, c.jti) && (Live(st', j) <==> j == m.jti || (Live(st, j) && j != c.jti))
    case _ => Live(st', j) <==> Live(st, j)
  }

  predicate SameCounters(st: Store, st': Store) {
    && (forall k <- st'.entries :: k.LoginErr? ==> k in st.entries)
    && (forall k <- st.entries :: k.LoginErr? ==> k in st'.entries && st'.entries[k] == st.entries[k])
  }

  lemma HandlerRun(cfg: Config, st: Store, r: Request, c: Claims, renewed: Option<Claims>, env: Env)
    ensures Alone(cfg, st, Handler(r, c, renewed), env)
         == if r.route.Logout? then (st.Del(SignSecret(c.admin)).Del(Token(c.jti)), LoggedOut(c, renewed))
            else (st, Served(c, renewed))
  {
    Advance(cfg, st, Handler(r, c, renewed), env);
    if r.route.Logout? {
      Advance(cfg, st, LogoutSecret(c, renewed), env);
      var st1 := st.Del(SignSecret(c.admin));
      Advance(cfg, st1, LogoutToken(c, renewed), env);
      Finished(cfg, st1.Del(Token(c.jti)), LoggedOut(c, renewed), env);
    } else {
      Finished(cfg, st, Served(c, renewed), env);
    }
  }

  lemma HandlerEffect(cfg: Config, st: Store, r: Request, c: Claims, renewed: Option<Claims>, env: Env, j: string)
    ensures
      var (st', o) := Alone(cfg, st, Handler(r, c, renewed), env);
      && st'.now == st.now
      && o == (if r.route.Logout? then LoggedOut(c, renewed) else Served(c, renewed))
      && (Live(st', j) <==> Live(st, j) && !(r.route.Logout? && j == c.jti))
      && SameCounters(st, st')
  {
    HandlerRun(cfg, st, r, c, renewed, env);
  }

  predicate Renews(cfg: Config, now: int, c: Claims) {
    0 < c.exp - now && 2 * (c.exp - now) < cfg.ttl
  }

  lemma ReissueRun(cfg: Config, st: Store, r: Request, c: Claims, env: Env, m: Claims, st': Store)
    requires c.jti != "" && Renews(cfg, st.now, c)
    requires m == Generate(cfg, st.now, env.jti, c.admin, c.account)
    requires st' == st.Set(Token(m.jti), Num(m.admin), cfg.ttl).Del(Token(c.jti))
    ensures Alone(cfg, st, AuthHalfLife(r, c), env) == Alone(cfg, st', Handler(r, c, Some(m)), env)
  {
    var st1 := st.Set(Token(m.jti), Num(m.admin), cfg.ttl);
    Goes(cfg, st, AuthHalfLife(r, c), env, st, ReissueSet(r, c, m));
    Goes(cfg, st, ReissueSet(r, c, m), env, st1, ReissueDel(r, c, m));
    Goes(cfg, st1, ReissueDel(r, c, m), env, st', Handler(r, c, Some(m)));
  }

  lemma KeepRun(cfg: Config, st: Store, r: Request, c: Claims, env: Env)
    requires !Renews(cfg, st.now, c)
    ensures Alone(cfg, st, AuthHalfLife(r, c), env) == Alone(cfg, st, Handler(r, c, None), env)
  {
    Advance(cfg, st, AuthHalfLife(r, c), env);
  }

  /** The two whitelist commands of a reissue. */
  lemma Reissued(cfg: Config, st: Store, c: Claims, m: Claims, j: string)
    requires cfg.ttl > 0 && m.jti != c.jti
    ensures
      var st1 := st.Set(Token(m.jti), Num(m.admin), cfg.ttl).Del(Token(c.jti));
      && st1.now == st.now && SameCounters(st, st1)
      && (Live(st1, j) <==> j == m.jti || (Live(st, j) && j != c.jti))
  {
  }

  lemma HalfLifeRenews(cfg: Config, st: Store, r: Request, c: Claims, env: Env, j: string)
    requires cfg.ttl > 0 && Live(st, c.jti) && c.jti != "" && env.jti != c.jti && Renews(cfg, st.now, c)
    ensures
      var (st', o) := Alone(cfg, st, AuthHalfLife(r, c), env);
      var m := Generate(cfg, st.now, env.jti, c.admin, c.account);
      && st'.now == st.now && LiveAfter(cfg, st, st', o, j) && SameCounters(st, st')
      && o == if r.route.Logout? then LoggedOut(c, Some(m)) else Served(c, Some(m))
  {
    var m := Generate(cfg, st.now, env.jti, c.admin, c.account);
    var st1 := st.Set(Token(m.jti), Num(m.admin), cfg.ttl).Del(Token(c.jti));
    ReissueRun(cfg, st, r, c, env, m, st1);
    Reissued(cfg, st, c, m, j);
    HandlerEffect(cfg, st1, r, c, Some(m), env, j);
  }

  lemma HalfLifeEffect(cfg: Config, st: Store, r: Request, c: Claims, env: Env, j: string)
    requires cfg.ttl > 0 && Live(st, c.jti) && c.jti != "" && env.jti != c.jti
    ensures
      var (st', o) := Alone(cfg, st, AuthHalfLife(r, c), env);
      && st'.now == st.now && LiveAfter(cfg, st, st', o, j) && SameCounters(st, st')
      && (if r.route.Logout? then o.LoggedOut? else o.Served?) && o.claims == c
      && Renewed(o) == (if Renews(cfg, st.now, c)
                        then Some(Generate(cfg, st.now, env.jti, c.admin, c.account)) else None)
  {
    if Renews(cfg, st.now, c) {
      HalfLifeRenews(cfg, st, r, c, env, j);
    } else {
      KeepRun(cfg, st, r, c, env);
      HandlerEffect(cfg, st, r, c, None, env, j);
    }
  }

  /** Without a positive lifetime the refresh deletes the entry and nothing is renewed. */
  lemma RefreshDeletes(cfg: Config, st: Store, r: Request, c: Claims, env: Env, j: string)
    requires cfg.refresh && cfg.ttl <= 0 && Live(st, c.jti)
    ensures
      var (st', o) := Alone(cfg, st, AuthRefresh(r, c), env);
      && st'.now == st.now && LiveAfter(cfg, st, st', o, j) && SameCounters(st, st')
      && o == if r.route.Logout? then LoggedOut(c, None) else Served(c, None)
  {
    var st1 := st.Expire(Token(c.jti), cfg.ttl);
    Goes(cfg, st, AuthRefresh(r, c), env, st1, AuthHalfLife(r, c));
    KeepRun(cfg, st1, r, c, env);
    HandlerEffect(cfg, st1, r, c, None, env, j);
  }

  lemma RefreshExtends(cfg: Config, st: Store, r: Request, c: Claims, env: Env, j: string)
    requires cfg.refresh && cfg.ttl > 0 && Live(st, c.jti) && c.jti != "" && env.jti != c.jti
    ensures
      var (st', o) := Alone(cfg, st, AuthRefresh(r, c), env);
      && st'.now == st.now && LiveAfter(cfg, st, st', o, j) && SameCounters(st, st')
      && (if r.route.Logout? then o.LoggedOut? else o.Served?) && o.claims == c
      && Renewed(o) == (if Renews(cfg, st.now, c)
                        then Some(Generate(cfg, st.now, env.jti, c.admin, c.account)) else None)
  {
    var st1 := st.Expire(Token(c.jti), cfg.ttl);
    Goes(cfg, st, AuthRefresh(r, c), env, st1, AuthHalfLife(r, c));
    assert SameCounters(st, st1) && Live(st1, j) == Live(st, j) && Live(st1, c.jti);
    HalfLifeEffect(cfg, st1, r, c, env, j);
  }

  /** A token that passes the whitelist check gets to its handler. */
  lemma AuthPass(cfg: Config, st: Store, r: Request, c: Claims, env: Env, j: string)
    requires Live(st, c.jti) && c.jti != "" && env.jti != c.jti
    ensures
      var (st', o) := Alone(cfg, st, AuthActive(r, c), env);
      && st'.now == st.now && LiveAfter(cfg, st, st', o, j) && SameCounters(st, st')
      && (if r.route.Logout? then o.LoggedOut? else o.Served?) && o.claims == c
      && Renewed(o) == (if cfg.refresh && Renews(cfg, st.now, c)
                        then Some(Generate(cfg, st.now, env.jti, c.admin, c.account)) else None)
  {
    Goes(cfg, st, AuthActive(r, c), env, st, if cfg.refresh then AuthRefresh(r, c) else Handler(r, c, None));
    if !cfg.refresh {
      HandlerEffect(cfg, st, r, c, None, env, j);
    } else if cfg.ttl <= 0 {
      RefreshDeletes(cfg, st, r, c, env, j);
    } else {
      RefreshExtends(cfg, st, r, c, env, j);
    }
  }

  lemma AuthEffect(cfg: Config, st: Store, r: Request, env: Env, j: string)
    requires r.bearer.Signed? ==> r.bearer.claims.jti != "" && env.jti != r.bearer.claims.jti
    ensures
      var (st', o) := Alone(cfg, st, AuthToken(r), env);
      && st'.now == st.now && LiveAfter(cfg, st, st', o, j) && SameCounters(st, st')
      && !o.LoggedIn? && !o.AuthFail?
      && (o.Served? || o.LoggedOut? ==> r.bearer == Signed(o.claims))
      && (Renewed(o).Some? ==> Renewed(o).value.jti == env.jti)
  {
    var e := Step(cfg, st, AuthToken(r), env);
    Goes(cfg, st, AuthToken(r), env, st, e.next);
    if e.next.Done? {
      Finished(cfg, st, e.next.outcome, env);
    } else if Live(st, e.next.claims.jti) {
      AuthPass(cfg, st, r, e.next.claims, env, j);
    } else {
      Goes(cfg, st, e.next, env, st, Done(JwtExpired));
      Finished(cfg, st, JwtExpired, env);
    }
  }

  // ---------- What one request does to the counters ----------

  /** A counter after a failed login: one more, and a deadline only if it is new. */
  function Bumped(cfg: Config, st: Store, account: string): Entry
  {
    var k := LoginErr(account);
    if st.Alive(k) then st.entries[k].(value := Num(st.GetInt(k) + 1))
    else Entry(Num(1), Some(st.now + cfg.LoginErrTtl()))
  }

  ghost predicate CountersOk(cfg: Config, st: Store) {
    forall k <- st.entries :: k.LoginErr? ==>
      && st.entries[k].value.Num? && st.entries[k].value.n >= 1
      && st.entries[k].deadline.Some? && st.entries[k].deadline.value <= st.now + cfg.LoginErrTtl()
  }

  ghost predicate CounterAfter(cfg: Config, st: Store, st': Store, login: string, o: Outcome, account: string) {
    var k := LoginErr(account);
    if o.AuthFail? && login == account then
      && !(cfg.errLimit > 0 && st.GetInt(k) >= cfg.errLimit)
      && k in st'.entries && st'.entries[k] == Bumped(cfg, st, account)
    else if o.LoggedIn? && login == account then k !in st'.entries
    else (k in st.entries <==> k in st'.entries) && (k in st.entries ==> st'.entries[k] == st.entries[k])
  }

  /** What a refused login leaves as it was. */
  lemma RefusedEffect(cfg: Config, st: Store, account: string, o: Outcome, other: string, j: string)
    requires o == LoginErrorLimit || o == AccountDisabled || o == AccountLocked
    ensures LiveAfter(cfg, st, st, o, j) && CounterAfter(cfg, st, st, account, o, other)
  {
  }

  /** What counting a failure leaves. */
  lemma CountedEffect(cfg: Config, st: Store, account: string, other: string, j: string)
    requires !(cfg.errLimit > 0 && st.GetInt(LoginErr(account)) >= cfg.errLimit)
    ensures
      var st' := st.(entries := st.entries[LoginErr(account) := Bumped(cfg, st, account)]);
      st'.now == st.now && LiveAfter(cfg, st, st', AuthFail, j) && CounterAfter(cfg, st, st', account, AuthFail, other)
  {
  }

  lemma LookupEffect(cfg: Config, st: Store, account: string, env: Env, other: string, j: string)
    requires CountersOk(cfg, st) && !(cfg.errLimit > 0 && st.GetInt(LoginErr(account)) >= cfg.errLimit)
    ensures
      var (st', o) := Alone(cfg, st, LoginLookup(account), env);
      && st'.now == st.now && LiveAfter(cfg, st, st', o, j) && CounterAfter(cfg, st, st', account, o, other)
      && !o.Served? && !o.LoggedOut?
      && (o.LoggedIn? ==> o.token.jti == env.jti)
  {
    Advance(cfg, st, LoginLookup(account), env);
    match env.lookup {
      case Found(admin) =>
        IssueRun(cfg, st, account, admin, env);
        IssueEffect(cfg, st, account, admin, env, other, j);
      case Disabled =>
        Finished(cfg, st, AccountDisabled, env);
        RefusedEffect(cfg, st, account, AccountDisabled, other, j);
      case Locked =>
        Finished(cfg, st, AccountLocked, env);
        RefusedEffect(cfg, st, account, AccountLocked, other, j);
      case _ =>
        FailEffect(cfg, st, account, env);
        CountedEffect(cfg, st, account, other, j);
    }
  }

  lemma LoginEffect(cfg: Config, st: Store, account: string, env: Env, other: string, j: string)
    requires CountersOk(cfg, st)
    ensures
      var (st', o) := Alone(cfg, st, LoginGate(account), env);
      && st'.now == st.now && LiveAfter(cfg, st, st', o, j) && CounterAfter(cfg, st, st', account, o, other)
      && !o.Served? && !o.LoggedOut?
      && (o.LoggedIn? ==> o.token.jti == env.jti)
  {
    Advance(cfg, st, LoginGate(account), env);
    if cfg.errLimit > 0 && st.GetInt(LoginErr(account)) >= cfg.errLimit {
      Finished(cfg, st, LoginErrorLimit, env);
      RefusedEffect(cfg, st, account, LoginErrorLimit, other, j);
    } else {
      LookupEffect(cfg, st, account, env, other, j);
    }
  }

  lemma FailEffect(cfg: Config, st: Store, account: string, env: Env)
    requires CountersOk(cfg, st)
    ensures Alone(cfg, st, FailIncr(account), env)
         == (st.(entries := st.entries[LoginErr(account) := Bumped(cfg, st, account)]), AuthFail)
  {
    var k := LoginErr(account);
    Advance(cfg, st, FailIncr(account), env);
    var (st1, n) := st.Incr(k);
    if st.Alive(k) {
      assert n > 1;
      Finished(cfg, st1, AuthFail, env);
    } else {
      Advance(cfg, st1, FailExpire(account), env);
      var st2 := st1.Expire(k, cfg.LoginErrTtl());
      assert st2.entries == st.entries[k := Bumped(cfg, st, account)];
      Finished(cfg, st2, AuthFail, env);
    }
  }

  /** The store a successful login leaves. */
  function Issued(cfg: Config, st: Store, account: string, admin: nat, env: Env): Store {
    st.Del(LoginErr(account)).Set(Token(env.jti), Num(admin), cfg.ttl).Set(SignSecret(admin), Str(env.secret), cfg.ttl)
  }

  lemma IssueRun(cfg: Config, st: Store, account: string, admin: nat, env: Env)
    ensures Alone(cfg, st, LoginReset(account, admin), env)
         == (Issued(cfg, st, account, admin, env),
             LoggedIn(Generate(cfg, st.now, env.jti, admin, account), env.secret))
  {
    var token := Generate(cfg, st.now, env.jti, admin, account);
    var st1 := st.Del(LoginErr(account));
    var st2 := st1.Set(Token(env.jti), Num(admin), cfg.ttl);
    var st3 := Issued(cfg, st, account, admin, env);
    Goes(cfg, st, LoginReset(account, admin), env, st1, LoginGenerate(account, admin));
    Goes(cfg, st1, LoginGenerate(account, admin), env, st1, LoginList(token));
    Goes(cfg, st1, LoginList(token), env, st2, LoginSecret(token));
    Goes(cfg, st2, LoginSecret(token), env, st3, Done(LoggedIn(token, env.secret)));
    Finished(cfg, st3, LoggedIn(token, env.secret), env);
  }

  lemma IssueEffect(cfg: Config, st: Store, account: string, admin: nat, env: Env, other: string, j: string)
    ensures
      var st' := Issued(cfg, st, account, admin, env);
      var o := LoggedIn(Generate(cfg, st.now, env.jti, admin, account), env.secret);
      && st'.now == st.now && LiveAfter(cfg, st, st', o, j) && CounterAfter(cfg, st, st', account, o, other)
  {
  }

  /** The account a request logs in to. */
  function Account(r: Request): string {
    if r.route.Login? then r.route.account else ""
  }

  /** Nothing but one nonce key differs. */
  ghost predicate OnlyNonce(st: Store, st': Store) {
    && st'.now == st.now
    && (forall k <- st'.entries :: k.Nonce? || k in st.entries)
    && (forall k <- st.entries :: k.Nonce? || (k in st'.entries && st'.entries[k] == st.entries[k]))
  }

  /** On the way through Sign with request `r`, or at its end. */
  predicate Signing(r: Request, l: Local) {
    || l == AfterSign(r) || l == Done(SignInvalid) || l == Done(SignExpired)
    || ((l.SignClock? || l.SignNonce? || l.SignToken? || l.SignSecretRead?) && l.r == r)
  }

  lemma SigningStep(cfg: Config, st: Store, r: Request, l: Local, env: Env)
    requires Signing(r, l) && !l.Done? && l != AfterSign(r)
    ensures
      var e := Step(cfg, st, l, env);
      Signing(r, e.next) && OnlyNonce(st, e.store)
  {
  }

  lemma OnlyNonceTransitive(a: Store, b: Store, c: Store)
    requires OnlyNonce(a, b) && OnlyNonce(b, c)
    ensures OnlyNonce(a, c)
  {
  }

  /** After Sign, only a nonce has been added, and the request is refused or goes on. */
  lemma SignPhase(cfg: Config, st: Store, r: Request, env: Env) returns (st': Store, l: Local)
    ensures Alone(cfg, st, StartSign(r), env) == Alone(cfg, st', l, env)
    ensures OnlyNonce(st, st')
    ensures l == AfterSign(r) || l == Done(SignInvalid) || l == Done(SignExpired)
  {
    st', l := st, StartSign(r);
    while !l.Done? && l != AfterSign(r)
      invariant Alone(cfg, st, StartSign(r), env) == Alone(cfg, st', l, env)
      invariant OnlyNonce(st, st') && Signing(r, l)
      decreases Rank(l)
    {
      Advance(cfg, st', l, env);
      StepDescends(cfg, st', l, env);
      SigningStep(cfg, st', r, l, env);
      var e := Step(cfg, st', l, env);
      OnlyNonceTransitive(st, st', e.store);
      st', l := e.store, e.next;
    }
  }

  /** A whole request: Sign touches neither the whitelist nor the counters, and the rest is as above. */
  lemma ServeEffect(cfg: Config, st: Store, r: Request, env: Env, account: string, j: string)
    requires CountersOk(cfg, st)
    requires r.bearer.Signed? ==> r.bearer.claims.jti != "" && env.jti != r.bearer.claims.jti
    ensures
      var (st', o) := Alone(cfg, st, StartSign(r), env);
      && st'.now == st.now && LiveAfter(cfg, st, st', o, j) && CounterAfter(cfg, st, st', Account(r), o, account)
      && (o.Served? || o.LoggedOut? ==> r.bearer == Signed(o.claims))
      && (Renewed(o).Some? ==> Renewed(o).value.jti == env.jti)
      && (o.LoggedIn? ==> o.token.jti == env.jti)
      && (o.LoggedIn? || o.AuthFail? ==> r.route.Login?)
  {
    var st1, l := SignPhase(cfg, st, r, env);
    assert CountersOk(cfg, st1);
    DispatchEffect(cfg, st1, r, l, env, account, j);
    var (st', o) := Alone(cfg, st1, l, env);
    SameKeysMatter(cfg, st, st1, st', o, Account(r), account, j);
  }

  lemma SameKeysMatter(cfg: Config, st: Store, st1: Store, st': Store, o: Outcome,
                       login: string, account: string, j: string)
    requires OnlyNonce(st, st1)
    requires LiveAfter(cfg, st1, st', o, j) && CounterAfter(cfg, st1, st', login, o, account)
    ensures LiveAfter(cfg, st, st', o, j) && CounterAfter(cfg, st, st', login, o, account)
  {
    forall i ensures Live(st1, i) <==> Live(st, i) {
      assert Token(i) in st.entries ==> Token(i) in st1.entries;
    }
    assert LoginErr(account) in st.entries <==> LoginErr(account) in st1.entries;
  }

  lemma DispatchEffect(cfg: Config, st: Store, r: Request, l: Local, env: Env, account: string, j: string)
    requires CountersOk(cfg, st)
    requires r.bearer.Signed? ==> r.bearer.claims.jti != "" && env.jti != r.bearer.claims.jti
    requires l == AfterSign(r) || l == Done(SignInvalid) || l == Done(SignExpired)
    ensures
      var (st', o) := Alone(cfg, st, l, env);
      && st'.now == st.now && LiveAfter(cfg, st, st', o, j) && CounterAfter(cfg, st, st', Account(r), o, account)
      && (o.Served? || o.LoggedOut? ==> r.bearer == Signed(o.claims))
      && (Renewed(o).Some? ==> Renewed(o).value.jti == env.jti)
      && (o.LoggedIn? ==> o.token.jti == env.jti)
      && (o.LoggedIn? || o.AuthFail? ==> r.route.Login?)
  {
    if l.Done? {
      Finished(cfg, st, l.outcome, env);
    } else if r.route.Login? {
      LoginEffect(cfg, st, r.route.account, env, account, j);
      assert Renewed(Alone(cfg, st, l, env).1).None?;
    } else {
      AuthEffect(cfg, st, r, env, j);
    }
  }

  // ---------- Token lineage ----------

  function LiveTokens(st: Store): set<string> {
    set k | k in st.entries && k.Token? && st.Alive(k) :: k.jti
  }

  ghost predicate LineageOk(s: Sys) {
    && (forall j :: j in s.issued ==> s.issued[j].jti == j && j != "")
    && (forall j :: j in s.root ==> j in s.issued && s.root[j] < s.logins)
    && (forall j :: Live(s.store, j) ==> j in s.root)
    && (forall i, j :: Live(s.store, i) && Live(s.store, j) && i != j ==> s.root[i] != s.root[j])
  }

  ghost predicate Inv(cfg: Config, s: Sys) {
    LineageOk(s) && CountersOk(cfg, s.store)
  }

  lemma ServeCounters(cfg: Config, s: Sys, r: Request, env: Env)
    requires Inv(cfg, s) && Enabled(s, Serve(r, env))
    ensures CountersOk(cfg, Apply(cfg, s, Serve(r, env)).store)
  {
    var st' := Alone(cfg, s.store, StartSign(r), env).0;
    forall k <- st'.entries
      ensures k.LoginErr? ==>
        && st'.entries[k].value.Num? && st'.entries[k].value.n >= 1
        && st'.entries[k].deadline.Some? && st'.entries[k].deadline.value <= st'.now + cfg.LoginErrTtl()
    {
      if k.LoginErr? {
        ServeEffect(cfg, s.store, r, env, k.account, "");
      }
    }
  }

  lemma ServeLineage(cfg: Config, s: Sys, r: Request, env: Env)
    requires Inv(cfg, s) && Enabled(s, Serve(r, env))
    ensures LineageOk(Apply(cfg, s, Serve(r, env)))
  {
    var (st', o) := Alone(cfg, s.store, StartSign(r), env);
    ServeEffect(cfg, s.store, r, env, "", "");
    forall j ensures LiveAfter(cfg, s.store, st', o, j) {
      ServeEffect(cfg, s.store, r, env, "", j);
    }
    LineageAfter(cfg, s, st', o, Apply(cfg, s, Serve(r, env)), env.jti);
  }

  lemma LineageAfter(cfg: Config, s: Sys, st': Store, o: Outcome, s': Sys, jti: string)
    requires LineageOk(s) && jti != "" && jti !in s.issued
    requires forall j :: LiveAfter(cfg, s.store, st', o, j)
    requires o.LoggedIn? ==>
      o.token.jti == jti && s' == Sys(st', s.issued[jti := o.token], s.root[jti := s.logins], s.logins + 1)
    requires !o.LoggedIn? && Renewed(o).Some? && o.claims.jti in s.root ==>
      && Renewed(o).value.jti == jti
      && s' == Sys(st', s.issued[jti := Renewed(o).value], s.root[jti := s.root[o.claims.jti]], s.logins)
    requires !o.LoggedIn? && !(Renewed(o).Some? && o.claims.jti in s.root) ==> s' == s.(store := st')
    ensures LineageOk(s')
  {
    assert LiveAfter(cfg, s.store, st', o, "");
    forall j | Live(st', j) ensures j in s'.root {
      assert LiveAfter(cfg, s.store, st', o, j);
    }
    forall i, j | Live(st', i) && Live(st', j) && i != j ensures s'.root[i] != s'.root[j] {
      assert LiveAfter(cfg, s.store, st', o, i) && LiveAfter(cfg, s.store, st', o, j);
    }
  }

  lemma {:induction false} Always(cfg: Config, now: int, acts: seq<Action>)
    ensures Inv(cfg, Exec(cfg, Initial(now), acts))
  {
    if acts != [] {
      var s := Exec(cfg, Initial(now), acts[..|acts| - 1]);
      var a := acts[|acts| - 1];
      Always(cfg, now, acts[..|acts| - 1]);
      if Enabled(s, a) {
        match a {
          case Wait(d) =>
            var s' := Apply(cfg, s, a);
            assert forall j :: Live(s'.store, j) ==> Live(s.store, j);
          case Serve(r, env) =>
            ServeCounters(cfg, s, r, env);
            ServeLineage(cfg, s, r, env);
        }
      }
    }
  }

  /**
   When requests are served one after the other, the chain of tokens reissued from one login has at most one live
   member at any time.
   */
  lemma OneLivePerLogin(cfg: Config, now: int, acts: seq<Action>, i: string, j: string)
    ensures
      var s := Exec(cfg, Initial(now), acts);
      Live(s.store, i) && Live(s.store, j) ==>
        i in s.root && j in s.root && (s.root[i] == s.root[j] ==> i == j)
  {
    Always(cfg, now, acts);
  }

  lemma {:induction false} InjectiveBound(xs: set<string>, root: map<string, nat>, n: nat)
    requires forall x :: x in xs ==> x in root && root[x] < n
    requires forall x, y :: x in xs && y in xs && x != y ==> root[x] != root[y]
    ensures |xs| <= n
    decreases n
  {
    if n == 0 {
      assert forall x :: x !in xs;
      assert xs == {};
    } else if exists x :: x in xs && root[x] == n - 1 {
      var x :| x in xs && root[x] == n - 1;
      InjectiveBound(xs - {x}, root, n - 1);
    } else {
      InjectiveBound(xs, root, n - 1);
    }
  }

  /** So there are never more live tokens than there have been successful logins. */
  lemma LiveTokensBounded(cfg: Config, now: int, acts: seq<Action>)
    ensures
      var s := Exec(cfg, Initial(now), acts);
      |LiveTokens(s.store)| <= s.logins
  {
    Always(cfg, now, acts);
    var s := Exec(cfg, Initial(now), acts);
    forall x | x in LiveTokens(s.store) ensures Live(s.store, x) {
    }
    InjectiveBound(LiveTokens(s.store), s.root, s.logins);
  }

  // ---------- The rate of counted failures ----------

  predicate FailedFor(cfg: Config, s: Sys, a: Action, account: string) {
    a.Serve? && Enabled(s, a) && Account(a.r) == account && Answer(cfg, s, a).AuthFail?
  }

  predicate SucceededFor(cfg: Config, s: Sys, a: Action, account: string) {
    a.Serve? && Enabled(s, a) && Account(a.r) == account && Answer(cfg, s, a).LoggedIn?
  }

  /** How many counted failures of `account` a run makes from `s` on. */
  function Failures(cfg: Config, s: Sys, acts: seq<Action>, account: string): nat
    decreases |acts|
  {
    if acts == [] then 0
    else
      (if FailedFor(cfg, s, acts[0], account) then 1 else 0)
      + Failures(cfg, Apply(cfg, s, acts[0]), acts[1..], account)
  }

  /** The run stays before or at time `until` and has no successful login of `account`. */
  predicate Quiet(cfg: Config, s: Sys, acts: seq<Action>, account: string, until: int)
    decreases |acts|
  {
    && s.store.now <= until
    && (acts == [] || (!SucceededFor(cfg, s, acts[0], account)
                       && Quiet(cfg, Apply(cfg, s, acts[0]), acts[1..], account, until)))
  }

  /** How many failures can still be counted before `until`, one lifetime after some past or present moment. */
  function Budget(cfg: Config, st: Store, account: string, until: int): int
  {
    var k := LoginErr(account);
    var left := if st.GetInt(k) < cfg.errLimit then cfg.errLimit - st.GetInt(k) else 0;
    if !st.Alive(k) then cfg.errLimit
    else if st.entries[k].deadline.Some? && st.entries[k].deadline.value < until then left + cfg.errLimit
    else left
  }

  lemma BudgetStep(cfg: Config, s: Sys, a: Action, account: string, until: int)
    requires cfg.errLimit > 0 && Inv(cfg, s)
    requires until - cfg.LoginErrTtl() <= s.store.now && Apply(cfg, s, a).store.now <= until
    requires !SucceededFor(cfg, s, a, account) && (a.Serve? ==> account != "")
    ensures (if FailedFor(cfg, s, a, account) then 1 else 0) + Budget(cfg, Apply(cfg, s, a).store, account, until)
         <= Budget(cfg, s.store, account, until)
    ensures Inv(cfg, Apply(cfg, s, a)) && s.store.now <= Apply(cfg, s, a).store.now
  {
    if Enabled(s, a) {
      match a {
        case Wait(d) =>
          assert forall j :: Live(Apply(cfg, s, a).store, j) ==> Live(s.store, j);
        case Serve(r, env) =>
          ServeCounters(cfg, s, r, env);
          ServeLineage(cfg, s, r, env);
          ServeEffect(cfg, s.store, r, env, account, "");
      }
    }
  }

  lemma {:induction false} BudgetBounds(cfg: Config, s: Sys, acts: seq<Action>, account: string, until: int)
    requires cfg.errLimit > 0 && Inv(cfg, s) && account != ""
    requires until - cfg.LoginErrTtl() <= s.store.now && Quiet(cfg, s, acts, account, until)
    ensures Failures(cfg, s, acts, account) <= Budget(cfg, s.store, account, until)
    decreases |acts|
  {
    if acts == [] {
    } else {
      BudgetStep(cfg, s, acts[0], account, until);
      BudgetBounds(cfg, Apply(cfg, s, acts[0]), acts[1..], account, until);
    }
  }

  /**
   With a positive limit: in any sequential run, a stretch of time no longer than the counter's lifetime (both ends
   included) without a successful login of an account holds at most `2 * limit - 1` counted failures of it. The
   factor two is there because only the first failure sets the deadline.
   */
  lemma LockoutRate(cfg: Config, now: int, past: seq<Action>, window: seq<Action>, account: string)
    requires cfg.errLimit > 0 && account != ""
    requires
      var s := Exec(cfg, Initial(now), past);
      Quiet(cfg, s, window, account, s.store.now + cfg.LoginErrTtl())
    ensures Failures(cfg, Exec(cfg, Initial(now), past), window, account) <= 2 * cfg.errLimit - 1
  {
    Always(cfg, now, past);
    var s := Exec(cfg, Initial(now), past);
    BudgetBounds(cfg, s, window, account, s.store.now + cfg.LoginErrTtl());
  }
}
