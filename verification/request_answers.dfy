/**
 What a login and a request with a token are answered and leave behind, for every store: the counter, the limit, what
 the admin table says, and the state of the token decide.
 */
module RequestAnswers {
  import opened Wrappers
  import opened Redis
  import opened Session
  import opened SignatureCheck
  import Interleaving
  import Sequential

  // ---------- Logins ----------

  ghost predicate OthersKept(st: Store, st': Store, keys: set<Key>) {
    st'.now == st.now && forall k | k !in keys :: st'.Stored(k) == st.Stored(k)
  }

  /**
   The counter is one higher. A new one lives for the configured lifetime from now, fifteen minutes if none is
   configured; an old one keeps its deadline.
   */
  ghost predicate CountedOnce(cfg: Config, st: Store, account: string, st': Store) {
    var k := LoginErr(account);
    var lifetime := if cfg.errTtl <= 0 then 900_000 else cfg.errTtl;
    && OthersKept(st, st', {k}) && st'.GetInt(k) == st.GetInt(k) + 1
    && (if st.GetInt(k) == 0 then forall t :: st'.(now := t).Alive(k) <==> t <= st.now + lifetime
        else forall t :: st'.(now := t).Alive(k) <==> st.(now := t).Alive(k))
  }

  /** The token and the secret of a login: for this admin, and both for one lifetime. The counter is gone. */
  ghost predicate SessionOpened(cfg: Config, st: Store, account: string, admin: nat, env: Env, st': Store, o: Outcome) {
    && o.LoggedIn? && o.secret == env.secret && o.token.jti == env.jti
    && o.token.admin == admin && o.token.account == account
    && st.now + cfg.ttl - 1000 < o.token.exp <= st.now + cfg.ttl && o.token.exp % 1000 == 0
    && OthersKept(st, st', {LoginErr(account), Token(env.jti), SignSecret(admin)})
    && LoginErr(account) !in st'.entries && st'.Get(Token(env.jti)) == Some(Num(admin))
    && (forall t :: st'.(now := t).Alive(Token(env.jti)) <==> cfg.ttl <= 0 || t <= st.now + cfg.ttl)
    && (forall t :: st'.(now := t).GetStr(SignSecret(admin))
                    == if cfg.ttl <= 0 || t <= st.now + cfg.ttl then env.secret else "")
  }

  predicate Limited(cfg: Config, st: Store, account: string) {
    cfg.errLimit > 0 && st.GetInt(LoginErr(account)) >= cfg.errLimit
  }

  /** Which answer belongs to which result of the lookup. A disabled or locked account is told so and counts nothing. */
  ghost predicate LookupEnds(cfg: Config, st: Store, account: string, env: Env, st': Store, o: Outcome) {
    match env.lookup
    case Disabled => st' == st && o == AccountDisabled
    case Locked => st' == st && o == AccountLocked
    case Found(admin) => SessionOpened(cfg, st, account, admin, env, st', o)
    case _ => o == AuthFail && (CounterIsNumber(st, account) ==> CountedOnce(cfg, st, account, st'))
  }

  /** No one stores anything but a number under a counter key. */
  predicate CounterIsNumber(st: Store, account: string) {
    match st.Get(LoginErr(account))
    case Some(Str(_)) => false
    case _ => true
  }

  lemma FailureCounts(cfg: Config, st: Store, account: string, env: Env)
    ensures
      var (st', o) := Alone(cfg, st, FailIncr(account), env);
      o == AuthFail && (CounterIsNumber(st, account) ==> CountedOnce(cfg, st, account, st'))
  {
    var k := LoginErr(account);
    var (st1, n) := st.Incr(k);
    Advance(cfg, st, FailIncr(account), env);
    if n == 1 {
      Advance(cfg, st1, FailExpire(account), env);
      Finished(cfg, st1.Expire(k, cfg.LoginErrTtl()), AuthFail, env);
    } else {
      Finished(cfg, st1, AuthFail, env);
    }
  }

  lemma SessionOpens(cfg: Config, st: Store, account: string, admin: nat, env: Env)
    ensures
      var (st', o) := Alone(cfg, st, LoginReset(account, admin), env);
      SessionOpened(cfg, st, account, admin, env, st', o)
  {
    Sequential.IssueRun(cfg, st, account, admin, env);
  }

  lemma LookupAnswers(cfg: Config, st: Store, account: string, env: Env)
    ensures
      var (st', o) := Alone(cfg, st, LoginLookup(account), env);
      LookupEnds(cfg, st, account, env, st', o)
  {
    Advance(cfg, st, LoginLookup(account), env);
    match env.lookup {
      case Disabled => Finished(cfg, st, AccountDisabled, env);
      case Locked => Finished(cfg, st, AccountLocked, env);
      case Found(admin) => SessionOpens(cfg, st, account, admin, env);
      case _ => FailureCounts(cfg, st, account, env);
    }
  }

  /** Without an account or a password, at the limit, and otherwise by the lookup; only the last can change anything. */
  ghost predicate LoginEnds(cfg: Config, st: Store, account: string, password: string, env: Env,
                            st': Store, o: Outcome)
  {
    if account == "" || password == "" then st' == st && o == ParamError
    else if Limited(cfg, st, account) then st' == st && o == LoginErrorLimit
    else LookupEnds(cfg, st, account, env, st', o)
  }

  /** What a login is answered and leaves, for every store and every result of the lookup. */
  lemma LoginAnswers(cfg: Config, st: Store, account: string, password: string, env: Env)
    ensures
      var (st', o) := Alone(cfg, st, StartLogin(account, password), env);
      LoginEnds(cfg, st, account, password, env, st', o)
  {
    if account == "" || password == "" {
      Finished(cfg, st, ParamError, env);
    } else {
      Advance(cfg, st, LoginGate(account), env);
      Finished(cfg, st, LoginErrorLimit, env);
      LookupAnswers(cfg, st, account, env);
    }
  }

  // ---------- Barred accounts over runs ----------

  predicate Bars(lookup: Lookup) {
    lookup == Disabled || lookup == Locked
  }

  /** Every login of the account that looks it up in the run finds it disabled or locked. */
  ghost predicate AlwaysBarred(cfg: Config, s: Interleaving.Sys, acts: seq<Interleaving.Action>, account: string) {
    forall k | 0 <= k < |acts| && acts[k].Run? :: BarredAt(cfg, Interleaving.Exec(cfg, s, acts[..k]), acts[k], account)
  }

  predicate BarredAt(cfg: Config, s: Interleaving.Sys, a: Interleaving.Action, account: string)
    requires a.Run?
  {
    a.tid in s.threads && s.threads[a.tid] == LoginLookup(account) ==> Bars(a.env.lookup)
  }

  /** The request is not about to write the counter of the account. */
  predicate Harmless(l: Local, account: string) {
    l != FailIncr(account) && l != FailExpire(account) && !(l.LoginReset? && l.account == account)
  }

  ghost predicate NonePending(s: Interleaving.Sys, account: string) {
    forall t :: t in s.threads ==> Harmless(s.threads[t], account)
  }

  lemma HarmlessStep(cfg: Config, st: Store, l: Local, env: Env, account: string)
    requires Harmless(l, account) && (l == LoginLookup(account) ==> Bars(env.lookup))
    ensures
      var e := Step(cfg, st, l, env);
      Harmless(e.next, account) && e.store.Stored(LoginErr(account)) == st.Stored(LoginErr(account))
  {
  }

  /**
   While every lookup of an account finds it disabled or locked, its counter does not change under any interleaving,
   from any state in which none of its logins is about to write it.
   */
  lemma {:induction false} BarredKeepsCounter(cfg: Config, s: Interleaving.Sys, acts: seq<Interleaving.Action>,
                                              account: string)
    requires NonePending(s, account) && AlwaysBarred(cfg, s, acts, account)
    ensures
      var s' := Interleaving.Exec(cfg, s, acts);
      NonePending(s', account) && s'.store.Stored(LoginErr(account)) == s.store.Stored(LoginErr(account))
  {
    if acts != [] {
      var n := |acts| - 1;
      forall k | 0 <= k < n && acts[..n][k].Run?
        ensures BarredAt(cfg, Interleaving.Exec(cfg, s, acts[..n][..k]), acts[..n][k], account)
      {
        assert acts[..n][..k] == acts[..k];
      }
      BarredKeepsCounter(cfg, s, acts[..n], account);
      var s1 := Interleaving.Exec(cfg, s, acts[..n]);
      if Interleaving.Enabled(cfg, s1, acts[n]) && acts[n].Run? {
        HarmlessStep(cfg, s1.store, s1.threads[acts[n].tid], acts[n].env, account);
      }
    }
  }

  /** Without a counter a login goes on to the lookup, and a barred one ends there. */
  lemma BarredSteps(cfg: Config, st: Store, account: string, env: Env)
    requires LoginErr(account) !in st.entries
    ensures Step(cfg, st, LoginGate(account), env) == Effect(st, LoginLookup(account), Quiet)
    ensures Bars(env.lookup) ==>
      Step(cfg, st, LoginLookup(account), env).next
      == Done(if env.lookup == Disabled then AccountDisabled else AccountLocked)
  {
  }

  /**
   From the empty store such an account is never locked out: whenever one of its logins reads the counter it goes on to
   the lookup, and from there it is told that the account is disabled or locked.
   */
  lemma BarredNeverLimited(cfg: Config, now: int, acts: seq<Interleaving.Action>, account: string, tid: nat, env: Env)
    requires AlwaysBarred(cfg, Interleaving.Initial(now), acts, account)
    ensures
      var s := Interleaving.Exec(cfg, Interleaving.Initial(now), acts);
      && LoginErr(account) !in s.store.entries
      && (tid in s.threads && s.threads[tid] == LoginGate(account) ==>
            Step(cfg, s.store, s.threads[tid], env) == Effect(s.store, LoginLookup(account), Quiet))
      && (tid in s.threads && s.threads[tid] == LoginLookup(account) && Bars(env.lookup) ==>
            Step(cfg, s.store, s.threads[tid], env).next
            == Done(if env.lookup == Disabled then AccountDisabled else AccountLocked))
  {
    BarredKeepsCounter(cfg, Interleaving.Initial(now), acts, account);
    var st := Interleaving.Exec(cfg, Interleaving.Initial(now), acts).store;
    assert st.Stored(LoginErr(account)) == None;
    BarredSteps(cfg, st, account, env);
  }

  // ---------- Requests with a token ----------

  /** The token has not expired and is on the whitelist. */
  predicate TokenAccepted(st: Store, b: Bearer) {
    b.Signed? && st.now < b.claims.exp && st.Alive(Token(b.claims.jti))
  }

  /** What a request without an accepted token is told. */
  function TokenRefusal(b: Bearer): Outcome {
    match b
    case NoToken => Unauthorized
    case Garbage => JwtInvalid
    case Signed(_) => JwtExpired
  }

  /** A new token for the same admin, for one lifetime from now. */
  predicate Successor(cfg: Config, now: int, c: Claims, m: Claims) {
    && m.admin == c.admin && m.account == c.account && m.exp % 1000 == 0
    && now + cfg.ttl - 1000 < m.exp <= now + cfg.ttl
  }

  /** The whitelist entry lives for exactly one more lifetime. */
  ghost predicate ListedFrom(cfg: Config, now: int, st': Store, jti: string) {
    forall t :: st'.(now := t).Alive(Token(jti)) <==> t <= now + cfg.ttl
  }

  /** The whitelist when the handler runs: an old token makes room for its successor, and any other is extended. */
  ghost predicate WhitelistMoved(cfg: Config, st: Store, c: Claims, renewed: Option<Claims>, st': Store) {
    match renewed
    case Some(m) =>
      m.jti != c.jti ==>
        && ListedFrom(cfg, st.now, st', m.jti)
        && (c.jti != "" ==> !st'.Alive(Token(c.jti))) && OthersKept(st, st', {Token(c.jti), Token(m.jti)})
    case None =>
      if !cfg.refresh then st' == st
      else
        OthersKept(st, st', {Token(c.jti)})
        && if cfg.ttl > 0 then ListedFrom(cfg, st.now, st', c.jti) else !st'.Alive(Token(c.jti))
  }

  /**
   The request gets to its handler, in the store `mid`, as the admin of its token. It brings a new token exactly if less
   than half of the old one's life is left. A logout then takes the secret and the old token away, and nothing else.
   */
  ghost predicate Admitted(cfg: Config, st: Store, r: Request, env: Env, mid: Store, st': Store, o: Outcome)
    requires r.bearer.Signed?
  {
    var c := r.bearer.claims;
    && (if r.route.Logout? then o.LoggedOut? else o.Served?) && o.claims == c
    && o.renewed.Some? == (cfg.refresh && 2 * (c.exp - st.now) < cfg.ttl)
    && (o.renewed.Some? ==> Successor(cfg, st.now, c, o.renewed.value) && o.renewed.value.jti == env.jti)
    && WhitelistMoved(cfg, st, c, o.renewed, mid)
    && (!r.route.Logout? ==> st' == mid)
    && (r.route.Logout? ==>
          && OthersKept(mid, st', {Token(c.jti), SignSecret(c.admin)})
          && !st'.Alive(Token(c.jti)) && !st'.Alive(SignSecret(c.admin)))
  }

  /** The store in which the handler of an admitted request runs. */
  function AtHandler(cfg: Config, st: Store, c: Claims, env: Env): Store {
    var st1 := if cfg.refresh then st.Expire(Token(c.jti), cfg.ttl) else st;
    if !cfg.refresh || 2 * (c.exp - st.now) >= cfg.ttl then st1
    else
      var st2 := st1.Set(Token(env.jti), Num(c.admin), cfg.ttl);
      if c.jti != "" then st2.Del(Token(c.jti)) else st2
  }

  function NewToken(cfg: Config, st: Store, c: Claims, env: Env): Option<Claims> {
    if cfg.refresh && 2 * (c.exp - st.now) < cfg.ttl then Some(Generate(cfg, st.now, env.jti, c.admin, c.account))
    else None
  }

  lemma RunsToHandler(cfg: Config, st: Store, r: Request, env: Env)
    requires TokenAccepted(st, r.bearer)
    ensures
      var c := r.bearer.claims;
      Alone(cfg, st, AuthToken(r), env)
      == Alone(cfg, AtHandler(cfg, st, c, env), Handler(r, c, NewToken(cfg, st, c, env)), env)
  {
    var c := r.bearer.claims;
    Goes(cfg, st, AuthToken(r), env, st, AuthActive(r, c));
    if cfg.refresh {
      var st1 := st.Expire(Token(c.jti), cfg.ttl);
      Goes(cfg, st, AuthActive(r, c), env, st, AuthRefresh(r, c));
      Goes(cfg, st, AuthRefresh(r, c), env, st1, AuthHalfLife(r, c));
      RunsToReissue(cfg, st1, r, c, env);
    } else {
      Goes(cfg, st, AuthActive(r, c), env, st, Handler(r, c, None));
    }
  }

  lemma RunsToReissue(cfg: Config, st: Store, r: Request, c: Claims, env: Env)
    requires st.now < c.exp
    ensures
      var m := Generate(cfg, st.now, env.jti, c.admin, c.account);
      var st1 := st.Set(Token(env.jti), Num(c.admin), cfg.ttl);
      Alone(cfg, st, AuthHalfLife(r, c), env)
      == if 2 * (c.exp - st.now) < cfg.ttl
         then Alone(cfg, if c.jti != "" then st1.Del(Token(c.jti)) else st1, Handler(r, c, Some(m)), env)
         else Alone(cfg, st, Handler(r, c, None), env)
  {
    if 2 * (c.exp - st.now) < cfg.ttl {
      var m := Generate(cfg, st.now, env.jti, c.admin, c.account);
      var st1 := st.Set(Token(env.jti), Num(c.admin), cfg.ttl);
      var st2 := if c.jti != "" then st1.Del(Token(c.jti)) else st1;
      Goes(cfg, st, AuthHalfLife(r, c), env, st, ReissueSet(r, c, m));
      Goes(cfg, st, ReissueSet(r, c, m), env, st1, ReissueDel(r, c, m));
      Goes(cfg, st1, ReissueDel(r, c, m), env, st2, Handler(r, c, Some(m)));
    } else {
      Goes(cfg, st, AuthHalfLife(r, c), env, st, Handler(r, c, None));
    }
  }

  lemma AtHandlerMoves(cfg: Config, st: Store, c: Claims, env: Env)
    requires st.now < c.exp && st.Alive(Token(c.jti))
    ensures WhitelistMoved(cfg, st, c, NewToken(cfg, st, c, env), AtHandler(cfg, st, c, env))
    ensures
      var m := NewToken(cfg, st, c, env);
      m.Some? ==> Successor(cfg, st.now, c, m.value) && m.value.jti == env.jti
  {
  }

  /** Which requests get past JWTAuth, as whom, with which new token, and what every other one is answered. */
  lemma TokenAnswers(cfg: Config, st: Store, r: Request, env: Env) returns (mid: Store)
    ensures
      var (st', o) := Alone(cfg, st, AuthToken(r), env);
      if TokenAccepted(st, r.bearer) then Admitted(cfg, st, r, env, mid, st', o)
      else st' == st && o == TokenRefusal(r.bearer)
  {
    if TokenAccepted(st, r.bearer) {
      var c := r.bearer.claims;
      mid := AtHandler(cfg, st, c, env);
      RunsToHandler(cfg, st, r, env);
      AtHandlerMoves(cfg, st, c, env);
      Sequential.HandlerRun(cfg, mid, r, c, NewToken(cfg, st, c, env), env);
    } else {
      mid := st;
      Finished(cfg, st, TokenRefusal(r.bearer), env);
      Advance(cfg, st, AuthToken(r), env);
      if r.bearer.Signed? && st.now < r.bearer.claims.exp {
        Advance(cfg, st, AuthActive(r, r.bearer.claims), env);
      }
    }
  }

  /** A renewal leaves no moment without a live token: the successor is listed before the old one goes. */
  lemma RenewalHasNoGap(cfg: Config, st: Store, r: Request, c: Claims, env: Env)
    requires st.now < c.exp && 2 * (c.exp - st.now) < cfg.ttl && st.Alive(Token(c.jti)) && env.jti != c.jti
    ensures
      var e1 := Step(cfg, st, AuthHalfLife(r, c), env);
      var e2 := Step(cfg, e1.store, e1.next, env);
      var e3 := Step(cfg, e2.store, e2.next, env);
      && e1.store.Alive(Token(c.jti)) && (e2.store.Alive(Token(c.jti)) || e2.store.Alive(Token(env.jti)))
      && e3.store.Alive(Token(env.jti)) && e3.next.Handler?
  {
  }

  // ---------- Whole requests ----------

  /** The request is answered and leaves `st'` where Sign has left `st1`. */
  ghost predicate RouteEnds(cfg: Config, st1: Store, r: Request, env: Env, st': Store, o: Outcome) {
    match r.route
    case Public => st' == st1 && o == PublicServed
    case Login(account, password) => LoginEnds(cfg, st1, account, password, env, st', o)
    case _ =>
      if TokenAccepted(st1, r.bearer) then exists mid :: Admitted(cfg, st1, r, env, mid, st', o)
      else st' == st1 && o == TokenRefusal(r.bearer)
  }

  lemma RouteAnswers(cfg: Config, st1: Store, r: Request, env: Env)
    ensures
      var (st', o) := Alone(cfg, st1, AfterSign(r), env);
      RouteEnds(cfg, st1, r, env, st', o)
  {
    match r.route {
      case Public => Finished(cfg, st1, PublicServed, env);
      case Login(account, password) => LoginAnswers(cfg, st1, account, password, env);
      case _ => var mid := TokenAnswers(cfg, st1, r, env);
    }
  }

  /**
   Every request, of any route, in any store: nothing is served without the headers, the time, a free nonce and a
   signature that holds; behind that, public routes ask for nothing more, and protected ones for an accepted token.
   */
  lemma WholeRequest(cfg: Config, st: Store, r: Request, env: Env) returns (st1: Store)
    ensures
      var (st', o) := Alone(cfg, st, StartSign(r), env);
      if !Headers(r) || (InTime(st, r) && st.Alive(Nonce(r.fields.nonce))) then st' == st && o == SignInvalid
      else if !InTime(st, r) then st' == st && o == SignExpired
      else
        NonceNoted(st, r, st1)
        && if SignatureHolds(cfg, st, r) then RouteEnds(cfg, st1, r, env, st', o) else st' == st1 && o == SignInvalid
  {
    st1 := SignAnswers(cfg, st, r, env);
    RouteAnswers(cfg, st1, r, env);
  }
}
