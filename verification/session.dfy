/**
 Admin sessions, one Redis command at a time. A request is a `Local`: the command it is about to send, with the
 values it has read so far. `Step` sends that command. The imperative service (auth_service.dfy) and the
 interleaved system (interleaving.dfy) are both defined by `Step`.
 Times and lifetimes are in milliseconds.
 */
module Session {
  import opened Wrappers
  import opened Redis
  import Decimal
  import Signing

  const SIGN_WINDOW: int := 300_000
  const NONCE_TTL: int := 300_000
  const DEFAULT_LOGIN_ERR_TTL: int := 900_000

  datatype Config = Config(
    ttl: int,            // lifetime of JWTs, whitelist entries and signing secrets
    refresh: bool,       // refresh_on_access
    errLimit: int,       // login_error_limit
    errTtl: int,         // login_error_ttl
    staticSecret: string,
    mac: Signing.Mac)
  {
    function LoginErrTtl(): (t: int)
      ensures t > 0
    {
      if errTtl <= 0 then DEFAULT_LOGIN_ERR_TTL else errTtl
    }
  }

  // ---------- Tokens (internal/auth/jwt.go) ----------

  /** The signed part of a JWT. */
  datatype Claims = Claims(jti: string, admin: nat, account: string, exp: int)

  /** The exp claim counts whole seconds (section 4.1.4 of RFC 7519): the fraction is cut off. */
  function Expiry(now: int, ttl: int): (e: int)
    ensures now + ttl - 1000 < e <= now + ttl
  {
    (now + ttl) / 1000 * 1000
  }

  function Generate(cfg: Config, now: int, jti: string, admin: nat, account: string): Claims {
    Claims(jti, admin, account, Expiry(now, cfg.ttl))
  }

  /** The Authorization header: absent, a token this service signed, or anything else. */
  datatype Bearer = NoToken | Signed(claims: Claims) | Garbage

  datatype ParseResult = Parsed(claims: Claims) | TokenExpired | TokenInvalid

  function Parse(now: int, b: Bearer): ParseResult {
    match b
    case Signed(c) => if now < c.exp then Parsed(c) else TokenExpired
    case _ => TokenInvalid
  }

  // ---------- Requests ----------

  /** What runs behind the middleware: a public handler, the login, a protected handler, or the logout. */
  datatype Route = Public | Login(account: string, password: string) | Protected | Logout

  datatype Request = Request(fields: Signing.Fields, sig: string, bearer: Bearer, route: Route)

  /** What the admin table says about a login: internal/service/auth_service.go:86-104. */
  datatype Lookup = NotFound | Disabled | Locked | WrongPassword | Found(admin: nat)

  /** The values a request gets from outside: the table row, and the fresh random strings. */
  datatype Env = Env(lookup: Lookup, jti: string, secret: string)

  datatype Outcome =
    | SignInvalid | SignExpired | Unauthorized | JwtExpired | JwtInvalid
    | ParamError | LoginErrorLimit | AuthFail | AccountDisabled | AccountLocked
    | PublicServed
    | LoggedIn(token: Claims, secret: string)
    | Served(claims: Claims, renewed: Option<Claims>)
    | LoggedOut(claims: Claims, renewed: Option<Claims>)

  datatype Local =
    | SignClock(r: Request)
    | SignNonce(r: Request, ts: int, checkedAt: int)
    | SignToken(r: Request)
    | SignSecretRead(r: Request, claims: Claims)
    | AuthToken(r: Request)
    | AuthActive(r: Request, claims: Claims)
    | AuthRefresh(r: Request, claims: Claims)
    | AuthHalfLife(r: Request, claims: Claims)
    | ReissueSet(r: Request, claims: Claims, minted: Claims)
    | ReissueDel(r: Request, claims: Claims, minted: Claims)
    | Handler(r: Request, claims: Claims, renewed: Option<Claims>)
    | LogoutSecret(claims: Claims, renewed: Option<Claims>)
    | LogoutToken(claims: Claims, renewed: Option<Claims>)
    | LoginGate(account: string)
    | LoginLookup(account: string)
    | FailIncr(account: string)
    | FailExpire(account: string)
    | LoginReset(account: string, admin: nat)
    | LoginGenerate(account: string, admin: nat)
    | LoginList(token: Claims)
    | LoginSecret(token: Claims)
    | Done(outcome: Outcome)

  /** What an observer notes about a step. */
  datatype Event =
    | Quiet
    | NonceTaken(r: Request, ts: int, checkedAt: int)
    | SignPassed(r: Request, claims: Claims, secret: string)
    | SecretIssued(admin: nat, secret: string)
    | SecretCleared(admin: nat)
    | Minted(token: Claims)
    | Listed(jti: string)
    | Handled(r: Request, claims: Claims)
    | Counted(account: string, n: int)

  datatype Effect = Effect(store: Store, next: Local, event: Event)

  // ---------- The steps ----------

  /** The signature comparison and the dispatch behind it: sign.go:97-137, router.go:56-62. */
  function Compare(cfg: Config, r: Request, secret: string): Local {
    if secret == "" || Signing.CalcSign(cfg.mac, r.fields, secret) != r.sig then Done(SignInvalid)
    else AfterSign(r)
  }

  function AfterSign(r: Request): Local {
    match r.route
    case Public => Done(PublicServed)
    case Login(account, password) => StartLogin(account, password)
    case _ => AuthToken(r)
  }

  function StartLogin(account: string, password: string): Local {
    if account == "" || password == "" then Done(ParamError) else LoginGate(account)
  }

  function StartSign(r: Request): Local {
    if r.fields.timestamp == "" || r.fields.nonce == "" || r.sig == "" then Done(SignInvalid)
    else SignClock(r)
  }

  function Step(cfg: Config, st: Store, l: Local, env: Env): Effect {
    match l
    case SignClock(r) =>
      (match Decimal.Atoi(r.fields.timestamp)
       case None => Effect(st, Done(SignInvalid), Quiet)
       case Some(ts) =>
         if st.now - ts < -SIGN_WINDOW || st.now - ts > SIGN_WINDOW then Effect(st, Done(SignExpired), Quiet)
         else Effect(st, SignNonce(r, ts, st.now), Quiet))
    case SignNonce(r, ts, checkedAt) =>
      var (st', ok) := st.SetNX(Nonce(r.fields.nonce), Num(1), NONCE_TTL);
      if !ok then Effect(st', Done(SignInvalid), Quiet)
      else Effect(st', SignToken(r), NonceTaken(r, ts, checkedAt))
    case SignToken(r) =>
      if r.bearer.NoToken? then Effect(st, Compare(cfg, r, cfg.staticSecret), Quiet)
      else (match Parse(st.now, r.bearer)
            case Parsed(c) => Effect(st, SignSecretRead(r, c), Quiet)
            case _ => Effect(st, Done(SignInvalid), Quiet))
    case SignSecretRead(r, c) =>
      var secret := st.GetStr(SignSecret(c.admin));
      var next := Compare(cfg, r, secret);
      Effect(st, next, if next == Done(SignInvalid) then Quiet else SignPassed(r, c, secret))
    case AuthToken(r) =>
      if r.bearer.NoToken? then Effect(st, Done(Unauthorized), Quiet)
      else (match Parse(st.now, r.bearer)
            case Parsed(c) => Effect(st, AuthActive(r, c), Quiet)
            case TokenExpired => Effect(st, Done(JwtExpired), Quiet)
            case TokenInvalid => Effect(st, Done(JwtInvalid), Quiet))
    case AuthActive(r, c) =>
      if !st.Alive(Token(c.jti)) then Effect(st, Done(JwtExpired), Quiet)
      else if cfg.refresh then Effect(st, AuthRefresh(r, c), Quiet)
      else Effect(st, Handler(r, c, None), Quiet)
    case AuthRefresh(r, c) =>
      Effect(st.Expire(Token(c.jti), cfg.ttl), AuthHalfLife(r, c), Quiet)
    case AuthHalfLife(r, c) =>
      var remaining := c.exp - st.now;
      if 0 < remaining && 2 * remaining < cfg.ttl then
        var minted := Generate(cfg, st.now, env.jti, c.admin, c.account);
        Effect(st, ReissueSet(r, c, minted), Minted(minted))
      else Effect(st, Handler(r, c, None), Quiet)
    case ReissueSet(r, c, minted) =>
      Effect(st.Set(Token(minted.jti), Num(minted.admin), cfg.ttl), ReissueDel(r, c, minted), Listed(minted.jti))
    case ReissueDel(r, c, minted) =>
      Effect(if c.jti != "" then st.Del(Token(c.jti)) else st, Handler(r, c, Some(minted)), Quiet)
    case Handler(r, c, renewed) =>
      Effect(st, if r.route.Logout? then LogoutSecret(c, renewed) else Done(Served(c, renewed)), Handled(r, c))
    case LogoutSecret(c, renewed) =>
      Effect(st.Del(SignSecret(c.admin)), LogoutToken(c, renewed), SecretCleared(c.admin))
    case LogoutToken(c, renewed) =>
      Effect(st.Del(Token(c.jti)), Done(LoggedOut(c, renewed)), Quiet)
    case LoginGate(account) =>
      if cfg.errLimit > 0 && st.GetInt(LoginErr(account)) >= cfg.errLimit
      then Effect(st, Done(LoginErrorLimit), Quiet)
      else Effect(st, LoginLookup(account), Quiet)
    case LoginLookup(account) =>
      (match env.lookup
       case NotFound => Effect(st, FailIncr(account), Quiet)
       case Disabled => Effect(st, Done(AccountDisabled), Quiet)
       case Locked => Effect(st, Done(AccountLocked), Quiet)
       case WrongPassword => Effect(st, FailIncr(account), Quiet)
       case Found(admin) => Effect(st, LoginReset(account, admin), Quiet))
    case FailIncr(account) =>
      var (st', n) := st.Incr(LoginErr(account));
      Effect(st', if n == 1 then FailExpire(account) else Done(AuthFail), Counted(account, n))
    case FailExpire(account) =>
      Effect(st.Expire(LoginErr(account), cfg.LoginErrTtl()), Done(AuthFail), Quiet)
    case LoginReset(account, admin) =>
      Effect(st.Del(LoginErr(account)), LoginGenerate(account, admin), Quiet)
    case LoginGenerate(account, admin) =>
      var token := Generate(cfg, st.now, env.jti, admin, account);
      Effect(st, LoginList(token), Minted(token))
    case LoginList(token) =>
      Effect(st.Set(Token(token.jti), Num(token.admin), cfg.ttl), LoginSecret(token), Listed(token.jti))
    case LoginSecret(token) =>
      Effect(st.Set(SignSecret(token.admin), Str(env.secret), cfg.ttl), Done(LoggedIn(token, env.secret)),
             SecretIssued(token.admin, env.secret))
    case Done(_) => Effect(st, l, Quiet)
  }

  /** How many more commands a request may send. */
  function Rank(l: Local): nat {
    match l
    case SignClock(_) => 14
    case SignNonce(_, _, _) => 13
    case SignToken(_) => 12
    case SignSecretRead(_, _) => 11
    case AuthToken(_) => 10
    case AuthActive(_, _) => 9
    case AuthRefresh(_, _) => 8
    case AuthHalfLife(_, _) => 7
    case ReissueSet(_, _, _) => 6
    case ReissueDel(_, _, _) => 5
    case Handler(_, _, _) => 4
    case LogoutSecret(_, _) => 3
    case LogoutToken(_, _) => 2
    case LoginGate(_) => 8
    case LoginLookup(_) => 7
    case FailIncr(_) => 6
    case FailExpire(_) => 5
    case LoginReset(_, _) => 6
    case LoginGenerate(_, _) => 5
    case LoginList(_) => 4
    case LoginSecret(_) => 3
    case Done(_) => 0
  }

  lemma StepDescends(cfg: Config, st: Store, l: Local, env: Env)
    requires !l.Done?
    ensures Rank(Step(cfg, st, l, env).next) < Rank(l)
  {
  }

  /** A request that no other request interrupts, at one instant. */
  function Alone(cfg: Config, st: Store, l: Local, env: Env): (Store, Outcome)
    decreases Rank(l)
  {
    match l
    case Done(o) => (st, o)
    case _ =>
      var e := Step(cfg, st, l, env);
      StepDescends(cfg, st, l, env);
      Alone(cfg, e.store, e.next, env)
  }

  /** Sending the next command first changes nothing. */
  lemma Advance(cfg: Config, st: Store, l: Local, env: Env)
    requires !l.Done?
    ensures Alone(cfg, st, l, env) == Alone(cfg, Step(cfg, st, l, env).store, Step(cfg, st, l, env).next, env)
  {
  }

  /** The same for a step whose result is known. */
  lemma Goes(cfg: Config, st: Store, l: Local, env: Env, st': Store, l': Local)
    requires !l.Done? && Step(cfg, st, l, env).store == st' && Step(cfg, st, l, env).next == l'
    ensures Alone(cfg, st, l, env) == Alone(cfg, st', l', env)
  {
  }

  lemma Finished(cfg: Config, st: Store, o: Outcome, env: Env)
    ensures Alone(cfg, st, Done(o), env) == (st, o)
  {
  }
}
