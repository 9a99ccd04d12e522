/**
 The session half of internal/service/auth_service.go, and the `Sign` and `JWTAuth` middleware that call it, as
 they send their Redis commands. Every method is tied to the command-by-command steps of `Session`.
 */
module AuthServices {
  import opened Wrappers
  import opened Redis
  import opened Session
  import Decimal
  import opened RequestAnswers
  import opened SignatureCheck
  import Sequential
  import Signing

  class AuthService {
    const cfg: Config
    const rdb: Client

    constructor (cfg: Config, rdb: Client)
      ensures this.cfg == cfg && this.rdb == rdb
    {
      this.cfg, this.rdb := cfg, rdb;
    }

    // ---------- auth_service.go ----------

    /** The admin is found and its password matches. */
    method IssueSession(account: string, admin: nat, env: Env) returns (token: Claims)
      modifies rdb
      ensures Alone(cfg, old(rdb.db), LoginReset(account, admin), env) == (rdb.db, LoggedIn(token, env.secret))
    {
      Sequential.IssueRun(cfg, rdb.db, account, admin, env);
      rdb.Del(LoginErr(account));
      token := Generate(cfg, rdb.db.now, env.jti, admin, account);
      rdb.Set(Token(token.jti), Num(admin), cfg.ttl);
      IssueSignSecret(admin, env.secret);
    }

    method Login(account: string, password: string, env: Env) returns (o: Outcome)
      modifies rdb
      ensures Alone(cfg, old(rdb.db), StartLogin(account, password), env) == (rdb.db, o)
      ensures LoginEnds(cfg, old(rdb.db), account, password, env, rdb.db, o)
    {
      LoginAnswers(cfg, rdb.db, account, password, env);
      if account == "" || password == "" {
        o := ParamError;
        Finished(cfg, rdb.db, o, env);
        return;
      }
      Advance(cfg, rdb.db, LoginGate(account), env);
      var errCnt := rdb.db.GetInt(LoginErr(account));
      if cfg.errLimit > 0 && errCnt >= cfg.errLimit {
        o := LoginErrorLimit;
        Finished(cfg, rdb.db, o, env);
        return;
      }
      Advance(cfg, rdb.db, LoginLookup(account), env);
      match env.lookup {
        case NotFound =>
          BumpLoginErr(account, env);
          o := AuthFail;
        case Disabled =>
          o := AccountDisabled;
          Finished(cfg, rdb.db, o, env);
        case Locked =>
          o := AccountLocked;
          Finished(cfg, rdb.db, o, env);
        case WrongPassword =>
          BumpLoginErr(account, env);
          o := AuthFail;
        case Found(admin) =>
          var token := IssueSession(account, admin, env);
          o := LoggedIn(token, env.secret);
      }
    }

    method BumpLoginErr(account: string, env: Env)
      modifies rdb
      ensures Alone(cfg, old(rdb.db), FailIncr(account), env) == (rdb.db, AuthFail)
    {
      Advance(cfg, rdb.db, FailIncr(account), env);
      var n := rdb.Incr(LoginErr(account));
      if n == 1 {
        Advance(cfg, rdb.db, FailExpire(account), env);
        rdb.Expire(LoginErr(account), cfg.LoginErrTtl());
      }
      Finished(cfg, rdb.db, AuthFail, env);
    }

    /** Clears the secret of the admin, then takes the token off the whitelist. */
    method LogOut(claims: Claims, renewed: Option<Claims>, env: Env) returns (o: Outcome)
      modifies rdb
      ensures Alone(cfg, old(rdb.db), LogoutSecret(claims, renewed), env) == (rdb.db, o)
    {
      Advance(cfg, rdb.db, LogoutSecret(claims, renewed), env);
      rdb.Del(SignSecret(claims.admin));
      Advance(cfg, rdb.db, LogoutToken(claims, renewed), env);
      rdb.Del(Token(claims.jti));
      o := LoggedOut(claims, renewed);
      Finished(cfg, rdb.db, o, env);
    }

    method IsTokenActive(jti: string) returns (active: bool)
      ensures active == rdb.db.Alive(Token(jti))
    {
      active := rdb.Exists(Token(jti));
    }

    /**
     A live entry then lasts one lifetime from now, to the millisecond; an entry that is dead or missing stays so, and
     no other entry changes.
     */
    method RefreshToken(jti: string)
      modifies rdb
      ensures !cfg.refresh || !old(rdb.db).Alive(Token(jti)) ==> rdb.db == old(rdb.db)
      ensures cfg.refresh && old(rdb.db).Alive(Token(jti)) && cfg.ttl > 0 ==>
        && rdb.db.Get(Token(jti)) == old(rdb.db).Get(Token(jti))
        && forall t :: rdb.db.(now := t).Alive(Token(jti)) <==> t <= old(rdb.db).now + cfg.ttl
      ensures forall k | k != Token(jti) :: rdb.db.Stored(k) == old(rdb.db).Stored(k)
      ensures rdb.db == if cfg.refresh then old(rdb.db).Expire(Token(jti), cfg.ttl) else old(rdb.db)
    {
      if !cfg.refresh {
        return;
      }
      rdb.Expire(Token(jti), cfg.ttl);
    }

    /**
     From now on reading the admin's secret gives this one, whatever was stored before, until one lifetime has passed,
     and nothing after that; no other entry changes.
     */
    method IssueSignSecret(admin: nat, secret: string)
      modifies rdb
      ensures forall t :: rdb.db.(now := t).GetStr(SignSecret(admin))
                          == if cfg.ttl > 0 && t > old(rdb.db).now + cfg.ttl then "" else secret
      ensures forall k | k != SignSecret(admin) :: rdb.db.Stored(k) == old(rdb.db).Stored(k)
      ensures rdb.db == old(rdb.db).Set(SignSecret(admin), Str(secret), cfg.ttl)
    {
      rdb.Set(SignSecret(admin), Str(secret), cfg.ttl);
    }

    /** Lists the new token first and takes the old one off the whitelist after it. */
    method Reissue(r: Request, claims: Claims, env: Env) returns (minted: Claims)
      requires Step(cfg, rdb.db, AuthHalfLife(r, claims), env).next.ReissueSet?
      modifies rdb
      ensures Alone(cfg, old(rdb.db), AuthHalfLife(r, claims), env)
           == Alone(cfg, rdb.db, Handler(r, claims, Some(minted)), env)
    {
      Advance(cfg, rdb.db, AuthHalfLife(r, claims), env);
      minted := Generate(cfg, rdb.db.now, env.jti, claims.admin, claims.account);
      Advance(cfg, rdb.db, ReissueSet(r, claims, minted), env);
      rdb.Set(Token(minted.jti), Num(claims.admin), cfg.ttl);
      Advance(cfg, rdb.db, ReissueDel(r, claims, minted), env);
      if claims.jti != "" {
        rdb.Del(Token(claims.jti));
      }
    }

    // ---------- middleware/sign.go ----------

    /** The time window and the nonce. */
    method CheckFreshness(r: Request, env: Env) returns (pass: bool, o: Outcome)
      modifies rdb
      ensures pass ==> Alone(cfg, old(rdb.db), StartSign(r), env) == Alone(cfg, rdb.db, SignToken(r), env)
      ensures !pass ==> Alone(cfg, old(rdb.db), StartSign(r), env) == (rdb.db, o)
      ensures pass <==> Headers(r) && InTime(old(rdb.db), r) && !old(rdb.db).Alive(Nonce(r.fields.nonce))
      ensures pass ==> NonceNoted(old(rdb.db), r, rdb.db)
      ensures !pass ==>
        rdb.db == old(rdb.db) && o == if Headers(r) && !InTime(old(rdb.db), r) then SignExpired else SignInvalid
    {
      pass, o := false, SignInvalid;
      if r.fields.timestamp == "" || r.fields.nonce == "" || r.sig == "" {
        Finished(cfg, rdb.db, o, env);
        return;
      }
      Advance(cfg, rdb.db, SignClock(r), env);
      var ts := Decimal.Atoi(r.fields.timestamp);
      if ts.None? {
        Finished(cfg, rdb.db, o, env);
        return;
      }
      var diff := rdb.db.now - ts.value;
      if diff < -SIGN_WINDOW || diff > SIGN_WINDOW {
        o := SignExpired;
        Finished(cfg, rdb.db, o, env);
        return;
      }
      Advance(cfg, rdb.db, SignNonce(r, ts.value, rdb.db.now), env);
      pass := rdb.SetNX(Nonce(r.fields.nonce), Num(1), NONCE_TTL);
      if !pass {
        Finished(cfg, rdb.db, o, env);
      }
    }

    /** Chooses the secret and compares the signatures. */
    method CheckSignature(r: Request, env: Env) returns (pass: bool, o: Outcome)
      ensures pass ==> Alone(cfg, rdb.db, SignToken(r), env) == Alone(cfg, rdb.db, AfterSign(r), env)
      ensures !pass ==> Alone(cfg, rdb.db, SignToken(r), env) == (rdb.db, o)
      ensures pass <==> SignatureHolds(cfg, rdb.db, r)
      ensures !pass ==> o == SignInvalid
    {
      PayloadIsSixLines(r.fields);
      pass, o := false, SignInvalid;
      Finished(cfg, rdb.db, o, env);
      Advance(cfg, rdb.db, SignToken(r), env);
      var secret := "";
      if !r.bearer.NoToken? {
        var parsed := Parse(rdb.db.now, r.bearer);
        if parsed.Parsed? {
          Advance(cfg, rdb.db, SignSecretRead(r, parsed.claims), env);
          secret := rdb.db.GetStr(SignSecret(parsed.claims.admin));
        }
      } else {
        secret := cfg.staticSecret;
      }
      if secret == "" {
        return;
      }
      var want := Signing.CalcSign(cfg.mac, r.fields, secret);
      pass := want == r.sig;
    }

    /** True iff the request may go on; otherwise `o` is the answer. */
    method Sign(r: Request, env: Env) returns (pass: bool, o: Outcome)
      modifies rdb
      ensures pass ==> Alone(cfg, old(rdb.db), StartSign(r), env) == Alone(cfg, rdb.db, AfterSign(r), env)
      ensures !pass ==> Alone(cfg, old(rdb.db), StartSign(r), env) == (rdb.db, o)
      ensures pass <==>
        && Headers(r) && InTime(old(rdb.db), r) && !old(rdb.db).Alive(Nonce(r.fields.nonce))
        && SignatureHolds(cfg, old(rdb.db), r)
      ensures !pass ==> o == if Headers(r) && !InTime(old(rdb.db), r) then SignExpired else SignInvalid
    {
      pass, o := CheckFreshness(r, env);
      if pass {
        NonceIsNoSecret(cfg, old(rdb.db), rdb.db, r);
        pass, o := CheckSignature(r, env);
      }
    }

    // ---------- middleware/rbac.go ----------

    /** Passes the claims on, with the token minted in place of the old one if half its life is over. */
    method JWTAuth(r: Request, env: Env) returns (pass: bool, o: Outcome, claims: Claims, renewed: Option<Claims>)
      modifies rdb
      ensures pass ==>
        Alone(cfg, old(rdb.db), AuthToken(r), env) == Alone(cfg, rdb.db, Handler(r, claims, renewed), env)
      ensures !pass ==> Alone(cfg, old(rdb.db), AuthToken(r), env) == (rdb.db, o)
      ensures pass <==> TokenAccepted(old(rdb.db), r.bearer)
      ensures !pass ==> rdb.db == old(rdb.db) && o == TokenRefusal(r.bearer)
      ensures pass ==> claims == r.bearer.claims
      ensures pass ==> renewed.Some? == (cfg.refresh && 2 * (claims.exp - old(rdb.db).now) < cfg.ttl)
    {
      pass, renewed := false, None;
      claims := Claims("", 0, "", 0);
      Advance(cfg, rdb.db, AuthToken(r), env);
      if r.bearer.NoToken? {
        o := Unauthorized;
        Finished(cfg, rdb.db, o, env);
        return;
      }
      match Parse(rdb.db.now, r.bearer) {
        case TokenExpired =>
          o := JwtExpired;
          Finished(cfg, rdb.db, o, env);
          return;
        case TokenInvalid =>
          o := JwtInvalid;
          Finished(cfg, rdb.db, o, env);
          return;
        case Parsed(c) =>
          claims := c;
      }
      Advance(cfg, rdb.db, AuthActive(r, claims), env);
      o := JwtExpired;
      pass := IsTokenActive(claims.jti);
      if !pass {
        Finished(cfg, rdb.db, o, env);
        return;
      }
      if cfg.refresh {
        Advance(cfg, rdb.db, AuthRefresh(r, claims), env);
      }
      RefreshToken(claims.jti);
      if cfg.refresh {
        Advance(cfg, rdb.db, AuthHalfLife(r, claims), env);
        var remaining := claims.exp - rdb.db.now;
        if remaining > 0 && 2 * remaining < cfg.ttl {
          var minted := Reissue(r, claims, env);
          renewed := Some(minted);
        }
      }
    }

    // ---------- router.go ----------

    /** One request through Sign, JWTAuth and its handler, in the router's order. */
    method Serve(r: Request, env: Env) returns (o: Outcome)
      modifies rdb
      ensures Alone(cfg, old(rdb.db), StartSign(r), env) == (rdb.db, o)
    {
      var pass;
      pass, o := Sign(r, env);
      if !pass {
        return;
      }
      match r.route {
        case Public =>
          o := PublicServed;
          Finished(cfg, rdb.db, o, env);
        case Login(account, password) =>
          o := Login(account, password, env);
        case _ =>
          o := ServeProtected(r, env);
      }
    }

    method ServeProtected(r: Request, env: Env) returns (o: Outcome)
      modifies rdb
      ensures Alone(cfg, old(rdb.db), AuthToken(r), env) == (rdb.db, o)
    {
      var pass, claims, renewed;
      pass, o, claims, renewed := JWTAuth(r, env);
      if !pass {
        return;
      }
      Advance(cfg, rdb.db, Handler(r, claims, renewed), env);
      if r.route.Logout? {
        o := LogOut(claims, renewed, env);
      } else {
        o := Served(claims, renewed);
        Finished(cfg, rdb.db, o, env);
      }
    }
  }
}
