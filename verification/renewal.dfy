/**
 Sliding renewal as the JWTAuth layer sees it: a client that always sends its newest token and never waits half a
 lifetime. (The signing secret is not renewed, so the whole stack still ends the session; see SessionWindow.)
 */
module Renewal {
  import opened Wrappers
  import opened Redis
  import opened Session
  import opened Sequential

  /** The client's next request: how long it waited, and the store it finds, changed by others in the meantime. */
  datatype Visit = Visit(gap: nat, world: Store, r: Request, env: Env)

  /** Others may do anything but touch the whitelist entry of the client's token. */
  predicate Plausible(st: Store, c: Claims, v: Visit) {
    && v.world.now == st.now + v.gap
    && (Token(c.jti) in st.entries <==> Token(c.jti) in v.world.entries)
    && (Token(c.jti) in st.entries ==> v.world.entries[Token(c.jti)] == st.entries[Token(c.jti)])
    && v.r.bearer == Signed(c) && v.r.route == Protected
    && v.env.jti != "" && v.env.jti != c.jti
  }

  function Current(c: Claims, renewed: Option<Claims>): Claims {
    if renewed.Some? then renewed.value else c
  }

  /** Every visit of the sequence is served, whatever others do, provided its gap is below half a lifetime. */
  ghost predicate NeverRejected(cfg: Config, st: Store, c: Claims, visits: seq<Visit>)
    decreases |visits|
  {
    visits == []
    || !Plausible(st, c, visits[0])
    || 2 * visits[0].gap >= cfg.ttl
    || (var (st', o) := Alone(cfg, visits[0].world, AuthToken(visits[0].r), visits[0].env);
        o.Served? && NeverRejected(cfg, st', Current(c, o.renewed), visits[1..]))
  }

  /** At least half a lifetime is left, and the whitelist entry lasts as long as the token. */
  predicate Ample(cfg: Config, st: Store, c: Claims) {
    && c.jti != "" && Token(c.jti) in st.entries
    && st.entries[Token(c.jti)].deadline.Some? && c.exp <= st.entries[Token(c.jti)].deadline.value
    && cfg.ttl <= 2 * (c.exp - st.now) && c.exp <= st.now + cfg.ttl
  }

  lemma ToHalfLife(cfg: Config, st: Store, c: Claims, r: Request, env: Env)
    requires cfg.refresh && Live(st, c.jti) && st.now < c.exp && r.bearer == Signed(c)
    ensures Alone(cfg, st, AuthToken(r), env)
         == Alone(cfg, st.Expire(Token(c.jti), cfg.ttl), AuthHalfLife(r, c), env)
  {
    Goes(cfg, st, AuthToken(r), env, st, AuthActive(r, c));
    Goes(cfg, st, AuthActive(r, c), env, st, AuthRefresh(r, c));
    Goes(cfg, st, AuthRefresh(r, c), env, st.Expire(Token(c.jti), cfg.ttl), AuthHalfLife(r, c));
  }

  lemma KeepVisit(cfg: Config, st: Store, c: Claims, r: Request, env: Env)
    requires cfg.refresh && cfg.ttl > 0 && Live(st, c.jti) && st.now < c.exp && !Renews(cfg, st.now, c)
    requires r.bearer == Signed(c) && r.route == Protected
    ensures Alone(cfg, st, AuthToken(r), env) == (st.Expire(Token(c.jti), cfg.ttl), Served(c, None))
  {
    var st1 := st.Expire(Token(c.jti), cfg.ttl);
    ToHalfLife(cfg, st, c, r, env);
    KeepRun(cfg, st1, r, c, env);
    HandlerRun(cfg, st1, r, c, None, env);
  }

  lemma RenewVisit(cfg: Config, st: Store, c: Claims, r: Request, env: Env, m: Claims, st': Store)
    requires cfg.refresh && cfg.ttl > 0 && Live(st, c.jti) && c.jti != "" && Renews(cfg, st.now, c)
    requires r.bearer == Signed(c) && r.route == Protected
    requires m == Generate(cfg, st.now, env.jti, c.admin, c.account)
    requires st' == st.Expire(Token(c.jti), cfg.ttl).Set(Token(m.jti), Num(m.admin), cfg.ttl).Del(Token(c.jti))
    ensures Alone(cfg, st, AuthToken(r), env) == (st', Served(c, Some(m)))
  {
    var st1 := st.Expire(Token(c.jti), cfg.ttl);
    ToHalfLife(cfg, st, c, r, env);
    ReissueRun(cfg, st1, r, c, env, m, st');
    HandlerRun(cfg, st', r, c, Some(m), env);
  }

  lemma {:induction false} AmpleNeverRejected(cfg: Config, st: Store, c: Claims, visits: seq<Visit>)
    requires cfg.refresh && cfg.ttl >= 2000 && Ample(cfg, st, c)
    ensures NeverRejected(cfg, st, c, visits)
    decreases |visits|
  {
    if visits != [] && Plausible(st, c, visits[0]) && 2 * visits[0].gap < cfg.ttl {
      var v := visits[0];
      var w := v.world;
      if Renews(cfg, w.now, c) {
        var m := Generate(cfg, w.now, v.env.jti, c.admin, c.account);
        var st' := w.Expire(Token(c.jti), cfg.ttl).Set(Token(m.jti), Num(m.admin), cfg.ttl).Del(Token(c.jti));
        RenewVisit(cfg, w, c, v.r, v.env, m, st');
        AmpleNeverRejected(cfg, st', m, visits[1..]);
      } else {
        KeepVisit(cfg, w, c, v.r, v.env);
        AmpleNeverRejected(cfg, w.Expire(Token(c.jti), cfg.ttl), c, visits[1..]);
      }
    }
  }

  /** Every client that has just logged in is served on, visit after visit. */
  ghost predicate LoginsKeepGoing(cfg: Config) {
    forall st: Store, account, admin, env: Env, visits | env.jti != "" ::
      NeverRejected(cfg, Issued(cfg, st, account, admin, env), Generate(cfg, st.now, env.jti, admin, account), visits)
  }

  lemma LoginIsAmple(cfg: Config, st: Store, account: string, admin: nat, env: Env)
    requires cfg.ttl >= 2000 && env.jti != ""
    ensures Ample(cfg, Issued(cfg, st, account, admin, env), Generate(cfg, st.now, env.jti, admin, account))
  {
  }

  /** With a lifetime of one second the cut of the exp claim to whole seconds can leave a millisecond. */
  lemma OneSecondIsTooShort(cfg: Config, r: Request)
    requires cfg.ttl == 1000 && cfg.refresh
    ensures
      var st, env := Store(999, map[]), Env(Found(1), "t", "s");
      var c, world := Generate(cfg, 999, "t", 1, "a"), Issued(cfg, st, "a", 1, env).(now := 1000);
      !NeverRejected(cfg, Issued(cfg, st, "a", 1, env), c,
                     [Visit(1, world, r.(bearer := Signed(c), route := Protected), Env(NotFound, "u", ""))])
  {
    var st, env := Store(999, map[]), Env(Found(1), "t", "s");
    var c, world := Generate(cfg, 999, "t", 1, "a"), Issued(cfg, st, "a", 1, env).(now := 1000);
    var v := Visit(1, world, r.(bearer := Signed(c), route := Protected), Env(NotFound, "u", ""));
    assert c.exp == 1000;
    assert Plausible(Issued(cfg, st, "a", 1, env), c, v);
    Goes(cfg, world, AuthToken(v.r), v.env, world, Done(JwtExpired));
    Finished(cfg, world, JwtExpired, v.env);
  }

  /**
   With refresh on, for a lifetime of whole seconds as configured: the JWTAuth layer never rejects a client that
   logs in, swaps in every reissued token and keeps its gaps below half the lifetime, if and only if the lifetime
   is at least two seconds.
   */
  lemma RenewalIff(cfg: Config)
    requires cfg.refresh && cfg.ttl > 0 && cfg.ttl % 1000 == 0
    ensures LoginsKeepGoing(cfg) <==> cfg.ttl >= 2000
  {
    if cfg.ttl >= 2000 {
      forall st: Store, account, admin, env: Env, visits | env.jti != ""
        ensures NeverRejected(cfg, Issued(cfg, st, account, admin, env),
                              Generate(cfg, st.now, env.jti, admin, account), visits)
      {
        LoginIsAmple(cfg, st, account, admin, env);
        AmpleNeverRejected(cfg, Issued(cfg, st, account, admin, env),
                           Generate(cfg, st.now, env.jti, admin, account), visits);
      }
    } else {
      assert cfg.ttl == 1000;
      var r: Request :| true;
      OneSecondIsTooShort(cfg, r);
    }
  }

  /** The bound on the gaps is sharp: two gaps of exactly half a lifetime, and the second visit is refused. */
  lemma HalfLifeGapRejected(cfg: Config, st: Store, c: Claims, r: Request, env: Env)
    requires cfg.refresh && cfg.ttl > 0 && cfg.ttl % 2 == 0 && Live(st, c.jti) && c.exp == st.now + cfg.ttl / 2
    requires r.bearer == Signed(c) && r.route == Protected
    ensures
      var (st1, o1) := Alone(cfg, st, AuthToken(r), env);
      var st2 := st1.(now := st1.now + cfg.ttl / 2);
      o1 == Served(c, None) && Alone(cfg, st2, AuthToken(r), env) == (st2, JwtExpired)
  {
    KeepVisit(cfg, st, c, r, env);
    var st2 := st.Expire(Token(c.jti), cfg.ttl).(now := st.now + cfg.ttl / 2);
    Goes(cfg, st2, AuthToken(r), env, st2, Done(JwtExpired));
    Finished(cfg, st2, JwtExpired, env);
  }
}
