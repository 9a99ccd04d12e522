/** The token whitelist under interleaving: revocation is final, and the whitelist never outlasts its purpose early. */
module Revocation {
  import opened Wrappers
  import opened Redis
  import opened Session
  import opened Interleaving

  /** The token a request has minted and is about to put on the whitelist. */
  function Pending(l: Local): Option<Claims> {
    match l
    case ReissueSet(_, _, minted) => Some(minted)
    case LoginList(token) => Some(token)
    case _ => None
  }

  ghost predicate PendingOk(s: Sys) {
    && (forall t :: t in s.threads && Pending(s.threads[t]).Some? ==>
          var c := Pending(s.threads[t]).value;
          c.jti in s.issued && s.issued[c.jti] == c && c.jti !in s.listed)
    && (forall t, u | t in s.threads && u in s.threads && t != u ::
          Pending(s.threads[t]).Some? && Pending(s.threads[u]).Some? ==>
            Pending(s.threads[t]).value.jti != Pending(s.threads[u]).value.jti)
  }

  ghost predicate ListedOk(s: Sys) {
    && (forall j :: j in s.listed ==> j in s.issued)
    && (forall j :: Token(j) in s.store.entries ==> j in s.listed)
  }

  /** Entries have a deadline, and it is not before the JWT's own expiry. */
  ghost predicate DeadlinesOk(cfg: Config, s: Sys) {
    && (forall j :: j in s.issued ==> s.issued[j].exp <= s.store.now + cfg.ttl)
    && (cfg.ttl > 0 ==> forall j :: Token(j) in s.store.entries && j in s.issued ==>
          && s.store.entries[Token(j)].deadline.Some?
          && s.issued[j].exp <= s.store.entries[Token(j)].deadline.value)
  }

  ghost predicate Inv(cfg: Config, s: Sys) {
    PendingOk(s) && ListedOk(s) && DeadlinesOk(cfg, s)
  }

  /** What a step may do to the whitelist entry of `j`. */
  lemma TokenEffect(cfg: Config, st: Store, l: Local, env: Env, j: string)
    ensures
      var e := Step(cfg, st, l, env);
      && e.store.now == st.now
      && (Token(j) in e.store.entries ==>
            || (Token(j) in st.entries && st.entries[Token(j)] == e.store.entries[Token(j)])
            || (Pending(l).Some? && Pending(l).value.jti == j && e.event == Listed(j)
                && e.store.entries[Token(j)].deadline == (if cfg.ttl > 0 then Some(st.now + cfg.ttl) else None))
            || (st.Alive(Token(j)) && cfg.ttl > 0
                && e.store.entries[Token(j)].deadline == Some(st.now + cfg.ttl)))
  {
  }

  /** A pending token comes from minting it in this step, and is listed by the next. */
  lemma PendingEffect(cfg: Config, st: Store, l: Local, env: Env)
    ensures
      var e := Step(cfg, st, l, env);
      && (Pending(e.next).Some? ==> e.event == Minted(Pending(e.next).value))
      && (e.event.Minted? ==> Pending(l).None?)
      && (Pending(l).Some? <==> e.event.Listed?)
      && (e.event.Listed? ==> e.event.jti == Pending(l).value.jti && Pending(e.next).None?)
      && (e.event.Minted? ==> e.event.token.exp <= st.now + cfg.ttl)
  {
  }

  lemma PendingStep(cfg: Config, s: Sys, tid: nat, env: Env)
    requires Inv(cfg, s) && Enabled(cfg, s, Run(tid, env))
    ensures PendingOk(Apply(cfg, s, Run(tid, env)))
  {
    var l := s.threads[tid];
    var e := Step(cfg, s.store, l, env);
    PendingEffect(cfg, s.store, l, env);
    PendingAfter(s, tid, e);
  }

  lemma PendingAfter(s: Sys, tid: nat, e: Effect)
    requires PendingOk(s) && ListedOk(s) && tid in s.threads
    requires Pending(e.next).Some? ==> e.event == Minted(Pending(e.next).value)
    requires Pending(s.threads[tid]).Some? <==> e.event.Listed?
    requires e.event.Listed? ==> e.event.jti == Pending(s.threads[tid]).value.jti && Pending(e.next).None?
    requires e.event.Minted? ==> e.event.token.jti !in s.issued
    ensures PendingOk(After(s, tid, e))
  {
  }

  lemma WhitelistStep(cfg: Config, s: Sys, tid: nat, env: Env)
    requires Inv(cfg, s) && Enabled(cfg, s, Run(tid, env))
    ensures
      var s' := Apply(cfg, s, Run(tid, env));
      ListedOk(s') && DeadlinesOk(cfg, s')
  {
    var s' := Apply(cfg, s, Run(tid, env));
    var l := s.threads[tid];
    var e := Step(cfg, s.store, l, env);
    PendingEffect(cfg, s.store, l, env);
    assert e.store.now == s.store.now by { TokenEffect(cfg, s.store, l, env, ""); }
    forall j | Token(j) in s'.store.entries
      ensures j in s'.listed
      ensures cfg.ttl > 0 && j in s'.issued ==>
        s'.store.entries[Token(j)].deadline.Some? && s'.issued[j].exp <= s'.store.entries[Token(j)].deadline.value
    {
      TokenEffect(cfg, s.store, l, env, j);
    }
  }

  lemma InvStep(cfg: Config, s: Sys, a: Action)
    requires Inv(cfg, s)
    ensures Inv(cfg, Apply(cfg, s, a))
  {
    if Enabled(cfg, s, a) && a.Run? {
      PendingStep(cfg, s, a.tid, a.env);
      WhitelistStep(cfg, s, a.tid, a.env);
    }
  }

  lemma {:induction false} Always(cfg: Config, now: int, acts: seq<Action>)
    ensures Inv(cfg, Exec(cfg, Initial(now), acts))
  {
    if acts != [] {
      Always(cfg, now, acts[..|acts| - 1]);
      InvStep(cfg, Exec(cfg, Initial(now), acts[..|acts| - 1]), acts[|acts| - 1]);
    }
  }

  predicate Revoked(s: Sys, jti: string) {
    jti in s.listed && !s.store.Alive(Token(jti))
  }

  lemma RevokedStep(cfg: Config, s: Sys, a: Action, jti: string)
    requires Inv(cfg, s) && Revoked(s, jti)
    ensures Revoked(Apply(cfg, s, a), jti)
  {
    if Enabled(cfg, s, a) && a.Run? {
      TokenEffect(cfg, s.store, s.threads[a.tid], a.env, jti);
    }
  }

  /**
   Under any interleaving, a token that was on the whitelist and is not active any more, because it was deleted or
   because it expired, never becomes active again, whatever happens next.
   */
  lemma {:induction false} RevocationIsFinal(cfg: Config, now: int, past: seq<Action>, future: seq<Action>, jti: string)
    requires Revoked(Exec(cfg, Initial(now), past), jti)
    ensures Revoked(Exec(cfg, Initial(now), past + future), jti)
  {
    if future == [] {
      assert past + future == past;
    } else {
      var n := |future| - 1;
      RevocationIsFinal(cfg, now, past, future[..n], jti);
      Always(cfg, now, past + future[..n]);
      assert past + future == (past + future[..n]) + [future[n]];
      ExecOne(cfg, Initial(now), past + future[..n], future[n]);
      RevokedStep(cfg, Exec(cfg, Initial(now), past + future[..n]), future[n], jti);
    }
  }

  /**
   A whitelist entry that has not been deleted outlives the token it is for: while the JWT itself is unexpired,
   `IsTokenActive` can only fail because the entry was deleted.
   */
  lemma WhitelistOutlivesToken(cfg: Config, now: int, acts: seq<Action>, jti: string)
    ensures
      var s := Exec(cfg, Initial(now), acts);
      Token(jti) in s.store.entries ==>
        && jti in s.issued
        && (Parse(s.store.now, Signed(s.issued[jti])).Parsed? ==> s.store.Alive(Token(jti)))
  {
    Always(cfg, now, acts);
  }

  /** Before its first listing and after its revocation a token cannot pass the whitelist check. */
  lemma InactiveTokenRejected(cfg: Config, now: int, past: seq<Action>, future: seq<Action>,
                              jti: string, tid: nat, env: Env)
    requires Revoked(Exec(cfg, Initial(now), past), jti)
    ensures
      var s := Exec(cfg, Initial(now), past + future);
      tid in s.threads && s.threads[tid].AuthActive? && s.threads[tid].claims.jti == jti ==>
        Apply(cfg, s, Run(tid, env)).threads[tid] == Done(JwtExpired)
  {
    RevocationIsFinal(cfg, now, past, future, jti);
  }
}
