/**
 What a signature covers and when it is accepted, said without the code's own helpers: the six lines, the secret that is
 chosen, and the headers that have to come first.
 */
module SignatureCheck {
  import opened Wrappers
  import opened Redis
  import opened Session
  import Decimal
  import Signing
  import Text

  // ---------- What is signed ----------

  /** Method, path, query, timestamp, nonce and body digest, joined by line feeds. */
  function SixLines(f: Signing.Fields): string {
    f.httpMethod + "\n" + f.path + "\n" + f.query + "\n" + f.timestamp + "\n" + f.nonce + "\n" + f.bodyMd5
  }

  lemma PayloadIsSixLines(f: Signing.Fields)
    ensures Signing.Payload(f) == SixLines(f)
  {
    Signing.PayloadLayout(f);
  }

  /**
   The secret a request has to be signed with, "" if there is none: the static one without an Authorization header, and
   with an unexpired token the secret stored for its admin.
   */
  function ChosenSecret(cfg: Config, st: Store, b: Bearer): string {
    match b
    case NoToken => cfg.staticSecret
    case Signed(c) => if st.now < c.exp then st.GetStr(SignSecret(c.admin)) else ""
    case Garbage => ""
  }

  predicate SignatureHolds(cfg: Config, st: Store, r: Request) {
    var secret := ChosenSecret(cfg, st, r.bearer);
    secret != "" && r.sig == cfg.mac(secret, SixLines(r.fields))
  }

  /** The comparison passes a request exactly when its signature holds, and refuses it otherwise. */
  lemma ComparesIff(cfg: Config, st: Store, r: Request, env: Env)
    ensures
      Alone(cfg, st, SignToken(r), env)
      == if SignatureHolds(cfg, st, r) then Alone(cfg, st, AfterSign(r), env) else (st, SignInvalid)
  {
    PayloadIsSixLines(r.fields);
    Advance(cfg, st, SignToken(r), env);
    Finished(cfg, st, SignInvalid, env);
    if r.bearer.Signed? && st.now < r.bearer.claims.exp {
      Advance(cfg, st, SignSecretRead(r, r.bearer.claims), env);
    }
  }

  // ---------- A keyed hash without collisions ----------

  ghost predicate Collisionless(mac: Signing.Mac) {
    forall k, p, k', p' {:trigger mac(k, p), mac(k', p')} :: mac(k, p) == mac(k', p') ==> k == k' && p == p'
  }

  /**
   With a keyed hash without collisions, a request that carries the hash of some text under some key passes if and only
   if the key is the secret chosen for it, which is not empty, and the text is its six lines.
   */
  lemma PassesIff(cfg: Config, st: Store, r: Request, key: string, text: string)
    requires Collisionless(cfg.mac) && r.sig == cfg.mac(key, text)
    ensures
      SignatureHolds(cfg, st, r)
      <==> key != "" && key == ChosenSecret(cfg, st, r.bearer) && text == SixLines(r.fields)
  {
  }

  /**
   A signature made for one request never passes for another that differs in method, timestamp, nonce or body digest,
   whatever the keys, the store and the token; where paths and queries hold no line feed, for no other request at all.
   */
  lemma SignatureIsForOneRequest(cfg: Config, st: Store, f: Signing.Fields, key: string, r: Request)
    requires Collisionless(cfg.mac) && r.sig == cfg.mac(key, SixLines(f))
    requires Signing.OuterFieldsPlain(f) && Signing.OuterFieldsPlain(r.fields)
    ensures
      var g := r.fields;
      && (SignatureHolds(cfg, st, r) ==>
            && f.httpMethod == g.httpMethod && f.timestamp == g.timestamp && f.nonce == g.nonce
            && f.bodyMd5 == g.bodyMd5)
      && (Text.AllAvoid(f.List(), '\n') && Text.AllAvoid(r.fields.List(), '\n') && f != r.fields ==>
            !SignatureHolds(cfg, st, r))
  {
    PayloadIsSixLines(f);
    PayloadIsSixLines(r.fields);
    if SixLines(f) == SixLines(r.fields) {
      Signing.PayloadDeterminesOuterFields(f, r.fields);
      if Text.AllAvoid(f.List(), '\n') && Text.AllAvoid(r.fields.List(), '\n') {
        Signing.PayloadInjective(f, r.fields);
      }
    }
  }

  // ---------- The whole of Sign ----------

  /** The three headers are there and the timestamp is a number. */
  predicate Headers(r: Request) {
    r.fields.timestamp != "" && r.fields.nonce != "" && r.sig != "" && Decimal.Atoi(r.fields.timestamp).Some?
  }

  /** The timestamp is at most five minutes from the clock, to either side. */
  predicate InTime(st: Store, r: Request)
    requires Headers(r)
  {
    -300_000 <= st.now - Decimal.Atoi(r.fields.timestamp).value <= 300_000
  }

  /** The nonce is free, and from then on it is taken for five minutes; nothing else changes. */
  ghost predicate NonceNoted(st: Store, r: Request, st': Store) {
    var k := Nonce(r.fields.nonce);
    && !st.Alive(k) && st'.now == st.now && (forall j | j != k :: st'.Stored(j) == st.Stored(j))
    && forall t :: st'.(now := t).Alive(k) <==> t <= st.now + 300_000
  }

  lemma NonceIsNoSecret(cfg: Config, st: Store, st': Store, r: Request)
    requires NonceNoted(st, r, st')
    ensures SignatureHolds(cfg, st', r) == SignatureHolds(cfg, st, r)
  {
    if r.bearer.Signed? {
      assert st'.Stored(SignSecret(r.bearer.claims.admin)) == st.Stored(SignSecret(r.bearer.claims.admin));
    }
  }

  /**
   Which requests get past Sign, and what every other one is answered: outside the window "expired", and otherwise
   "invalid". A request refused for its signature has used up its nonce.
   */
  lemma SignAnswers(cfg: Config, st: Store, r: Request, env: Env) returns (st': Store)
    ensures !Headers(r) ==> Alone(cfg, st, StartSign(r), env) == (st, SignInvalid)
    ensures Headers(r) && !InTime(st, r) ==> Alone(cfg, st, StartSign(r), env) == (st, SignExpired)
    ensures Headers(r) && InTime(st, r) && st.Alive(Nonce(r.fields.nonce)) ==>
      Alone(cfg, st, StartSign(r), env) == (st, SignInvalid)
    ensures Headers(r) && InTime(st, r) && !st.Alive(Nonce(r.fields.nonce)) ==>
      && NonceNoted(st, r, st')
      && Alone(cfg, st, StartSign(r), env)
         == if SignatureHolds(cfg, st, r) then Alone(cfg, st', AfterSign(r), env) else (st', SignInvalid)
  {
    st' := st.Set(Nonce(r.fields.nonce), Num(1), NONCE_TTL);
    Finished(cfg, st, SignInvalid, env);
    Finished(cfg, st, SignExpired, env);
    if StartSign(r) == SignClock(r) {
      Advance(cfg, st, SignClock(r), env);
      if Headers(r) && InTime(st, r) {
        Advance(cfg, st, SignNonce(r, Decimal.Atoi(r.fields.timestamp).value, st.now), env);
        ComparesIff(cfg, st', r, env);
        if !st.Alive(Nonce(r.fields.nonce)) {
          NonceIsNoSecret(cfg, st, st', r);
        }
      }
    }
  }
}
