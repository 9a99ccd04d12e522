/**
 The part of Redis the admin service uses: string keys with an optional deadline, read against one clock that
 counts milliseconds. `Client` is the connection the service holds; `Store` is what it talks to.
 */
module Redis {
  import opened Wrappers
  import Decimal

  datatype Key =
    | Token(jti: string)
    | SignSecret(admin: nat)
    | Nonce(nonce: string)
    | LoginErr(account: string)

  datatype Value = Num(n: int) | Str(s: string)

  datatype Entry = Entry(value: Value, deadline: Option<int>)

  /** Expired entries stay in `entries` and count as missing, as with Redis' lazy expiry. */
  datatype Store = Store(now: int, entries: map<Key, Entry>) {

    predicate Alive(k: Key) {
      k in entries && (entries[k].deadline.Some? ==> now <= entries[k].deadline.value)
    }

    /** What is stored under a key, expired or not. */
    function Stored(k: Key): Option<Entry> {
      if k in entries then Some(entries[k]) else None
    }

    function Get(k: Key): Option<Value> {
      if Alive(k) then Some(entries[k].value) else None
    }

    /** A lifetime of zero or less means no expiry. */
    function Set(k: Key, v: Value, ttl: int): Store {
      this.(entries := entries[k := Entry(v, if ttl > 0 then Some(now + ttl) else None)])
    }

    function SetNX(k: Key, v: Value, ttl: int): (Store, bool) {
      if Alive(k) then (this, false) else (Set(k, v, ttl), true)
    }

    /** A missing key counts from zero and gets no deadline; a live one keeps its deadline. */
    function Incr(k: Key): (Store, int) {
      if Alive(k) && entries[k].value.Num? then
        (this.(entries := entries[k := entries[k].(value := Num(entries[k].value.n + 1))]), entries[k].value.n + 1)
      else if Alive(k) then (this, 0)
      else (this.(entries := entries[k := Entry(Num(1), None)]), 1)
    }

    /** Sets the deadline of a live key, does nothing to a missing one; a lifetime of zero or less deletes. */
    function Expire(k: Key, ttl: int): Store {
      if !Alive(k) then this
      else if ttl > 0 then this.(entries := entries[k := entries[k].(deadline := Some(now + ttl))])
      else Del(k)
    }

    function Del(k: Key): Store {
      this.(entries := entries - {k})
    }

    /** `Get(...).Int()`, whose error the callers drop: 0 unless the key holds a number. */
    function GetInt(k: Key): int {
      match Get(k)
      case Some(Num(n)) => n
      case _ => 0
    }

    /** `Get(...).Result()`, whose error the callers drop: "" unless the key holds a string. */
    function GetStr(k: Key): string {
      match Get(k)
      case Some(Str(s)) => s
      case _ => ""
    }
  }

  class Client {
    var db: Store

    constructor (db: Store)
      ensures this.db == db
    {
      this.db := db;
    }

    method Get(k: Key) returns (v: Option<Value>)
      ensures v == db.Get(k)
    {
      v := db.Get(k);
    }

    method Exists(k: Key) returns (alive: bool)
      ensures alive == db.Alive(k)
    {
      alive := db.Alive(k);
    }

    method Set(k: Key, v: Value, ttl: int)
      modifies this
      ensures db == old(db).Set(k, v, ttl)
    {
      db := db.Set(k, v, ttl);
    }

    method SetNX(k: Key, v: Value, ttl: int) returns (ok: bool)
      modifies this
      ensures (db, ok) == old(db).SetNX(k, v, ttl)
    {
      var (db', ok') := db.SetNX(k, v, ttl);
      db, ok := db', ok';
    }

    method Incr(k: Key) returns (n: int)
      modifies this
      ensures (db, n) == old(db).Incr(k)
    {
      var (db', n') := db.Incr(k);
      db, n := db', n';
    }

    method Expire(k: Key, ttl: int)
      modifies this
      ensures db == old(db).Expire(k, ttl)
    {
      db := db.Expire(k, ttl);
    }

    method Del(k: Key)
      modifies this
      ensures db == old(db).Del(k)
    {
      db := db.Del(k);
    }
  }

  // ---------- Key names ----------

  /** The key string the service builds. */
  function Render(k: Key): string {
    match k
    case Token(jti) => "admin:token:" + jti
    case SignSecret(admin) => "admin:sign_secret:" + Decimal.Print(admin)
    case Nonce(nonce) => "admin:sign_nonce:" + nonce
    case LoginErr(account) => "admin:login_err:" + account
  }

  lemma SamePrefix(prefix: string, a: string, b: string)
    requires prefix + a == prefix + b
    ensures a == b
  {
    assert a == (prefix + a)[|prefix|..] && b == (prefix + b)[|prefix|..];
  }

  /** No two of the service's keys collide in Redis, so a key of the model is one key string. */
  lemma RenderInjective(k: Key, k': Key)
    requires Render(k) == Render(k')
    ensures k == k'
  {
    var s, s' := Render(k), Render(k');
    assert k.Token? ==> s[6] == 't';
    assert k.LoginErr? ==> s[6] == 'l';
    assert k.SignSecret? ==> s[6] == 's' && s[11] == 's';
    assert k.Nonce? ==> s[6] == 's' && s[11] == 'n';
    assert k'.Token? ==> s'[6] == 't';
    assert k'.LoginErr? ==> s'[6] == 'l';
    assert k'.SignSecret? ==> s'[6] == 's' && s'[11] == 's';
    assert k'.Nonce? ==> s'[6] == 's' && s'[11] == 'n';
    match (k, k') {
      case (Token(a), Token(b)) => SamePrefix("admin:token:", a, b);
      case (LoginErr(a), LoginErr(b)) => SamePrefix("admin:login_err:", a, b);
      case (Nonce(a), Nonce(b)) => SamePrefix("admin:sign_nonce:", a, b);
      case (SignSecret(a), SignSecret(b)) =>
        SamePrefix("admin:sign_secret:", Decimal.Print(a), Decimal.Print(b));
        Decimal.PrintInjective(a, b);
      case _ =>
    }
  }
}
