/**
 The business users' password hashes: the string `scrypt$N$r$p$salt$dk` of internal/auth/password.go, and the
 password reset of internal/service/data_service.go that stores one. The key-derivation function is a parameter.
 */
module Password {
  import opened Wrappers
  import opened Base64
  import Decimal
  import Text

  /** `scrypt.Key(password, salt, N, r, p, keyLen)`; None stands for its error result. */
  type Kdf = (string, seq<byte>, int, int, int, nat) -> Option<seq<byte>>

  const SCRYPT_N: int := 32768
  const SCRYPT_R: int := 8
  const SCRYPT_P: int := 1
  const SCRYPT_KEY_LEN: nat := 32
  const SALT_LEN: nat := 16

  /** The five values a stored hash carries besides the tag `scrypt`. */
  datatype Parts = Parts(n: int, r: int, p: int, salt: seq<byte>, key: seq<byte>)

  function Format(x: Parts): string {
    Text.Join(["scrypt", Decimal.Print(x.n), Decimal.Print(x.r), Decimal.Print(x.p),
               Encode(x.salt), Encode(x.key)], '$')
  }

  function Parse(hash: string): Option<Parts> {
    var parts := Text.Split(hash, '$');
    if |parts| != 6 || parts[0] != "scrypt" then None
    else match (Decimal.Atoi(parts[1]), Decimal.Atoi(parts[2]), Decimal.Atoi(parts[3]),
                Decode(parts[4]), Decode(parts[5]))
      case (Some(n), Some(r), Some(p), Some(salt), Some(key)) => Some(Parts(n, r, p, salt, key))
      case _ => None
  }

  function HashUserPassword(kdf: Kdf, password: string, salt: seq<byte>): Option<string> {
    match kdf(password, salt, SCRYPT_N, SCRYPT_R, SCRYPT_P, SCRYPT_KEY_LEN)
    case Some(key) => Some(Format(Parts(SCRYPT_N, SCRYPT_R, SCRYPT_P, salt, key)))
    case None => None
  }

  predicate CheckUserPassword(kdf: Kdf, hash: string, password: string) {
    match Parse(hash)
    case Some(x) => kdf(password, x.salt, x.n, x.r, x.p, |x.key|) == Some(x.key)
    case None => false
  }

  lemma PrintAvoidsDollar(n: int)
    ensures Text.Avoids(Decimal.Print(n), '$')
  {
  }

  /** Splitting, parsing and decoding a printed hash gives back exactly what was printed. */
  lemma ParseFormat(x: Parts)
    requires Decimal.Int64(x.n) && Decimal.Int64(x.r) && Decimal.Int64(x.p)
    ensures Parse(Format(x)) == Some(x)
  {
    var parts := ["scrypt", Decimal.Print(x.n), Decimal.Print(x.r), Decimal.Print(x.p), Encode(x.salt), Encode(x.key)];
    PrintAvoidsDollar(x.n);
    PrintAvoidsDollar(x.r);
    PrintAvoidsDollar(x.p);
    EncodeAlphabet(x.salt, '$');
    EncodeAlphabet(x.key, '$');
    Text.SplitJoin(parts, '$');
    Decimal.AtoiPrint(x.n);
    Decimal.AtoiPrint(x.r);
    Decimal.AtoiPrint(x.p);
    DecodeEncode(x.salt);
    DecodeEncode(x.key);
  }

  /** Two hashes print alike only when all their parts agree. */
  lemma FormatInjective(x: Parts, y: Parts)
    requires Decimal.Int64(x.n) && Decimal.Int64(x.r) && Decimal.Int64(x.p)
    requires Decimal.Int64(y.n) && Decimal.Int64(y.r) && Decimal.Int64(y.p)
    requires Format(x) == Format(y)
    ensures x == y
  {
    ParseFormat(x);
    ParseFormat(y);
  }

  /**
   A hash made by `HashUserPassword` accepts a password exactly when the derivation gives the same key for it;
   in particular it accepts the password it was made from.
   */
  lemma CheckOfHash(kdf: Kdf, password: string, salt: seq<byte>, candidate: string)
    requires HashUserPassword(kdf, password, salt).Some?
    requires |kdf(password, salt, SCRYPT_N, SCRYPT_R, SCRYPT_P, SCRYPT_KEY_LEN).value| == SCRYPT_KEY_LEN
    ensures CheckUserPassword(kdf, HashUserPassword(kdf, password, salt).value, candidate)
            <==> (kdf(candidate, salt, SCRYPT_N, SCRYPT_R, SCRYPT_P, SCRYPT_KEY_LEN)
                  == kdf(password, salt, SCRYPT_N, SCRYPT_R, SCRYPT_P, SCRYPT_KEY_LEN))
  {
    var key := kdf(password, salt, SCRYPT_N, SCRYPT_R, SCRYPT_P, SCRYPT_KEY_LEN).value;
    ParseFormat(Parts(SCRYPT_N, SCRYPT_R, SCRYPT_P, salt, key));
  }

  /** `hash` is the tag, three numbers, the salt and the key, between dollar signs. */
  predicate Spelled(hash: string, parts: seq<string>, x: Parts) {
    && |parts| == 6 && Text.AllAvoid(parts, '$') && hash == Text.Join(parts, '$') && parts[0] == "scrypt"
    && Decimal.Atoi(parts[1]) == Some(x.n) && Decimal.Atoi(parts[2]) == Some(x.r) && Decimal.Atoi(parts[3]) == Some(x.p)
    && Decode(parts[4]) == Some(x.salt) && Decode(parts[5]) == Some(x.key)
  }

  /** Which strings accept a password: those spelled so, with a key that the derivation gives for it. */
  lemma CheckIff(kdf: Kdf, hash: string, password: string)
    ensures CheckUserPassword(kdf, hash, password) <==>
      exists parts, x :: Spelled(hash, parts, x) && kdf(password, x.salt, x.n, x.r, x.p, |x.key|) == Some(x.key)
  {
    if CheckUserPassword(kdf, hash, password) {
      Text.JoinSplit(hash, '$');
      assert Spelled(hash, Text.Split(hash, '$'), Parse(hash).value);
    }
    if parts, x :| Spelled(hash, parts, x) && kdf(password, x.salt, x.n, x.r, x.p, |x.key|) == Some(x.key) {
      Text.SplitJoin(parts, '$');
    }
  }

  /** The stored text, with its parameters: scrypt with N = 32768, r = 8, p = 1 and a key of 32 bytes. */
  lemma HashText(kdf: Kdf, password: string, salt: seq<byte>)
    requires HashUserPassword(kdf, password, salt).Some?
    ensures kdf(password, salt, 32768, 8, 1, 32).Some?
    ensures HashUserPassword(kdf, password, salt).value
         == "scrypt$32768$8$1$" + (Encode(salt) + "$" + Encode(kdf(password, salt, 32768, 8, 1, 32).value))
  {
    var key := kdf(password, salt, 32768, 8, 1, 32).value;
    PrintedParameters();
    FormatLayout(Parts(SCRYPT_N, SCRYPT_R, SCRYPT_P, salt, key));
    FixedPart(Encode(salt) + "$" + Encode(key));
  }

  lemma FixedPart(rest: string)
    ensures "scrypt" + "$" + ("32768" + "$" + ("8" + "$" + ("1" + "$" + rest))) == "scrypt$32768$8$1$" + rest
  {
    assert "1" + "$" + rest == "1$" + rest;
    assert "8" + "$" + ("1$" + rest) == "8$1$" + rest;
    assert "32768" + "$" + ("8$1$" + rest) == "32768$8$1$" + rest;
  }

  lemma PrintedParameters()
    ensures Decimal.Print(SCRYPT_N) == "32768" && Decimal.Print(SCRYPT_R) == "8" && Decimal.Print(SCRYPT_P) == "1"
  {
    assert Decimal.PrintNat(32) == "32";
    assert Decimal.PrintNat(327) == "327";
    assert Decimal.PrintNat(3276) == "3276";
  }

  lemma FormatLayout(x: Parts)
    ensures
      var rest := Encode(x.salt) + "$" + Encode(x.key);
      Format(x)
      == "scrypt" + "$"
         + (Decimal.Print(x.n) + "$" + (Decimal.Print(x.r) + "$" + (Decimal.Print(x.p) + "$" + rest)))
  {
    var k := [Encode(x.key)];
    var s := [Encode(x.salt)] + k;
    var p := [Decimal.Print(x.p)] + s;
    var r := [Decimal.Print(x.r)] + p;
    var n := [Decimal.Print(x.n)] + r;
    Text.JoinCons(Encode(x.salt), k, '$');
    Text.JoinCons(Decimal.Print(x.p), s, '$');
    Text.JoinCons(Decimal.Print(x.r), p, '$');
    Text.JoinCons(Decimal.Print(x.n), r, '$');
    Text.JoinCons("scrypt", n, '$');
    assert ["scrypt"] + n == ["scrypt", Decimal.Print(x.n), Decimal.Print(x.r), Decimal.Print(x.p),
                              Encode(x.salt), Encode(x.key)];
  }

  lemma FormatLength(x: Parts)
    ensures |Format(x)| == 11 + |Decimal.Print(x.n)| + |Decimal.Print(x.r)| + |Decimal.Print(x.p)|
                           + |Encode(x.salt)| + |Encode(x.key)|
  {
    FormatLayout(x);
  }

  lemma EncodedLengths(salt: seq<byte>, key: seq<byte>)
    requires |salt| == SALT_LEN && |key| == SCRYPT_KEY_LEN
    ensures |Encode(salt)| == 22 && |Encode(key)| == 43
  {
    EncodeLength(salt);
    EncodeLength(key);
  }

  /** The hash string is 83 characters long, so it fits the 255 of the password_hash column. */
  lemma HashLength(kdf: Kdf, password: string, salt: seq<byte>)
    requires |salt| == SALT_LEN
    requires HashUserPassword(kdf, password, salt).Some?
    requires |kdf(password, salt, SCRYPT_N, SCRYPT_R, SCRYPT_P, SCRYPT_KEY_LEN).value| == SCRYPT_KEY_LEN
    ensures |HashUserPassword(kdf, password, salt).value| == 83
  {
    var key := kdf(password, salt, SCRYPT_N, SCRYPT_R, SCRYPT_P, SCRYPT_KEY_LEN).value;
    EncodedLengths(salt, key);
    PrintedParameters();
    FormatLength(Parts(SCRYPT_N, SCRYPT_R, SCRYPT_P, salt, key));
  }

  // ---------- Drawn passwords ----------

  const SMALL: string := "abcdefgh" + "jkmn" + "pqrstuvwxyz"
  const CAPITAL: string := "ABCDEFGH" + "JKMN" + "PQRSTUVWXYZ"
  const CHARS: string := SMALL + CAPITAL + "23456789"

  /** The password that a list of random numbers below |CHARS| picks. */
  function Drawn(draws: seq<nat>): (pw: string)
    requires forall i :: 0 <= i < |draws| ==> draws[i] < |CHARS|
    ensures |pw| == |draws| && forall i :: 0 <= i < |pw| ==> pw[i] in CHARS
  {
    seq(|draws|, i requires 0 <= i < |draws| => CHARS[draws[i]])
  }

  /** Where a character stands in CHARS, or 54. */
  function Place(c: char): nat {
    if 'a' <= c <= 'h' then (c as int - 'a' as int) as nat
    else if 'j' <= c <= 'k' then c as int - 'j' as int + 8
    else if 'm' <= c <= 'n' then c as int - 'm' as int + 10
    else if 'p' <= c <= 'z' then c as int - 'p' as int + 12
    else if 'A' <= c <= 'H' then c as int - 'A' as int + 23
    else if 'J' <= c <= 'K' then c as int - 'J' as int + 31
    else if 'M' <= c <= 'N' then c as int - 'M' as int + 33
    else if 'P' <= c <= 'Z' then c as int - 'P' as int + 35
    else if '2' <= c <= '9' then c as int - '2' as int + 46
    else 54
  }

  lemma PlaceOfSmall(i: nat)
    requires i < 23
    ensures |SMALL| == 23 && Place(SMALL[i]) == i
  {
    if i < 8 {
      assert SMALL[i] == "abcdefgh"[i];
    } else if i < 12 {
      assert SMALL[i] == "jkmn"[i - 8];
    } else {
      assert SMALL[i] == "pqrstuvwxyz"[i - 12];
    }
  }

  lemma PlaceOfCapital(i: nat)
    requires i < 23
    ensures |CAPITAL| == 23 && Place(CAPITAL[i]) == i + 23
  {
    if i < 8 {
      assert CAPITAL[i] == "ABCDEFGH"[i];
    } else if i < 12 {
      assert CAPITAL[i] == "JKMN"[i - 8];
    } else {
      assert CAPITAL[i] == "PQRSTUVWXYZ"[i - 12];
    }
  }

  lemma PlaceOf(i: nat)
    requires i < |CHARS|
    ensures |CHARS| == 54 && Place(CHARS[i]) == i
  {
    if i < 23 {
      PlaceOfSmall(i);
    } else if i < 46 {
      PlaceOfCapital(i - 23);
    } else {
      assert CHARS[i] == "23456789"[i - 46];
    }
  }

  /** The drawn characters are the letters and digits but for those that look like another. */
  lemma CharsIff(c: char)
    ensures c in CHARS <==> ('a' <= c <= 'z' || 'A' <= c <= 'Z' || '0' <= c <= '9') && c !in "iloILO01"
  {
    if c in CHARS {
      var i :| 0 <= i < |CHARS| && CHARS[i] == c;
      PlaceOf(i);
    } else {
      forall i | 0 <= i < |SMALL| ensures SMALL[i] != c {
        assert CHARS[i] == SMALL[i];
      }
      forall i | 0 <= i < |CAPITAL| ensures CAPITAL[i] != c {
        assert CHARS[23 + i] == CAPITAL[i];
      }
    }
  }

  /** Different draws give different passwords, and every password over these characters is drawn. */
  lemma DrawnBijective(a: seq<nat>, b: seq<nat>, pw: string)
    requires forall i :: 0 <= i < |a| ==> a[i] < |CHARS|
    requires forall i :: 0 <= i < |b| ==> b[i] < |CHARS|
    requires forall i :: 0 <= i < |pw| ==> pw[i] in CHARS
    ensures Drawn(a) == Drawn(b) ==> a == b
    ensures
      var draws := seq(|pw|, i requires 0 <= i < |pw| => Place(pw[i]));
      (forall i :: 0 <= i < |draws| ==> draws[i] < |CHARS|) && Drawn(draws) == pw
  {
    if Drawn(a) == Drawn(b) {
      forall i | 0 <= i < |a| ensures a[i] == b[i] {
        assert Drawn(a)[i] == Drawn(b)[i];
        PlaceOf(a[i]);
        PlaceOf(b[i]);
      }
    }
    forall i | 0 <= i < |pw| ensures Place(pw[i]) < |CHARS| && CHARS[Place(pw[i])] == pw[i] {
      var k :| 0 <= k < |CHARS| && CHARS[k] == pw[i];
      PlaceOf(k);
    }
  }

  datatype User = User(username: string, passwordHash: string, disabled: bool)

  datatype ResetResult = Reset(plain: string) | NoSuchUser | InternalError

  /** The users table that the reset writes. */
  class UserTable {
    var users: map<int, User>

    constructor (users: map<int, User>)
      ensures this.users == users
    {
      this.users := users;
    }

    /**
     Draws ten characters, hashes them and stores the hash. `draws` are the ten random numbers below |CHARS|
     and `salt` the random salt. The password returned is accepted by the row written, every other row and
     every other column stays, and nothing is written unless a password is returned.
     */
    method ResetUserPassword(kdf: Kdf, id: int, draws: seq<nat>, salt: seq<byte>) returns (r: ResetResult)
      requires |draws| == 10 && forall i :: 0 <= i < 10 ==> draws[i] < |CHARS|
      requires |salt| == SALT_LEN
      requires forall pw :: var k := kdf(pw, salt, SCRYPT_N, SCRYPT_R, SCRYPT_P, SCRYPT_KEY_LEN);
                 k.Some? ==> |k.value| == SCRYPT_KEY_LEN
      modifies this
      ensures
        var pw := Drawn(draws);
        var hash := HashUserPassword(kdf, pw, salt);
        && (r.InternalError? <==> hash.None?)
        && (r.NoSuchUser? <==> hash.Some? && id !in old(users))
        && (!r.Reset? ==> users == old(users))
        && (r.Reset? ==>
              && r.plain == pw && id in old(users)
              && users == old(users)[id := old(users)[id].(passwordHash := hash.value)]
              && CheckUserPassword(kdf, users[id].passwordHash, r.plain)
              && |users[id].passwordHash| <= 255)
    {
      var pwd := "";
      for i := 0 to 10
        invariant pwd == Drawn(draws)[..i]
      {
        pwd := pwd + [CHARS[draws[i]]];
      }
      assert pwd == Drawn(draws);
      var hash := HashUserPassword(kdf, pwd, salt);
      if hash.None? {
        return InternalError;
      }
      if id !in users {
        return NoSuchUser;
      }
      CheckOfHash(kdf, pwd, salt, pwd);
      HashLength(kdf, pwd, salt);
      users := users[id := users[id].(passwordHash := hash.value)];
      return Reset(pwd);
    }
  }
}
