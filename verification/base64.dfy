/**
 Unpadded base64 (section 3.2 of RFC 4648) over the standard alphabet of section 4 of RFC 4648, with the
 lenient decoder of Go's `base64.RawStdEncoding`: carriage returns and line feeds are skipped and the unused
 bits of the last character are not checked.
 */
module Base64 {
  import opened Wrappers

  type byte = b: int | 0 <= b < 256
  type sextet = v: int | 0 <= v < 64

  /** Table 1 of RFC 4648. */
  function Letter(v: sextet): (c: char) {
    if v < 26 then 'A' + v as char
    else if v < 52 then 'a' + (v - 26) as char
    else if v < 62 then '0' + (v - 52) as char
    else if v == 62 then '+' else '/'
  }

  function LetterValue(c: char): Option<sextet> {
    if 'A' <= c <= 'Z' then Some(c as int - 'A' as int)
    else if 'a' <= c <= 'z' then Some(c as int - 'a' as int + 26)
    else if '0' <= c <= '9' then Some(c as int - '0' as int + 52)
    else if c == '+' then Some(62)
    else if c == '/' then Some(63)
    else None
  }

  function Encode(bs: seq<byte>): string {
    if bs == [] then ""
    else if |bs| == 1 then [Letter(bs[0] / 4), Letter(bs[0] % 4 * 16)]
    else if |bs| == 2 then
      [Letter(bs[0] / 4), Letter(bs[0] % 4 * 16 + bs[1] / 16), Letter(bs[1] % 16 * 4)]
    else
      [Letter(bs[0] / 4), Letter(bs[0] % 4 * 16 + bs[1] / 16),
       Letter(bs[1] % 16 * 4 + bs[2] / 64), Letter(bs[2] % 64)] + Encode(bs[3..])
  }

  function Values(s: string): (r: Option<seq<sextet>>)
    ensures r.Some? ==> |r.value| == |s|
  {
    if s == "" then Some([])
    else match (LetterValue(s[0]), Values(s[1..]))
      case (Some(v), Some(vs)) => Some([v] + vs)
      case _ => None
  }

  /** The byte whose high six bits are `a` and whose low two are the high two of `b`. */
  function First(a: sextet, b: sextet): byte {
    var x: int, y: int := a, b;
    x * 4 + y / 16
  }

  function Second(a: sextet, b: sextet): byte {
    var x: int, y: int := a, b;
    x % 16 * 16 + y / 4
  }

  function Third(a: sextet, b: sextet): byte {
    var x: int, y: int := a, b;
    x % 4 * 64 + y
  }

  function Pack(vs: seq<sextet>): Option<seq<byte>> {
    if vs == [] then Some([])
    else if |vs| == 1 then None
    else if |vs| == 2 then Some([First(vs[0], vs[1])])
    else if |vs| == 3 then Some([First(vs[0], vs[1]), Second(vs[1], vs[2])])
    else match Pack(vs[4..])
      case Some(rest) => Some([First(vs[0], vs[1]), Second(vs[1], vs[2]), Third(vs[2], vs[3])] + rest)
      case None => None
  }

  predicate LineBreak(c: char) {
    c == '\r' || c == '\n'
  }

  function DropLineBreaks(s: string): string {
    if s == "" then ""
    else if LineBreak(s[0]) then DropLineBreaks(s[1..])
    else [s[0]] + DropLineBreaks(s[1..])
  }

  function Decode(s: string): Option<seq<byte>> {
    match Values(DropLineBreaks(s))
    case Some(vs) => Pack(vs)
    case None => None
  }

  /** The bits of the last character that carry no data are zero. */
  predicate ZeroTail(vs: seq<sextet>) {
    match |vs| % 4
    case 2 => vs[|vs| - 1] % 16 == 0
    case 3 => vs[|vs| - 1] % 4 == 0
    case _ => true
  }

  function Unpack(bs: seq<byte>): (vs: seq<sextet>) {
    if bs == [] then []
    else if |bs| == 1 then [bs[0] / 4, bs[0] % 4 * 16]
    else if |bs| == 2 then [bs[0] / 4, bs[0] % 4 * 16 + bs[1] / 16, bs[1] % 16 * 4]
    else
      [bs[0] / 4, bs[0] % 4 * 16 + bs[1] / 16, bs[1] % 16 * 4 + bs[2] / 64, bs[2] % 64] + Unpack(bs[3..])
  }

  function Letters(vs: seq<sextet>): (s: string)
    ensures |s| == |vs|
    ensures forall i :: 0 <= i < |vs| ==> s[i] == Letter(vs[i])
  {
    if vs == [] then "" else [Letter(vs[0])] + Letters(vs[1..])
  }

  lemma {:induction false} EncodeIsLetters(bs: seq<byte>)
    ensures Encode(bs) == Letters(Unpack(bs))
  {
    if |bs| > 2 {
      EncodeIsLetters(bs[3..]);
      var vs := Unpack(bs);
      assert vs[4..] == Unpack(bs[3..]);
      assert vs[1..][1..] == vs[2..] && vs[2..][1..] == vs[3..] && vs[3..][1..] == vs[4..];
    }
  }

  lemma LetterValueLetter(v: sextet)
    ensures LetterValue(Letter(v)) == Some(v)
  {
  }

  lemma LetterLetterValue(c: char)
    requires LetterValue(c).Some?
    ensures Letter(LetterValue(c).value) == c
  {
  }

  lemma {:induction false} ValuesLetters(vs: seq<sextet>)
    ensures Values(Letters(vs)) == Some(vs)
  {
    if vs != [] {
      LetterValueLetter(vs[0]);
      ValuesLetters(vs[1..]);
      assert Letters(vs)[1..] == Letters(vs[1..]);
      assert vs == [vs[0]] + vs[1..];
    }
  }

  lemma {:induction false} LettersValues(s: string)
    requires Values(s).Some?
    ensures Letters(Values(s).value) == s
  {
    if s != "" {
      LetterLetterValue(s[0]);
      LettersValues(s[1..]);
      assert Values(s).value[1..] == Values(s[1..]).value;
    }
  }

  lemma UnpackThenPackGroup(b0: byte, b1: byte, b2: byte)
    ensures First(b0 / 4, b0 % 4 * 16 + b1 / 16) == b0
    ensures Second(b0 % 4 * 16 + b1 / 16, b1 % 16 * 4 + b2 / 64) == b1
    ensures Third(b1 % 16 * 4 + b2 / 64, b2 % 64) == b2
  {
  }

  lemma PackThenUnpackGroup(v0: sextet, v1: sextet, v2: sextet, v3: sextet)
    ensures
      var b0, b1, b2 := First(v0, v1), Second(v1, v2), Third(v2, v3);
      && b0 / 4 == v0 && b0 % 4 * 16 + b1 / 16 == v1
      && b1 % 16 * 4 + b2 / 64 == v2 && b2 % 64 == v3
      && (b0 % 4 * 16 == v1 <==> v1 % 16 == 0)
      && (b1 % 16 * 4 == v2 <==> v2 % 4 == 0)
  {
  }

  lemma {:induction false} PackUnpack(bs: seq<byte>)
    ensures Pack(Unpack(bs)) == Some(bs)
  {
    if |bs| == 1 {
      UnpackThenPackGroup(bs[0], 0, 0);
      assert bs == [bs[0]];
    } else if |bs| == 2 {
      UnpackThenPackGroup(bs[0], bs[1], 0);
      assert bs == [bs[0], bs[1]];
    } else if |bs| > 2 {
      UnpackThenPackGroup(bs[0], bs[1], bs[2]);
      PackUnpack(bs[3..]);
      assert Unpack(bs)[4..] == Unpack(bs[3..]);
      assert bs == [bs[0], bs[1], bs[2]] + bs[3..];
    }
  }

  lemma {:induction false} UnpackPack(vs: seq<sextet>)
    requires Pack(vs).Some?
    ensures Unpack(Pack(vs).value) == vs <==> ZeroTail(vs)
    decreases |vs|, 1
  {
    var bs := Pack(vs).value;
    if |vs| == 2 {
      PackThenUnpackGroup(vs[0], vs[1], 0, 0);
    } else if |vs| == 3 {
      PackThenUnpackGroup(vs[0], vs[1], vs[2], 0);
    } else if |vs| >= 4 {
      UnpackPackStep(vs);
    }
  }

  lemma {:induction false} UnpackPackStep(vs: seq<sextet>)
    requires |vs| >= 4 && Pack(vs).Some?
    ensures Unpack(Pack(vs).value) == vs <==> ZeroTail(vs)
    decreases |vs|, 0
  {
    var bs, rest := Pack(vs).value, Pack(vs[4..]).value;
    PackThenUnpackGroup(vs[0], vs[1], vs[2], vs[3]);
    UnpackPack(vs[4..]);
    assert bs[3..] == rest;
    assert Unpack(bs) == vs[..4] + Unpack(rest);
    assert vs == vs[..4] + vs[4..];
    assert Unpack(bs)[4..] == Unpack(rest);
    ZeroTailOfRest(vs);
  }

  lemma ZeroTailOfRest(vs: seq<sextet>)
    requires |vs| >= 4
    ensures ZeroTail(vs) == ZeroTail(vs[4..])
  {
    if |vs| > 4 {
      assert vs[4..][|vs[4..]| - 1] == vs[|vs| - 1];
    }
  }

  lemma {:induction false} NothingToDrop(s: string)
    requires forall i :: 0 <= i < |s| ==> !LineBreak(s[i])
    ensures DropLineBreaks(s) == s
  {
    if s != "" {
      NothingToDrop(s[1..]);
    }
  }

  lemma {:induction false} EncodeAlphabet(bs: seq<byte>, c: char)
    requires LetterValue(c).None?
    ensures c !in Encode(bs)
  {
    EncodeIsLetters(bs);
    var vs := Unpack(bs);
    forall i | 0 <= i < |vs| ensures Letters(vs)[i] != c {
      LetterValueLetter(vs[i]);
    }
  }

  /** Decoding undoes encoding, for every byte string. */
  lemma {:induction false} DecodeEncode(bs: seq<byte>)
    ensures Decode(Encode(bs)) == Some(bs)
  {
    EncodeAlphabet(bs, '\r');
    EncodeAlphabet(bs, '\n');
    NothingToDrop(Encode(bs));
    EncodeIsLetters(bs);
    ValuesLetters(Unpack(bs));
    PackUnpack(bs);
  }

  lemma {:induction false} EncodingIsCanonical(s: string)
    requires Decode(s).Some? && Encode(Decode(s).value) == s
    ensures DropLineBreaks(s) == s && Values(s).Some? && ZeroTail(Values(s).value)
  {
    var bs := Decode(s).value;
    EncodeAlphabet(bs, '\r');
    EncodeAlphabet(bs, '\n');
    NothingToDrop(s);
    EncodeIsLetters(bs);
    ValuesLetters(Unpack(bs));
    UnpackPack(Values(s).value);
  }

  /** A decodable string is the encoding of its bytes exactly when it has no line break and a zero tail. */
  lemma {:induction false} EncodeDecode(s: string)
    requires Decode(s).Some?
    ensures Encode(Decode(s).value) == s
            <==> DropLineBreaks(s) == s && Values(s).Some? && ZeroTail(Values(s).value)
  {
    if Encode(Decode(s).value) == s {
      EncodingIsCanonical(s);
    } else if DropLineBreaks(s) == s {
      EncodeIsLetters(Decode(s).value);
      LettersValues(s);
      UnpackPack(Values(s).value);
    }
  }

  lemma {:induction false} EncodeLength(bs: seq<byte>)
    ensures |Encode(bs)| == (4 * |bs| + 2) / 3
  {
    if |bs| > 2 {
      EncodeLength(bs[3..]);
    }
  }

  // ---------- What the decoder accepts ----------

  predicate Legal(s: string) {
    forall i :: 0 <= i < |s| ==> s[i] == '\r' || s[i] == '\n' || LetterValue(s[i]).Some?
  }

  function CountLetters(s: string): nat {
    if s == "" then 0 else (if s[0] == '\r' || s[0] == '\n' then 0 else 1) + CountLetters(s[1..])
  }

  lemma {:induction false} DroppedLetters(s: string)
    ensures |DropLineBreaks(s)| == CountLetters(s)
    ensures Values(DropLineBreaks(s)).Some? <==> Legal(s)
  {
    if s != "" {
      DroppedLetters(s[1..]);
      assert Legal(s) <==> (s[0] == '\r' || s[0] == '\n' || LetterValue(s[0]).Some?) && Legal(s[1..]);
    }
  }

  lemma {:induction false} PackIff(vs: seq<sextet>, groups: nat)
    requires 4 * groups <= |vs| < 4 * groups + 4
    ensures Pack(vs).Some? <==> |vs| - 4 * groups != 1
    decreases groups
  {
    if groups > 0 {
      PackIff(vs[4..], groups - 1);
    }
  }

  /** Letters of the alphabet and line breaks, and not one letter left over. */
  lemma DecodeIff(s: string)
    ensures Decode(s).Some? <==> Legal(s) && CountLetters(s) % 4 != 1
  {
    DroppedLetters(s);
    if Legal(s) {
      PackIff(Values(DropLineBreaks(s)).value, CountLetters(s) / 4);
    }
  }

  // ---------- As the standard describes it ----------

  const ALPHABET: string := "ABCDEFGHIJKLMNOPQRSTUVWXYZ" + "abcdefghijklmnopqrstuvwxyz" + "0123456789+/"

  /** Table 1 of RFC 4648. */
  lemma LetterIsInTable(v: sextet)
    ensures |ALPHABET| == 64 && Letter(v) == ALPHABET[v]
  {
    if v < 26 {
      assert ALPHABET[v] == "ABCDEFGHIJKLMNOPQRSTUVWXYZ"[v];
    } else if v < 52 {
      assert ALPHABET[v] == "abcdefghijklmnopqrstuvwxyz"[v - 26];
    } else {
      assert ALPHABET[v] == "0123456789+/"[v - 52];
    }
  }

  /** What six bits come to as a letter of the table. */
  predicate InTable(c: char, v: sextet) {
    v < |ALPHABET| && c == ALPHABET[v]
  }

  /**
   Section 4 of RFC 4648: three bytes are one number of 24 bits, and its four digits to the base 64 are the letters. The
   last one or two bytes are filled up with zero bits to two or three letters.
   */
  lemma EncodeGroup(bs: seq<byte>) returns (v: sextet, w: sextet, x: sextet, y: sextet)
    requires bs != []
    ensures
      var e := Encode(bs);
      && |e| >= 2 && InTable(e[0], v) && InTable(e[1], w)
      && (|bs| == 1 ==> |e| == 2 && 64 * v + w == 16 * bs[0] as int)
      && (|bs| == 2 ==>
            |e| == 3 && InTable(e[2], x) && 64 * (64 * v + w) + x == 4 * (256 * bs[0] as int + bs[1] as int))
      && (|bs| >= 3 ==>
            && |e| >= 4 && InTable(e[2], x) && InTable(e[3], y) && e[4..] == Encode(bs[3..])
            && 64 * (64 * (64 * v as int + w) + x) + y == 256 * (256 * bs[0] as int + bs[1] as int) + bs[2] as int)
  {
    v, w, x, y := bs[0] / 4, bs[0] % 4 * 16, 0, 0;
    if |bs| >= 2 {
      w, x := w + bs[1] / 16, bs[1] % 16 * 4;
    }
    if |bs| >= 3 {
      x, y := x + bs[2] / 64, bs[2] % 64;
    }
    LetterIsInTable(v);
    LetterIsInTable(w);
    LetterIsInTable(x);
    LetterIsInTable(y);
  }
}
