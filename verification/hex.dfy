/** Lower-case hex encoding (Go's `encoding/hex`) and the reset-token helpers of
    internal/auth/password_reset.go built on it: `hashString` and `GenerateSecureToken`. */
module Octets {
  function Pow2(k: nat): (p: nat)
    ensures p >= 1
  {
    if k == 0 then 1 else 2 * Pow2(k - 1)
  }

  /** The low `k` bits of `a XOR b`, built from the least significant bit up. */
  function XorBits(a: nat, b: nat, k: nat): (r: nat)
    ensures r < Pow2(k)
  {
    if k == 0 then 0 else (a % 2 + b % 2) % 2 + 2 * XorBits(a / 2, b / 2, k - 1)
  }

  /** XOR-ing twice with the same value gives a `k`-bit number back. */
  lemma {:induction false} XorBitsTwice(a: nat, b: nat, k: nat)
    requires a < Pow2(k)
    ensures XorBits(XorBits(a, b, k), b, k) == a
  {
    if k > 0 {
      assert a / 2 < Pow2(k - 1);
      var bit := (a % 2 + b % 2) % 2;
      var rest := XorBits(a / 2, b / 2, k - 1);
      var r := bit + 2 * rest;
      assert XorBits(a, b, k) == r;
      assert r % 2 == bit && r / 2 == rest;
      assert (bit + b % 2) % 2 == a % 2;
      XorBitsTwice(a / 2, b / 2, k - 1);
      assert XorBits(r, b, k) == a % 2 + 2 * (a / 2);
    }
  }
}

module Hex {
  import opened Wrappers
  import Octets

  /** A Go `byte`. */
  newtype Byte = x: int | 0 <= x < 256

  const Digits: string := "0123456789abcdef"

  /** The XOR mask `hashString` applies to every byte. */
  const Mask: Byte := 0xAA

  predicate IsLowerHexDigit(c: char) {
    '0' <= c <= '9' || 'a' <= c <= 'f'
  }

  predicate IsLowerHex(s: string) {
    forall i :: 0 <= i < |s| ==> IsLowerHexDigit(s[i])
  }

  /** A digit `hex.DecodeString` accepts, in either letter case. */
  predicate IsHexDigit(c: char) {
    '0' <= c <= '9' || 'a' <= c <= 'f' || 'A' <= c <= 'F'
  }

  predicate IsHex(s: string) {
    forall i :: 0 <= i < |s| ==> IsHexDigit(s[i])
  }

  /** A hex digit in lower case. */
  function LowerDigit(c: char): (d: char)
    requires IsHexDigit(c)
    ensures IsLowerHexDigit(d)
    ensures IsLowerHexDigit(c) ==> d == c
  {
    if 'A' <= c <= 'F' then (c as int - 'A' as int + 'a' as int) as char else c
  }

  /** Hex text with its letters put in lower case. */
  function Lowered(s: string): (t: string)
    requires IsHex(s)
    ensures |t| == |s| && IsLowerHex(t)
  {
    seq(|s|, i requires 0 <= i < |s| && IsHex(s) => LowerDigit(s[i]))
  }

  /** Every char of a Go string stands for one byte. */
  predicate IsByteString(s: string) {
    forall i :: 0 <= i < |s| ==> s[i] as int < 256
  }

  lemma LowerHexIsByteString(s: string)
    requires IsLowerHex(s)
    ensures IsByteString(s)
  {
  }

  function DigitChar(n: Byte): (c: char)
    requires n < 16
    ensures IsLowerHexDigit(c)
  {
    Digits[n as int]
  }

  /** The value of one hex digit; `hex.DecodeString` accepts both letter cases. */
  function DigitValue(c: char): (r: Option<Byte>)
    ensures r.Some? ==> r.value < 16
  {
    if '0' <= c <= '9' then Some((c as int - '0' as int) as Byte)
    else if 'a' <= c <= 'f' then Some((c as int - 'a' as int + 10) as Byte)
    else if 'A' <= c <= 'F' then Some((c as int - 'A' as int + 10) as Byte)
    else None
  }

  lemma DigitRoundTrip(n: Byte)
    requires n < 16
    ensures DigitValue(DigitChar(n)) == Some(n)
  {
  }

  /** `hex.EncodeToString`: two lower-case digits per byte, high nibble first. */
  function Encode(b: seq<Byte>): (s: string)
    ensures |s| == 2 * |b|
    ensures IsLowerHex(s)
  {
    if |b| == 0 then ""
    else [DigitChar(b[0] / 16), DigitChar(b[0] % 16)] + Encode(b[1..])
  }

  /** `hex.DecodeString`: fails on an odd length or a non-hex character. */
  function Decode(s: string): (r: Option<seq<Byte>>)
    ensures r.Some? ==> 2 * |r.value| == |s|
    decreases |s|
  {
    if |s| == 0 then Some([])
    else if |s| == 1 then None
    else
      var hi :- DigitValue(s[0]);
      var lo :- DigitValue(s[1]);
      var rest :- Decode(s[2..]);
      Some([hi * 16 + lo] + rest)
  }

  /** Decoding an encoding gives the bytes back, so `Encode` is injective. */
  lemma {:induction false} DecodeEncode(b: seq<Byte>)
    ensures Decode(Encode(b)) == Some(b)
  {
    if |b| > 0 {
      var hi, lo := b[0] / 16, b[0] % 16;
      ByteNibbles(b[0]);
      DecodeEncode(b[1..]);
      DecodeDigits(hi, lo, Encode(b[1..]));
      assert Encode(b) == [DigitChar(hi), DigitChar(lo)] + Encode(b[1..]);
      assert b == [b[0]] + b[1..];
    }
  }

  /** A byte is its two nibbles. */
  lemma ByteNibbles(x: Byte)
    ensures x / 16 < 16 && x % 16 < 16 && (x / 16) * 16 + x % 16 == x
  {
  }

  /** Two digits in front of decodable text decode to one more byte in front. */
  lemma DecodeDigits(hi: Byte, lo: Byte, rest: string)
    requires hi < 16 && lo < 16 && Decode(rest).Some?
    ensures Decode([DigitChar(hi), DigitChar(lo)] + rest) == Some([hi * 16 + lo] + Decode(rest).value)
  {
    var s := [DigitChar(hi), DigitChar(lo)] + rest;
    DigitRoundTrip(hi);
    DigitRoundTrip(lo);
    assert s[2..] == rest;
  }

  /** `DigitValue` accepts exactly the hex digits. */
  lemma DigitValueAccepts(c: char)
    ensures DigitValue(c).Some? <==> IsHexDigit(c)
  {
  }

  /** Decoding and re-encoding a digit puts it in lower case. */
  lemma DigitCharValue(c: char)
    requires IsHexDigit(c)
    ensures DigitValue(c).Some? && DigitChar(DigitValue(c).value) == LowerDigit(c)
  {
    if '0' <= c <= '9' {
      DecimalDigit(c);
    } else if 'a' <= c <= 'f' {
      LowerLetterDigit(c);
    } else {
      UpperLetterDigit(c);
    }
  }

  lemma DecimalDigit(c: char)
    requires '0' <= c <= '9'
    ensures DigitValue(c) == Some((c as int - '0' as int) as Byte) && DigitChar(DigitValue(c).value) == c
  {
  }

  lemma LowerLetterDigit(c: char)
    requires 'a' <= c <= 'f'
    ensures DigitValue(c) == Some((c as int - 'a' as int + 10) as Byte) && DigitChar(DigitValue(c).value) == c
  {
  }

  lemma UpperLetterDigit(c: char)
    requires 'A' <= c <= 'F'
    ensures DigitValue(c) == Some((c as int - 'A' as int + 10) as Byte)
    ensures DigitChar(DigitValue(c).value) == (c as int - 'A' as int + 'a' as int) as char
  {
  }

  /** Hex text of two digits or more, read as its first two digits and the rest. */
  lemma HexSplit(s: string)
    requires |s| >= 2
    ensures IsHex(s) <==> IsHexDigit(s[0]) && IsHexDigit(s[1]) && IsHex(s[2..])
  {
    assert forall i :: 2 <= i < |s| ==> s[i] == s[2..][i - 2];
  }

  /** One step of `Decode`: it succeeds when both leading digits and the rest do. */
  lemma DecodeStep(s: string)
    requires |s| >= 2
    ensures Decode(s).Some? <==> DigitValue(s[0]).Some? && DigitValue(s[1]).Some? && Decode(s[2..]).Some?
  {
  }

  /** `hex.DecodeString` succeeds exactly on hex text of even length. */
  lemma {:induction false} DecodeAccepts(s: string)
    ensures Decode(s).Some? <==> |s| % 2 == 0 && IsHex(s)
    decreases |s|
  {
    if |s| >= 2 {
      DecodeStep(s);
      DigitValueAccepts(s[0]);
      DigitValueAccepts(s[1]);
      HexSplit(s);
      DecodeAccepts(s[2..]);
    }
  }

  /** A byte put together from two nibbles gives them back. */
  lemma Nibbles(hi: Byte, lo: Byte)
    requires hi < 16 && lo < 16
    ensures (hi * 16 + lo) / 16 == hi && (hi * 16 + lo) % 16 == lo
  {
  }

  /** One step of `Encode`. */
  lemma EncodeStep(b: Byte, rest: seq<Byte>)
    ensures Encode([b] + rest) == [DigitChar(b / 16), DigitChar(b % 16)] + Encode(rest)
  {
    assert ([b] + rest)[1..] == rest;
  }

  /** One step of `Lowered`. */
  lemma LoweredStep(s: string)
    requires |s| >= 2 && IsHex(s)
    ensures IsHex(s[2..]) && Lowered(s) == [LowerDigit(s[0]), LowerDigit(s[1])] + Lowered(s[2..])
  {
    HexSplit(s);
  }

  /** Decoding then encoding gives the text back in lower case: the
      canonical form of any accepted input is its lower-case spelling. */
  lemma {:induction false} EncodeDecode(s: string)
    requires Decode(s).Some?
    ensures IsHex(s) && Encode(Decode(s).value) == Lowered(s)
    decreases |s|
  {
    DecodeAccepts(s);
    if |s| >= 2 {
      DecodeStep(s);
      var hi := DigitValue(s[0]).value;
      var lo := DigitValue(s[1]).value;
      var rest := Decode(s[2..]).value;
      var b := hi * 16 + lo;
      assert Decode(s).value == [b] + rest;
      assert DigitChar(b / 16) == LowerDigit(s[0]) && DigitChar(b % 16) == LowerDigit(s[1]) by {
        DigitCharValue(s[0]);
        DigitCharValue(s[1]);
        Nibbles(hi, lo);
      }
      assert Encode(rest) == Lowered(s[2..]) by {
        EncodeDecode(s[2..]);
      }
      EncodeStep(b, rest);
      LoweredStep(s);
    }
  }

  lemma EncodeInjective(a: seq<Byte>, b: seq<Byte>)
    ensures Encode(a) == Encode(b) ==> a == b
  {
    DecodeEncode(a);
    DecodeEncode(b);
  }

  /** The bytes `hashString` hex-encodes: each byte of `s` XOR 0xAA. */
  function Masked(s: string): (r: seq<Byte>)
    requires IsByteString(s)
    ensures |r| == |s|
  {
    seq(|s|, i requires 0 <= i < |s| && IsByteString(s) => Xor(s[i] as Byte, Mask))
  }

  /** `hashString`: XOR every byte with 0xAA, then hex-encode. */
  function HashString(s: string): (h: string)
    requires IsByteString(s)
    ensures |h| == 2 * |s|
    ensures IsLowerHex(h)
  {
    Encode(Masked(s))
  }

  /** Each byte XOR 0xAA again, read back as a char: undoes `Masked`. */
  function Unmasked(b: seq<Byte>): (r: string)
    ensures |r| == |b|
    ensures IsByteString(r)
  {
    seq(|b|, i requires 0 <= i < |b| => Xor(b[i], Mask) as char)
  }

  /** The inverse of `hashString`: hex-decode, then unmask. */
  function UnhashString(h: string): (r: Option<string>)
    ensures r.Some? ==> IsByteString(r.value)
  {
    match Decode(h)
    case None => None
    case Some(b) => Some(Unmasked(b))
  }

  /** Go's `^` on bytes. */
  function Xor(x: Byte, y: Byte): Byte {
    assert Octets.Pow2(8) == 256;
    Octets.XorBits(x as nat, y as nat, 8) as Byte
  }

  /** Masking twice gives the byte back. */
  lemma XorTwice(x: Byte)
    ensures Xor(Xor(x, Mask), Mask) == x
  {
    assert Octets.Pow2(8) == 256;
    Octets.XorBitsTwice(x as nat, Mask as nat, 8);
  }

  lemma UnmaskChar(c: char)
    requires c as int < 256
    ensures Xor(Xor(c as Byte, Mask), Mask) as char == c
  {
    XorTwice(c as Byte);
  }

  lemma UnmaskedMasked(s: string)
    requires IsByteString(s)
    ensures Unmasked(Masked(s)) == s
  {
    var t := Unmasked(Masked(s));
    forall i | 0 <= i < |s|
      ensures t[i] == s[i]
    {
      UnmaskChar(s[i]);
    }
  }

  /** `hashString` is a clean encoder: it can be undone, hence it is injective. */
  lemma HashStringRoundTrip(s: string)
    requires IsByteString(s)
    ensures UnhashString(HashString(s)) == Some(s)
  {
    DecodeEncode(Masked(s));
    UnmaskedMasked(s);
  }

  lemma HashStringInjective(s: string, t: string)
    requires IsByteString(s) && IsByteString(t)
    ensures HashString(s) == HashString(t) ==> s == t
  {
    HashStringRoundTrip(s);
    HashStringRoundTrip(t);
  }

  /** The byte loop of `hashString` followed by `hex.EncodeToString`. */
  method HashStringLoop(s: string) returns (h: string)
    requires IsByteString(s)
    ensures |h| == 2 * |s|
    ensures UnhashString(h) == Some(s)
  {
    var hash: seq<Byte> := [];
    var i := 0;
    while i < |s|
      invariant 0 <= i <= |s|
      invariant hash == Masked(s)[..i]
    {
      hash := hash + [Xor(s[i] as Byte, Mask)];
      i := i + 1;
    }
    assert hash == Masked(s);
    h := Encode(hash);
    HashStringRoundTrip(s);
  }

  /** `GenerateSecureToken(n)`: `random` is the outcome of reading n bytes from
      crypto/rand (None when the read fails). */
  function GenerateSecureToken(n: nat, random: Option<seq<Byte>>): (r: Result<string, string>)
    requires random.Some? ==> |random.value| == n
    ensures r.Success? <==> random.Some?
    ensures r.Success? ==> |r.value| == 2 * n && IsLowerHex(r.value)
    ensures r.Success? ==> Decode(r.value) == random
  {
    match random
    case None => Failure("crypto/rand read failed")
    case Some(b) => DecodeEncode(b); Success(Encode(b))
  }
}
