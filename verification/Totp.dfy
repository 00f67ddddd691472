/** Time-based login codes (totp/authentication_code.go). HMAC-SHA1 is a function to 20 bytes, and the decoded
    secret is an input. */
module Totp {
  import opened Words
  import opened Wrappers
  import opened Bytes
  import opened Primitives

  const CHARSET := "23456789BCDFGHJKMNPQRTVWXY"
  const CODE_LENGTH := 5
  const CODES := 11881376 // 26 to the power 5

  /** The message authentication function: key and message to digest. */
  type Hmac = (seq<byte>, seq<byte>) -> Digest

  /** Go's integer division, which truncates toward zero. */
  function TruncDiv(a: int, b: nat): int
    requires b > 0
  {
    if a >= 0 then a / b else -((-a) / b)
  }

  /** uint32(time.Unix() / 30) */
  function TimeStep(unix: int): nat {
    TruncDiv(unix, 30) % 0x1_0000_0000
  }

  /** Four zero bytes and the time step, both big-endian. */
  function Message(unix: int): seq<byte> {
    BE(0, 4) + BE(TimeStep(unix), 4)
  }

  /** Dynamic truncation of section 5.3 of RFC 4226: 31 bits from the offset in the last four bits. */
  function Truncate(digest: Digest): nat {
    var offset := digest[19] % 16;
    UnBE(digest[offset..offset + 4]) % 0x8000_0000
  }

  /** The n low digits of v in base 26, least significant first. */
  function Digits(v: nat, n: nat): (s: string)
    ensures |s| == n
  {
    if n == 0 then "" else [CHARSET[v % 26]] + Digits(v / 26, n - 1)
  }

  function Code(mac: Hmac, secret: seq<byte>, unix: int): string {
    Digits(Truncate(mac(secret, Message(unix))), CODE_LENGTH)
  }

  /** secret is None when the shared secret is not base64. */
  method CreateAuthenticationCode(mac: Hmac, secret: Option<seq<byte>>, unix: int)
    returns (r: Result<string, string>)
    ensures secret.None? ==> r.Err?
    ensures secret.Some? ==> r == Ok(Code(mac, secret.value, unix))
  {
    hide And, BE, UnBE;
    if secret.None? {
      return Err("failed to decode shared secret");
    }
    var buffer: seq<byte> := [];
    buffer := buffer + BE(0, 4);
    var unsigned := TruncDiv(unix, 30) % 0x1_0000_0000;
    buffer := buffer + BE(unsigned, 4);
    assert buffer == Message(unix);

    var checksum: seq<byte> := mac(secret.value, buffer);
    LowNibble(checksum[|checksum| - 1]);
    var dynamicOffset := And(checksum[|checksum| - 1], 0x0F);
    // The guard against a short digest never holds for 20 bytes.
    assert !(dynamicOffset + 4 > |checksum|);
    var segment := UnBE(checksum[dynamicOffset..dynamicOffset + 4]);
    Mask31(segment);
    var binaryCode: nat := And(segment, 0x7fff_ffff);
    ghost var expected := Digits(binaryCode, CODE_LENGTH);
    assert expected == Code(mac, secret.value, unix);

    var code := new char[CODE_LENGTH];
    var i := 0;
    while i < CODE_LENGTH
      invariant 0 <= i <= CODE_LENGTH
      invariant forall k :: 0 <= k < i ==> code[k] == expected[k]
      invariant Digits(binaryCode, CODE_LENGTH - i) == expected[i..]
    {
      FirstDigit(binaryCode, CODE_LENGTH - i);
      code[i] := CHARSET[binaryCode % |CHARSET|];
      binaryCode := binaryCode / |CHARSET|;
      i := i + 1;
    }
    assert code[..] == expected;
    return Ok(code[..]);
  }

  lemma FirstDigit(v: nat, n: nat)
    requires n > 0
    ensures Digits(v, n)[0] == CHARSET[v % 26] && Digits(v, n)[1..] == Digits(v / 26, n - 1)
  {
  }

  lemma LowNibble(b: byte)
    ensures And(b, 0x0F) == b % 16
  {
    AndMask(b, 4);
    assert Pow(2, 4) == 16;
  }

  lemma Mask31(v: nat)
    ensures And(v, 0x7fff_ffff) == v % 0x8000_0000
  {
    AndMask(v, 31);
    assert Pow(2, 8) == 256;
    PowAdd(2, 8, 8);
    PowAdd(2, 16, 8);
    PowAdd(2, 24, 7);
    assert Pow(2, 7) == 128;
  }

  // ---- time ----

  /** Within 2^32 steps the message is the eight-byte big-endian count of 30-second steps,
      the moving factor of section 4.2 of RFC 6238. */
  lemma MessageIsCounter(unix: int)
    requires 0 <= unix < 30 * 0x1_0000_0000
    ensures Message(unix) == BE(unix / 30, 8)
  {
    hide BE, Pow;
    Widths();
    SmallMod(unix / 30, 0x1_0000_0000);
    BEZeros(unix / 30, 4, 4);
  }

  /** Two times give the same message exactly when their steps agree modulo 2^32. */
  lemma MessageSteps(t: int, u: int)
    ensures Message(t) == Message(u) <==> TruncDiv(t, 30) % 0x1_0000_0000 == TruncDiv(u, 30) % 0x1_0000_0000
  {
    hide BE, UnBE, Pow, TimeStep;
    Widths();
    UnBEofBE(TimeStep(t), 4);
    UnBEofBE(TimeStep(u), 4);
    StepBound(t);
    StepBound(u);
    assert Message(t)[4..] == BE(TimeStep(t), 4);
    assert Message(u)[4..] == BE(TimeStep(u), 4);
  }

  lemma StepBound(t: int)
    ensures TimeStep(t) == TruncDiv(t, 30) % 0x1_0000_0000
    ensures TimeStep(t) % 0x1_0000_0000 == TimeStep(t)
  {
    SmallMod(TimeStep(t), 0x1_0000_0000);
  }

  /** The code depends on the time only through its 30-second step. */
  lemma CodePerStep(mac: Hmac, secret: seq<byte>, t: nat, u: nat)
    requires t / 30 == u / 30
    ensures Code(mac, secret, t) == Code(mac, secret, u)
  {
  }

  // ---- digits ----

  lemma CharsetDistinct(i: nat, j: nat)
    requires i < 26 && j < 26
    ensures CHARSET[i] == CHARSET[j] <==> i == j
  {
  }

  /** Two numbers have the same n digits exactly when they agree modulo 26^n. */
  lemma {:induction false} DigitsAgree(v: nat, w: nat, n: nat)
    ensures Digits(v, n) == Digits(w, n) <==> v % Pow(26, n) == w % Pow(26, n)
  {
    hide Digits;
    if n == 0 {
      assert v % 1 == 0 && w % 1 == 0;
      assert Digits(v, 0) == Digits(w, 0);
    } else {
      var p := Pow(26, n - 1);
      DigitsAgree(v / 26, w / 26, n - 1);
      DivDiv(v, 26, p);
      DivDiv(w, 26, p);
      UniqueDigit(v % 26, v / 26 % p, w % 26, w / 26 % p);
      SameDigits(v, w, n);
    }
  }

  lemma SameDigits(v: nat, w: nat, n: nat)
    requires n > 0
    ensures Digits(v, n) == Digits(w, n) <==> v % 26 == w % 26 && Digits(v / 26, n - 1) == Digits(w / 26, n - 1)
  {
    FirstDigit(v, n);
    FirstDigit(w, n);
    CharsetDistinct(v % 26, w % 26);
    assert Digits(v, n) == [CHARSET[v % 26]] + Digits(v / 26, n - 1);
    assert Digits(w, n) == [CHARSET[w % 26]] + Digits(w / 26, n - 1);
  }

  lemma UniqueDigit(a: nat, x: nat, b: nat, y: nat)
    requires a < 26 && b < 26
    ensures a + 26 * x == b + 26 * y <==> a == b && x == y
  {
  }

  /** A number of four bytes, the highest first. */
  function BigEndian(a: nat, b: nat, c: nat, d: nat): nat {
    0x100_0000 * a + 0x1_0000 * b + 0x100 * c + d
  }

  /** Dynamic truncation by bytes: the low four bits of the last byte say where to take four bytes, of which the sign
      bit is dropped. */
  lemma TruncateValue(d: Digest)
    ensures var o := d[19] % 16;
            Truncate(d) == BigEndian(d[o] % 128, d[o + 1], d[o + 2], d[o + 3])
  {
    var o := d[19] % 16;
    var s := d[o..o + 4];
    assert s[..3] == d[o..o + 3] && s[..3][..2] == d[o..o + 2] && s[..3][..2][..1] == d[o..o + 1];
    assert s[..3][..2][..1][..0] == [];
    FourBytes(s);
    var low := BigEndian(d[o] % 128, d[o + 1], d[o + 2], d[o + 3]);
    DivModUnique(UnBE(s), 0x8000_0000, d[o] / 128, low);
  }

  lemma FourBytes(s: seq<byte>)
    requires |s| == 4
    ensures UnBE(s) == BigEndian(s[0], s[1], s[2], s[3])
  {
    UnBEAppend([], s[0]);
    UnBEAppend([s[0]], s[1]);
    UnBEAppend([s[0], s[1]], s[2]);
    UnBEAppend([s[0], s[1], s[2]], s[3]);
    assert [] + [s[0]] == [s[0]] && [s[0]] + [s[1]] == [s[0], s[1]];
    assert [s[0], s[1]] + [s[2]] == [s[0], s[1], s[2]] && [s[0], s[1], s[2]] + [s[3]] == s;
  }

  /** The i-th character shows the digit of weight 26^i. */
  lemma {:induction false} DigitAt(v: nat, n: nat, i: nat)
    requires i < n
    ensures Digits(v, n)[i] == "23456789BCDFGHJKMNPQRTVWXY"[v / Pow(26, i) % 26]
  {
    if i == 0 {
      assert v / 1 == v;
    } else {
      DigitAt(v / 26, n - 1, i - 1);
      DivDiv(v, 26, Pow(26, i - 1));
    }
  }

  /** The five characters of a code, from the digest of the time step. */
  lemma CodeCharacters(mac: Hmac, secret: seq<byte>, unix: int, i: nat)
    requires 0 <= unix < 30 * 0x1_0000_0000 && i < 5
    ensures var d := mac(secret, BE(unix / 30, 8));
            var o := d[19] % 16;
            var v := BigEndian(d[o] % 128, d[o + 1], d[o + 2], d[o + 3]);
            && |Code(mac, secret, unix)| == 5
            && Code(mac, secret, unix)[i] == "23456789BCDFGHJKMNPQRTVWXY"[v / Pow(26, i) % 26]
  {
    hide BE, Truncate, Pow, Message;
    MessageIsCounter(unix);
    TruncateValue(mac(secret, BE(unix / 30, 8)));
    DigitAt(Truncate(mac(secret, Message(unix))), 5, i);
  }

  /** Two truncated digests are shown as the same code exactly when they agree modulo 26^5. */
  lemma CodeCollisions(d: Digest, e: Digest)
    ensures Digits(Truncate(d), CODE_LENGTH) == Digits(Truncate(e), CODE_LENGTH) <==>
            Truncate(d) % CODES == Truncate(e) % CODES
  {
    assert Pow(26, 2) == 676;
    PowAdd(26, 2, 2);
    PowAdd(26, 4, 1);
    assert Pow(26, 1) == 26;
    DigitsAgree(Truncate(d), Truncate(e), CODE_LENGTH);
  }
}
