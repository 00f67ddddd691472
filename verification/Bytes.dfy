/** Bytes and the fixed-width integers of the encoding/binary package. */
module Bytes {
  import opened Words

  type byte = b: int | 0 <= b < 256

  /** The n low bytes of v, least significant first: what binary.Write puts out in little-endian order.
      Taking only the n low bytes is the truncation Go's fixed-width conversions make. */
  function LE(v: nat, n: nat): (s: seq<byte>)
    ensures |s| == n
  {
    if n == 0 then [] else [v % 256] + LE(v / 256, n - 1)
  }

  /** Byte i holds the digit of weight 256^i. */
  lemma {:induction false} LEByte(v: nat, n: nat, i: nat)
    requires i < n
    ensures LE(v, n)[i] == v / Pow(256, i) % 256
  {
    if i == 0 {
      assert v / 1 == v;
    } else {
      LEByte(v / 256, n - 1, i - 1);
      DivDiv(v, 256, Pow(256, i - 1));
    }
  }

  /** The number that binary.Read finds in the bytes s. */
  function UnLE(s: seq<byte>): nat {
    if s == [] then 0 else s[0] + 256 * UnLE(s[1..])
  }

  /** Big-endian bytes are the little-endian ones in reverse order. */
  function BE(v: nat, n: nat): (s: seq<byte>)
    ensures |s| == n
  {
    if n == 0 then [] else BE(v / 256, n - 1) + [v % 256]
  }

  /** The first byte holds the digit of the highest weight. */
  lemma {:induction false} BEByte(v: nat, n: nat, i: nat)
    requires i < n
    ensures BE(v, n)[n - 1 - i] == v / Pow(256, i) % 256
  {
    if i == 0 {
      assert v / 1 == v;
    } else {
      BEByte(v / 256, n - 1, i - 1);
      DivDiv(v, 256, Pow(256, i - 1));
    }
  }

  function UnBE(s: seq<byte>): nat {
    if s == [] then 0 else 256 * UnBE(s[..|s| - 1]) + s[|s| - 1]
  }

  lemma Widths()
    ensures Pow(256, 1) == 0x100
    ensures Pow(256, 2) == 0x1_0000
    ensures Pow(256, 4) == 0x1_0000_0000
    ensures Pow(256, 5) == 0x100_0000_0000
    ensures Pow(256, 8) == 0x1_0000_0000_0000_0000
  {
    assert Pow(256, 2) == 256 * Pow(256, 1);
    assert Pow(256, 3) == 256 * Pow(256, 2);
    assert Pow(256, 4) == 256 * Pow(256, 3);
    assert Pow(256, 5) == 256 * Pow(256, 4);
    assert Pow(256, 6) == 256 * Pow(256, 5);
    assert Pow(256, 7) == 256 * Pow(256, 6);
  }

  /** Writing a number in n bytes and reading it back gives it modulo 256^n. */
  lemma {:induction false} ReadWritten(v: nat, n: nat)
    ensures UnLE(LE(v, n)) == v % Pow(256, n)
  {
    if n == 0 {
      assert v % 1 == 0;
    } else {
      ReadWritten(v / 256, n - 1);
      assert LE(v, n)[1..] == LE(v / 256, n - 1);
      DivDiv(v, 256, Pow(256, n - 1));
    }
  }

  /** Any n bytes are the n-byte form of the number they hold. */
  lemma {:induction false} WriteRead(s: seq<byte>)
    ensures LE(UnLE(s), |s|) == s && UnLE(s) < Pow(256, |s|)
  {
    if s != [] {
      WriteRead(s[1..]);
      DivModUnique(UnLE(s), 256, UnLE(s[1..]), s[0]);
    }
  }

  lemma {:induction false} UnLEConcat(a: seq<byte>, b: seq<byte>)
    ensures UnLE(a + b) == UnLE(a) + Pow(256, |a|) * UnLE(b)
  {
    if a == [] {
      assert a + b == b;
    } else {
      UnLEConcat(a[1..], b);
      assert (a + b)[1..] == a[1..] + b;
      var p := Pow(256, |a| - 1);
      assert 256 * (p * UnLE(b)) == (256 * p) * UnLE(b);
    }
  }

  /** Cutting an n-byte number after m bytes leaves the remainder and the quotient by 256^m. */
  lemma {:induction false} LESplit(v: nat, m: nat, n: nat)
    requires m <= n
    ensures LE(v, n) == LE(v, m) + LE(v / Pow(256, m), n - m)
  {
    if m > 0 {
      LESplit(v / 256, m - 1, n - 1);
      DivDiv(v, 256, Pow(256, m - 1));
    } else {
      assert v / 1 == v;
    }
  }

  lemma {:induction false} UnBEofBE(v: nat, n: nat)
    ensures UnBE(BE(v, n)) == v % Pow(256, n)
  {
    if n == 0 {
      assert v % 1 == 0;
    } else {
      hide UnBE;
      UnBEofBE(v / 256, n - 1);
      UnBEAppend(BE(v / 256, n - 1), v % 256);
      DivDiv(v, 256, Pow(256, n - 1));
    }
  }

  lemma UnBEAppend(s: seq<byte>, b: byte)
    ensures UnBE(s + [b]) == 256 * UnBE(s) + b
  {
    assert (s + [b])[..|s|] == s;
  }

  /** A wide big-endian number that fits in m bytes starts with zeros. */
  lemma {:induction false} BEZeros(v: nat, m: nat, n: nat)
    requires v < Pow(256, m)
    ensures BE(v, n + m) == BE(0, n) + BE(v, m)
  {
    if m == 0 {
      assert v == 0;
    } else {
      assert v / 256 < Pow(256, m - 1);
      BEZeros(v / 256, m - 1, n);
    }
  }
}
