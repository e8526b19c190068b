// Serial-download helpers (imx/sdp/misc.py): `atos` renders bytes as text and
// `crc16` computes the CCITT (polynomial 0x1021) checksum on an unbounded integer.
module SdpMisc {
  import opened Base

  // ---------------------------------------------------------------------------
  // atos
  // ---------------------------------------------------------------------------

  /** The `fmt` specifications covered: `'02X'` (the default) and `'c'`. */
  datatype Fmt = Hex02 | Char

  const HEX_DIGITS: string := "0123456789ABCDEF"

  /** `'{:02X}'.format(x)`: two upper-case hexadecimal digits. */
  function Hex2(x: byte): (s: string)
    ensures |s| == 2
  {
    [HEX_DIGITS[x / 16], HEX_DIGITS[x % 16]]
  }

  /** The value of an upper-case hexadecimal digit (0 for any other character). */
  function DigitValue(ch: char): (v: nat)
    ensures v < 16
  {
    if '0' <= ch <= '9' then ch as int - '0' as int
    else if 'A' <= ch <= 'F' then ch as int - 'A' as int + 10
    else 0
  }

  /** The text one byte contributes before the separator. */
  function Glyph(x: byte, fmt: Fmt): string
  {
    match fmt
    case Hex02 => Hex2(x)
    case Char => if 0x00 < x < 0x7F then [x as char] else "."
  }

  /** The width of one glyph. */
  function Width(fmt: Fmt): nat
  {
    match fmt
    case Hex02 => 2
    case Char => 1
  }

  /** What one byte contributes: its glyph, then the separator. */
  function Item(x: byte, sep: string, fmt: Fmt): string
  {
    Glyph(x, fmt) + sep
  }

  /** The text of `atos(data, sep, fmt)`: the items of the bytes in order. */
  function Formatted(data: bytes, sep: string, fmt: Fmt): string
  {
    if |data| == 0 then ""
    else Formatted(data[..|data| - 1], sep, fmt) + Item(data[|data| - 1], sep, fmt)
  }

  /** `atos`: a loop that appends each byte's glyph and the separator. */
  method Atos(data: bytes, sep: string, fmt: Fmt) returns (ret: string)
    ensures ret == Formatted(data, sep, fmt)
  {
    ret := "";
    var i := 0;
    while i < |data|
      invariant 0 <= i <= |data|
      invariant ret == Formatted(data[..i], sep, fmt)
    {
      var x := data[i];
      if fmt == Char {
        if 0x00 < x < 0x7F {
          ret := ret + [x as char];
        } else {
          ret := ret + ".";
        }
      } else {
        ret := ret + Hex2(x);
      }
      ret := ret + sep;
      assert data[..i + 1][..i] == data[..i];
      assert ret == Formatted(data[..i], sep, fmt) + Item(x, sep, fmt);
      i := i + 1;
    }
    assert data[..i] == data;
  }

  /** Each byte takes a glyph of fixed width plus the separator. */
  lemma {:induction false} FormattedLength(data: bytes, sep: string, fmt: Fmt)
    ensures |Formatted(data, sep, fmt)| == Stride(Width(fmt) + |sep|, |data|)
  {
    if |data| > 0 {
      FormattedLength(data[..|data| - 1], sep, fmt);
    }
  }

  /** Byte `i` is rendered at `i` strides, followed by the separator. */
  lemma {:induction false} FormattedAt(data: bytes, sep: string, fmt: Fmt, i: nat)
    requires i < |data|
    ensures var w := Width(fmt) + |sep|;
      Stride(w, i + 1) <= |Formatted(data, sep, fmt)| &&
      Formatted(data, sep, fmt)[Stride(w, i)..Stride(w, i + 1)] == Item(data[i], sep, fmt)
  {
    var w := Width(fmt) + |sep|;
    var n := |data|;
    var front := data[..n - 1];
    FormattedLength(front, sep, fmt);
    var f := Formatted(front, sep, fmt);
    var tail := Item(data[n - 1], sep, fmt);
    if i == n - 1 {
      assert (f + tail)[|f|..] == tail;
    } else {
      FormattedAt(front, sep, fmt, i);
      assert front[i] == data[i];
      StrideMono(w, i + 1, n - 1);
      SliceOfPrefix(f, tail, Stride(w, i), Stride(w, i + 1));
    }
  }

  lemma {:induction false} SliceOfPrefix<T>(f: seq<T>, t: seq<T>, lo: nat, hi: nat)
    requires lo <= hi <= |f|
    ensures (f + t)[lo..hi] == f[lo..hi]
  {
  }

  lemma {:induction false} StrideMono(z: nat, i: nat, j: nat)
    requires i <= j
    ensures Stride(z, i) <= Stride(z, j)
  {
    if i < j {
      StrideMono(z, i, j - 1);
    }
  }

  /** With the default arguments `atos` yields three characters per byte. */
  lemma {:induction false} AtosDefaultLength(data: bytes)
    ensures |Formatted(data, " ", Hex02)| == 3 * |data|
  {
    FormattedLength(data, " ", Hex02);
    StrideIsProduct(3, |data|);
  }

  /** With fmt `'c'` and no separator, printable ASCII bytes appear as themselves and every other byte as a dot. */
  lemma {:induction false} AtosCharAt(data: bytes, i: nat)
    requires i < |data|
    ensures |Formatted(data, "", Char)| == |data|
    ensures Formatted(data, "", Char)[i] == if 0x00 < data[i] < 0x7F then data[i] as char else '.'
  {
    FormattedLength(data, "", Char);
    FormattedAt(data, "", Char, i);
    StrideIsProduct(1, |data|);
    StrideIsProduct(1, i);
    StrideIsProduct(1, i + 1);
    assert Item(data[i], "", Char) == Glyph(data[i], Char);
  }

  /** Reading a default hex dump back: every three characters give one byte. */
  function Unhex(s: string): bytes
    decreases |s|
  {
    if |s| < 3 then []
    else Unhex(s[..|s| - 3]) + [DigitValue(s[|s| - 3]) * 16 + DigitValue(s[|s| - 2])]
  }

  /** Each digit reads back as its own value. */
  lemma {:induction false} DigitsReadBack()
    ensures forall d :: 0 <= d < 16 ==> DigitValue(HEX_DIGITS[d]) == d
  {
  }

  lemma {:induction false} Hex2Digits(x: byte)
    ensures DigitValue(Hex2(x)[0]) * 16 + DigitValue(Hex2(x)[1]) == x
  {
    DigitsReadBack();
    assert DigitValue(HEX_DIGITS[x / 16]) == x / 16;
    assert DigitValue(HEX_DIGITS[x % 16]) == x % 16;
  }

  lemma {:induction false} UnhexSnoc(f: string, t: string)
    requires |t| == 3
    ensures Unhex(f + t) == Unhex(f) + [DigitValue(t[0]) * 16 + DigitValue(t[1])]
  {
    var s := f + t;
    assert s[..|s| - 3] == f;
  }

  /** Reading back the item of one byte yields that byte. */
  lemma {:induction false} UnhexItem(f: string, x: byte)
    ensures Unhex(f + Item(x, " ", Hex02)) == Unhex(f) + [x]
  {
    UnhexSnoc(f, Item(x, " ", Hex02));
    Hex2Digits(x);
  }

  /** The default hex dump loses nothing: reading it back gives the bytes. */
  lemma {:induction false} UnhexAtos(data: bytes)
    ensures Unhex(Formatted(data, " ", Hex02)) == data
  {
    if |data| > 0 {
      var n := |data|;
      var front, x := data[..n - 1], data[n - 1];
      UnhexItem(Formatted(front, " ", Hex02), x);
      UnhexAtos(front);
      assert data == front + [x];
    }
  }

  // ---------------------------------------------------------------------------
  // crc16
  // ---------------------------------------------------------------------------

  /** Python's `^` on non-negative integers, bit by bit. */
  function Xor(a: nat, b: nat): nat
    decreases a + b
  {
    if a == 0 then b
    else if b == 0 then a
    else 2 * Xor(a / 2, b / 2) + (a + b) % 2
  }

  function Pow2(k: nat): (p: nat)
    ensures p >= 1
  {
    if k == 0 then 1 else 2 * Pow2(k - 1)
  }

  /** `crc & 0x8000`: bit 15. */
  predicate Bit15(crc: nat)
  {
    (crc / 0x8000) % 2 == 1
  }

  /** One inner-loop round: shift left, and fold in the polynomial when bit 15 was set. */
  function Shift(crc: nat): nat
  {
    if Bit15(crc) then Xor(2 * crc, 0x1021) else 2 * crc
  }

  function Shifts(crc: nat, k: nat): nat
  {
    if k == 0 then crc else Shift(Shifts(crc, k - 1))
  }

  /** The inner loop's round count. */
  const ROUNDS: nat := 8

  /** One outer-loop step: the byte is XORed into bits 8..15, then eight rounds follow. */
  function Feed(crc: nat, c: byte): nat
  {
    Shifts(Xor(crc, (c as nat) * 256), ROUNDS)
  }

  /** The value of `crc16(data, crc_init)`: a left fold of Feed over the bytes. */
  function Crc(data: bytes, init: nat): nat
  {
    if |data| == 0 then init else Feed(Crc(data[..|data| - 1], init), data[|data| - 1])
  }

  /** `crc16`: the nested loops of the source, never masking the register. */
  method Crc16(data: bytes, init: nat) returns (crc: nat)
    ensures crc == Crc(data, init)
  {
    crc := init;
    var i := 0;
    while i < |data|
      invariant 0 <= i <= |data|
      invariant crc == Crc(data[..i], init)
    {
      var c := data[i];
      crc := Xor(crc, (c as nat) * 256);
      ghost var start := crc;
      var j := 0;
      while j < ROUNDS
        invariant 0 <= j <= ROUNDS
        invariant crc == Shifts(start, j)
      {
        var temp := 2 * crc;
        if (crc / 0x8000) % 2 == 1 {
          temp := Xor(temp, 0x1021);
        }
        crc := temp;
        j := j + 1;
      }
      assert data[..i + 1][..i] == data[..i];
      i := i + 1;
    }
    assert data[..i] == data;
  }

  /** The checksum of nothing is the initial value, and the checksum continues across a split. */
  lemma {:induction false} CrcConcat(a: bytes, b: bytes, init: nat)
    ensures Crc([], init) == init
    ensures Crc(a + b, init) == Crc(b, Crc(a, init))
  {
    if |b| == 0 {
      assert a + b == a;
    } else {
      var n := |b|;
      CrcConcat(a, b[..n - 1], init);
      assert (a + b)[..|a + b| - 1] == a + b[..n - 1];
    }
  }

  // The register the source never masks: its low 16 bits follow a 16-bit CRC.

  const M16: nat := 0x1_0000

  /** The same round on a 16-bit register: the shifted-out bit is dropped. */
  function Shift16(crc: nat): (r: nat)
    requires crc < M16
  {
    if Bit15(crc) then Xor((2 * crc) % M16, 0x1021) else (2 * crc) % M16
  }

  function Shifts16(crc: nat, k: nat): nat
    requires crc < M16
  {
    if k == 0 then crc else Shift16(Shifts16(crc, k - 1) % M16)
  }

  function Crc16Masked(data: bytes, init: nat): nat
    requires init < M16
  {
    if |data| == 0 then init
    else Shifts16(Xor(Crc16Masked(data[..|data| - 1], init) % M16, (data[|data| - 1] as nat) * 256) % M16, ROUNDS)
  }

  lemma {:induction false} XorSplit(a: nat, b: nat)
    ensures Xor(a, b) == 2 * Xor(a / 2, b / 2) + (a + b) % 2
  {
    if a == 0 {
      assert Xor(0, b / 2) == b / 2;
    } else if b == 0 {
      assert Xor(a / 2, 0) == a / 2;
    }
  }

  lemma {:induction false} MulAtLeast(d: nat, k: nat)
    requires k >= 1
    ensures d * k >= d
  {
    if k > 1 {
      MulAtLeast(d, k - 1);
      assert d * k == d * (k - 1) + d;
    }
  }

  /** Quotient and remainder are the only such pair. */
  lemma {:induction false} DivModUnique(a: nat, d: nat, q: nat, r: nat)
    requires d > 0 && a == d * q + r && r < d
    ensures a / d == q && a % d == r
  {
    var q0, r0 := a / d, a % d;
    assert a == d * q0 + r0;
    if q0 < q {
      assert d * q == d * q0 + d * (q - q0);
      MulAtLeast(d, q - q0);
      assert false;
    } else if q < q0 {
      assert d * q0 == d * q + d * (q0 - q);
      MulAtLeast(d, q0 - q);
      assert false;
    }
  }

  /** Halving commutes with reduction modulo an even modulus `pp`. */
  lemma {:induction false} ModHalf(a: nat, p: nat, pp: nat)
    requires p > 0 && pp == 2 * p
    ensures (a % pp) / 2 == (a / 2) % p
    ensures (a % pp) % 2 == a % 2
  {
    var q, r := a / pp, a % pp;
    var pq := p * q;
    var half, bit := r / 2, r % 2;
    assert r == 2 * half + bit && half < p;
    assert a == 2 * pq + r by { assert pp * q == 2 * pq; }
    var h := pq + half;
    assert a == 2 * h + bit;
    DivModUnique(a, 2, h, bit);
    DivModUnique(h, p, q, half);
  }

  lemma {:induction false} ModDouble(x: nat, t: nat, p: nat, pp: nat)
    requires p > 0 && t < 2 && pp == 2 * p
    ensures (2 * x + t) % pp == 2 * (x % p) + t
  {
    var q, r := x / p, x % p;
    var pq := p * q;
    assert x == pq + r;
    assert pp * q == 2 * pq;
    DivModUnique(2 * x + t, pp, q, 2 * r + t);
  }

  /** Sums of numbers of the same parities have the same parity. */
  lemma {:induction false} ParitySum(a: nat, b: nat, c: nat, d: nat)
    requires a % 2 == c % 2 && b % 2 == d % 2
    ensures (a + b) % 2 == (c + d) % 2
  {
    var s := a % 2 + b % 2;
    assert a + b == 2 * (a / 2 + b / 2) + s && c + d == 2 * (c / 2 + d / 2) + s;
    if s < 2 {
      DivModUnique(a + b, 2, a / 2 + b / 2, s);
      DivModUnique(c + d, 2, c / 2 + d / 2, s);
    } else {
      DivModUnique(a + b, 2, a / 2 + b / 2 + 1, 0);
      DivModUnique(c + d, 2, c / 2 + d / 2 + 1, 0);
    }
  }

  /** The low `k` bits of an XOR are the XOR of the low `k` bits. */
  lemma {:induction false} XorMod(a: nat, b: nat, k: nat)
    ensures Xor(a, b) % Pow2(k) == Xor(a % Pow2(k), b % Pow2(k))
  {
    if k == 0 {
      assert Xor(0, 0) == 0;
    } else {
      var p, pp := Pow2(k - 1), Pow2(k);
      XorMod(a / 2, b / 2, k - 1);
      ModHalf(a, p, pp);
      ModHalf(b, p, pp);
      var a', b' := a % pp, b % pp;
      XorSplit(a', b');
      XorSplit(a, b);
      ParitySum(a', b', a, b);
      ModDouble(Xor(a / 2, b / 2), (a + b) % 2, p, pp);
    }
  }

  lemma {:induction false} XorBound(a: nat, b: nat, k: nat)
    requires a < Pow2(k) && b < Pow2(k)
    ensures Xor(a, b) < Pow2(k)
  {
    XorMod(a, b, k);
    DivModUnique(a, Pow2(k), 0, a);
    DivModUnique(b, Pow2(k), 0, b);
  }

  lemma {:induction false} Pow16()
    ensures Pow2(16) == M16
  {
    assert Pow2(0) == 1;
    assert Pow2(1) == 2;
    assert Pow2(2) == 4;
    assert Pow2(3) == 8;
    assert Pow2(4) == 16;
    assert Pow2(5) == 32;
    assert Pow2(6) == 64;
    assert Pow2(7) == 128;
    assert Pow2(8) == 256;
    assert Pow2(9) == 512;
    assert Pow2(10) == 1024;
    assert Pow2(11) == 2048;
    assert Pow2(12) == 4096;
    assert Pow2(13) == 8192;
    assert Pow2(14) == 16384;
    assert Pow2(15) == 32768;
  }

  lemma {:induction false} Bit15Low(crc: nat)
    ensures Bit15(crc) == Bit15(crc % M16)
  {
    var q, r := crc / M16, crc % M16;
    assert crc == M16 * q + r;
    DivModUnique(crc, 0x8000, 2 * q + r / 0x8000, r % 0x8000);
  }

  /** Doubling before or after reduction modulo 2^16 agrees. */
  lemma {:induction false} DoubleLow(crc: nat)
    ensures (2 * crc) % M16 == (2 * (crc % M16)) % M16
  {
    var q, r := crc / M16, crc % M16;
    assert crc == M16 * q + r;
    var s := 2 * r;
    DivModUnique(2 * crc, M16, 2 * q + s / M16, s % M16);
  }

  lemma {:induction false} ShiftLow(crc: nat)
    ensures Shift(crc) % M16 == Shift16(crc % M16)
  {
    Bit15Low(crc);
    Pow16();
    DoubleLow(crc);
    if Bit15(crc) {
      XorMod(2 * crc, 0x1021, 16);
    }
  }

  lemma {:induction false} ShiftsLow(crc: nat, k: nat)
    ensures Shifts(crc, k) % M16 == Shifts16(crc % M16, k)
  {
    if k > 0 {
      ShiftsLow(crc, k - 1);
      ShiftLow(Shifts(crc, k - 1));
      assert Shifts16(crc % M16, k - 1) % M16 == Shifts16(crc % M16, k - 1);
    }
  }

  lemma {:induction false} Shifts16Bound(crc: nat, k: nat)
    requires crc < M16
    ensures Shifts16(crc, k) < M16
  {
    if k > 0 {
      var prev := Shifts16(crc, k - 1) % M16;
      Pow16();
      if Bit15(prev) {
        XorBound((2 * prev) % M16, 0x1021, 16);
      }
    }
  }

  /** One outer-loop step seen through the low 16 bits. */
  lemma {:induction false} FeedLow(crc: nat, c: byte)
    ensures Feed(crc, c) % M16 == Shifts16(Xor(crc % M16, (c as nat) * 256) % M16, ROUNDS)
  {
    var h: nat := (c as nat) * 256;
    var x := Xor(crc, h);
    var lo := crc % M16;
    ShiftsLow(x, ROUNDS);
    assert x % M16 == Xor(lo, h) && Xor(lo, h) % M16 == Xor(lo, h) by {
      Pow16();
      XorMod(crc, h, 16);
      XorBound(lo, h, 16);
      DivModUnique(h, M16, 0, h);
      DivModUnique(Xor(lo, h), M16, 0, Xor(lo, h));
    }
  }

  /** The unmasked register's low 16 bits are the checksum of a 16-bit register. */
  lemma {:induction false} CrcLow16(data: bytes, init: nat)
    ensures Crc(data, init) % M16 == Crc16Masked(data, init % M16)
  {
    if |data| > 0 {
      var n := |data|;
      var front, c := data[..n - 1], data[n - 1];
      var prev := Crc(front, init);
      var low := Crc16Masked(front, init % M16);
      CrcLow16(front, init);
      FeedLow(prev, c);
      assert low % M16 == low by {
        DivModUnique(low, M16, 0, low);
      }
      assert Crc(data, init) == Feed(prev, c);
      assert Crc16Masked(data, init % M16) == Shifts16(Xor(low % M16, (c as nat) * 256) % M16, ROUNDS);
    }
  }

  /** The 16-bit register stays within 16 bits. */
  lemma {:induction false} Crc16MaskedBound(data: bytes, init: nat)
    requires init < M16
    ensures Crc16Masked(data, init) < M16
  {
    if |data| > 0 {
      var prev := Crc16Masked(data[..|data| - 1], init);
      Shifts16Bound(Xor(prev % M16, (data[|data| - 1] as nat) * 256) % M16, ROUNDS);
    }
  }
}
