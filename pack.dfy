// The fixed-width integer fields of Python's `struct` formats: `>H`, `>L`, `>Q`
// (big endian, used by headers and commands) and `<H`, `<L`, `<Q` (little endian,
// used by the boot image segments), with their round trips.
module Pack {
  import opened Base

  type u16 = x: int | 0 <= x < 0x1_0000
  type u32 = x: int | 0 <= x < 0x1_0000_0000
  type u64 = x: int | 0 <= x < 0x1_0000_0000_0000_0000

  function Pow256(n: nat): (p: nat)
    ensures p >= 1
  {
    if n == 0 then 1 else 256 * Pow256(n - 1)
  }

  /** The field widths the struct formats use. */
  lemma {:induction false} Pow256Values()
    ensures Pow256(1) == 0x100 && Pow256(2) == 0x1_0000
    ensures Pow256(4) == 0x1_0000_0000 && Pow256(8) == 0x1_0000_0000_0000_0000
  {
    assert Pow256(3) == 0x100_0000;
    assert Pow256(5) == 0x100_0000_0000;
    assert Pow256(6) == 0x1_0000_0000_0000;
    assert Pow256(7) == 0x100_0000_0000_0000;
  }

  /** A value that `struct.pack` accepts for an unsigned field of `n` bytes. */
  predicate Fits(x: int, n: nat)
  {
    0 <= x < Pow256(n)
  }

  /** Little-endian encoding of `x` on `n` bytes. */
  function LE(x: nat, n: nat): (r: bytes)
    requires x < Pow256(n)
    ensures |r| == n
  {
    if n == 0 then [] else [x % 256] + LE(x / 256, n - 1)
  }

  /** The unsigned integer a little-endian byte string denotes. */
  function FromLE(s: bytes): nat
  {
    if |s| == 0 then 0 else s[0] + 256 * FromLE(s[1..])
  }

  /** Big-endian encoding of `x` on `n` bytes. */
  function BE(x: nat, n: nat): (r: bytes)
    requires x < Pow256(n)
    ensures |r| == n
  {
    if n == 0 then [] else BE(x / 256, n - 1) + [x % 256]
  }

  /** The unsigned integer a big-endian byte string denotes. */
  function FromBE(s: bytes): nat
  {
    if |s| == 0 then 0 else 256 * FromBE(s[..|s| - 1]) + s[|s| - 1]
  }

  lemma {:induction false} FromLEBound(s: bytes)
    ensures FromLE(s) < Pow256(|s|)
  {
    if |s| > 0 {
      FromLEBound(s[1..]);
    }
  }

  lemma {:induction false} FromBEBound(s: bytes)
    ensures FromBE(s) < Pow256(|s|)
  {
    if |s| > 0 {
      FromBEBound(s[..|s| - 1]);
    }
  }

  /** Decoding an encoding gives the value back. */
  lemma {:induction false} FromLEOfLE(x: nat, n: nat)
    requires x < Pow256(n)
    ensures FromLE(LE(x, n)) == x
  {
    if n > 0 {
      FromLEOfLE(x / 256, n - 1);
      assert LE(x, n)[1..] == LE(x / 256, n - 1);
    }
  }

  /** Encoding a decoded string gives the string back. */
  lemma {:induction false} LEOfFromLE(s: bytes)
    ensures FromLE(s) < Pow256(|s|)
    ensures LE(FromLE(s), |s|) == s
  {
    FromLEBound(s);
    if |s| > 0 {
      LEOfFromLE(s[1..]);
      assert FromLE(s) % 256 == s[0];
      assert FromLE(s) / 256 == FromLE(s[1..]);
    }
  }

  lemma {:induction false} FromBEOfBE(x: nat, n: nat)
    requires x < Pow256(n)
    ensures FromBE(BE(x, n)) == x
  {
    if n > 0 {
      FromBEOfBE(x / 256, n - 1);
      assert BE(x, n)[..n - 1] == BE(x / 256, n - 1);
    }
  }

  lemma {:induction false} BEOfFromBE(s: bytes)
    ensures FromBE(s) < Pow256(|s|)
    ensures BE(FromBE(s), |s|) == s
  {
    FromBEBound(s);
    if |s| > 0 {
      BEOfFromBE(s[..|s| - 1]);
      assert FromBE(s) % 256 == s[|s| - 1];
      assert FromBE(s) / 256 == FromBE(s[..|s| - 1]);
      assert s == s[..|s| - 1] + [s[|s| - 1]];
    }
  }

  /** `struct.unpack_from` of an `n`-byte little-endian field at `at`; a short buffer raises. */
  function UnpackLE(s: bytes, at: nat, n: nat): (r: Result<nat>)
    ensures r.Success? <==> at + n <= |s|
    ensures r.Success? ==> r.value < Pow256(n)
  {
    if at + n <= |s| then
      FromLEBound(s[at..at + n]);
      Success(FromLE(s[at..at + n]))
    else
      Failure(StructErr)
  }

  /** `struct.unpack_from` of an `n`-byte big-endian field at `at`; a short buffer raises. */
  function UnpackBE(s: bytes, at: nat, n: nat): (r: Result<nat>)
    ensures r.Success? <==> at + n <= |s|
    ensures r.Success? ==> r.value < Pow256(n)
  {
    if at + n <= |s| then
      FromBEBound(s[at..at + n]);
      Success(FromBE(s[at..at + n]))
    else
      Failure(StructErr)
  }

  /** `struct.pack` of an `n`-byte little-endian field; a value out of range raises. */
  function PackLE(x: int, n: nat): (r: Result<bytes>)
    ensures r.Success? <==> Fits(x, n)
    ensures r.Success? ==> |r.value| == n && FromLE(r.value) == x
  {
    if Fits(x, n) then
      FromLEOfLE(x, n);
      Success(LE(x, n))
    else
      Failure(StructErr)
  }

  /** `struct.pack` of an `n`-byte big-endian field; a value out of range raises. */
  function PackBE(x: int, n: nat): (r: Result<bytes>)
    ensures r.Success? <==> Fits(x, n)
    ensures r.Success? ==> |r.value| == n && FromBE(r.value) == x
  {
    if Fits(x, n) then
      FromBEOfBE(x, n);
      Success(BE(x, n))
    else
      Failure(StructErr)
  }

  /** Unpacking what was packed, at any position of a larger buffer, gives the value back. */
  lemma {:induction false} UnpackPackLE(x: int, n: nat, pre: bytes, post: bytes)
    requires Fits(x, n)
    ensures PackLE(x, n).Success?
    ensures UnpackLE(pre + PackLE(x, n).value + post, |pre|, n) == Success(x)
  {
    var s := pre + PackLE(x, n).value + post;
    assert s[|pre|..|pre| + n] == LE(x, n);
  }

  lemma {:induction false} UnpackPackBE(x: int, n: nat, pre: bytes, post: bytes)
    requires Fits(x, n)
    ensures PackBE(x, n).Success?
    ensures UnpackBE(pre + PackBE(x, n).value + post, |pre|, n) == Success(x)
  {
    var s := pre + PackBE(x, n).value + post;
    assert s[|pre|..|pre| + n] == BE(x, n);
  }

  /** Packing what was unpacked gives the bytes back. */
  lemma {:induction false} PackUnpackLE(s: bytes, at: nat, n: nat)
    requires at + n <= |s|
    ensures PackLE(UnpackLE(s, at, n).value, n) == Success(s[at..at + n])
  {
    LEOfFromLE(s[at..at + n]);
  }

  lemma {:induction false} PackUnpackBE(s: bytes, at: nat, n: nat)
    requires at + n <= |s|
    ensures PackBE(UnpackBE(s, at, n).value, n) == Success(s[at..at + n])
  {
    BEOfFromBE(s[at..at + n]);
  }

  /** A single byte (`B`) is its own encoding in either byte order. */
  lemma {:induction false} SingleByte(x: byte)
    ensures Pow256(1) == 256
    ensures LE(x, 1) == [x] && BE(x, 1) == [x]
    ensures FromLE([x]) == x && FromBE([x]) == x
  {
    assert [x][1..] == [];
    assert [x][..0] == [];
  }

  // Typed fields of the struct formats used by the codecs.

  function BE32(x: u32): (r: bytes)
    ensures |r| == 4
  {
    Pow256Values();
    BE(x, 4)
  }

  function BE64(x: u64): (r: bytes)
    ensures |r| == 8
  {
    Pow256Values();
    BE(x, 8)
  }

  function LE32(x: u32): (r: bytes)
    ensures |r| == 4
  {
    Pow256Values();
    LE(x, 4)
  }

  function LE64(x: u64): (r: bytes)
    ensures |r| == 8
  {
    Pow256Values();
    LE(x, 8)
  }

  /** `unpack_from(">L", s, at)`. */
  function UnpackBE32(s: bytes, at: nat): (r: Result<u32>)
    ensures r.Success? <==> at + 4 <= |s|
    ensures r.Failure? ==> r.error == StructErr
  {
    Pow256Values();
    var x :- UnpackBE(s, at, 4);
    Success(x)
  }

  /** `unpack_from(">Q", s, at)`. */
  function UnpackBE64(s: bytes, at: nat): (r: Result<u64>)
    ensures r.Success? <==> at + 8 <= |s|
    ensures r.Failure? ==> r.error == StructErr
  {
    Pow256Values();
    var x :- UnpackBE(s, at, 8);
    Success(x)
  }

  /** `unpack_from("<L", s, at)`. */
  function UnpackLE32(s: bytes, at: nat): (r: Result<u32>)
    ensures r.Success? <==> at + 4 <= |s|
    ensures r.Failure? ==> r.error == StructErr
  {
    Pow256Values();
    var x :- UnpackLE(s, at, 4);
    Success(x)
  }

  /** `unpack_from("<Q", s, at)`. */
  function UnpackLE64(s: bytes, at: nat): (r: Result<u64>)
    ensures r.Success? <==> at + 8 <= |s|
    ensures r.Failure? ==> r.error == StructErr
  {
    Pow256Values();
    var x :- UnpackLE(s, at, 8);
    Success(x)
  }

  /** Unpacking a field that holds an encoding gives the encoded value. */
  lemma {:induction false} UnpackBE32At(s: bytes, at: nat, x: u32)
    requires at + 4 <= |s| && s[at..at + 4] == BE32(x)
    ensures UnpackBE32(s, at) == Success(x)
  {
    Pow256Values();
    FromBEOfBE(x, 4);
  }

  lemma {:induction false} UnpackBE64At(s: bytes, at: nat, x: u64)
    requires at + 8 <= |s| && s[at..at + 8] == BE64(x)
    ensures UnpackBE64(s, at) == Success(x)
  {
    Pow256Values();
    FromBEOfBE(x, 8);
  }

  lemma {:induction false} UnpackLE32At(s: bytes, at: nat, x: u32)
    requires at + 4 <= |s| && s[at..at + 4] == LE32(x)
    ensures UnpackLE32(s, at) == Success(x)
  {
    Pow256Values();
    FromLEOfLE(x, 4);
  }

  lemma {:induction false} UnpackLE64At(s: bytes, at: nat, x: u64)
    requires at + 8 <= |s| && s[at..at + 8] == LE64(x)
    ensures UnpackLE64(s, at) == Success(x)
  {
    Pow256Values();
    FromLEOfLE(x, 8);
  }

  /** A field that unpacks holds the encoding of its value. */
  lemma {:induction false} UnpackBE32Bytes(s: bytes, at: nat)
    requires at + 4 <= |s|
    ensures BE32(UnpackBE32(s, at).value) == s[at..at + 4]
  {
    Pow256Values();
    BEOfFromBE(s[at..at + 4]);
  }

  lemma {:induction false} UnpackBE64Bytes(s: bytes, at: nat)
    requires at + 8 <= |s|
    ensures BE64(UnpackBE64(s, at).value) == s[at..at + 8]
  {
    Pow256Values();
    BEOfFromBE(s[at..at + 8]);
  }

  lemma {:induction false} UnpackLE32Bytes(s: bytes, at: nat)
    requires at + 4 <= |s|
    ensures LE32(UnpackLE32(s, at).value) == s[at..at + 4]
  {
    Pow256Values();
    LEOfFromLE(s[at..at + 4]);
  }

  lemma {:induction false} UnpackLE64Bytes(s: bytes, at: nat)
    requires at + 8 <= |s|
    ensures LE64(UnpackLE64(s, at).value) == s[at..at + 8]
  {
    Pow256Values();
    LEOfFromLE(s[at..at + 8]);
  }

  /** The typed encoders are the checked packers on values that fit. */
  lemma {:induction false} TypedPackers(x: int)
    ensures 0 <= x < 0x1_0000_0000 ==> PackBE(x, 4) == Success(BE32(x)) && PackLE(x, 4) == Success(LE32(x))
    ensures 0 <= x < 0x1_0000_0000_0000_0000 ==> PackBE(x, 8) == Success(BE64(x)) && PackLE(x, 8) == Success(LE64(x))
  {
    Pow256Values();
  }

  // Little-endian multi-field formats such as `<7L` or `<1L5Q`, given by their field widths.

  /** Bytes taken by a format. */
  function FmtSize(ws: seq<nat>): nat
  {
    if |ws| == 0 then 0 else FmtSize(ws[..|ws| - 1]) + ws[|ws| - 1]
  }

  lemma {:induction false} FmtSizeSnoc(ws: seq<nat>, w: nat)
    ensures FmtSize(ws + [w]) == FmtSize(ws) + w
  {
    assert (ws + [w])[..|ws|] == ws;
  }

  /** Every value fits the field of the same position. */
  predicate FieldsFit(xs: seq<int>, ws: seq<nat>)
  {
    |xs| == |ws| && forall i :: 0 <= i < |xs| ==> Fits(xs[i], ws[i])
  }

  /** `struct.pack("<...", *xs)`: raises struct.error unless every value fits its field. */
  function PackFmt(ws: seq<nat>, xs: seq<int>): (r: Result<bytes>)
    requires |ws| == |xs|
    ensures r.Success? <==> FieldsFit(xs, ws)
    ensures r.Failure? ==> r.error == StructErr
    ensures r.Success? ==> |r.value| == FmtSize(ws)
  {
    if |ws| == 0 then Success([])
    else
      var n := |ws|;
      var front := PackFmt(ws[..n - 1], xs[..n - 1]);
      assert front.Failure? ==> exists i :: 0 <= i < n - 1 && !Fits(xs[i], ws[i]) by {
        if front.Failure? {
          var j :| 0 <= j < n - 1 && !Fits(xs[..n - 1][j], ws[..n - 1][j]);
          assert !Fits(xs[j], ws[j]);
        }
      }
      var head :- front;
      var last :- PackLE(xs[n - 1], ws[n - 1]);
      Success(head + last)
  }

  /** `struct.unpack_from("<...", data, at)`: raises struct.error when the buffer is too short. */
  function UnpackFmt(ws: seq<nat>, data: bytes, at: nat): (r: Result<seq<nat>>)
    ensures r.Success? <==> at + FmtSize(ws) <= |data|
    ensures r.Failure? ==> r.error == StructErr
    ensures r.Success? ==> |r.value| == |ws|
  {
    if at + FmtSize(ws) > |data| then Failure(StructErr)
    else if |ws| == 0 then Success([])
    else
      var n := |ws|;
      var front := UnpackFmt(ws[..n - 1], data, at).value;
      var last := UnpackLE(data, at + FmtSize(ws[..n - 1]), ws[n - 1]).value;
      Success(front + [last])
  }

  /** Every unpacked value fits its field. */
  lemma {:induction false} UnpackFmtFits(ws: seq<nat>, data: bytes, at: nat)
    requires UnpackFmt(ws, data, at).Success?
    ensures FieldsFit(UnpackFmt(ws, data, at).value, ws)
  {
    if |ws| > 0 {
      var n := |ws|;
      var xs := UnpackFmt(ws, data, at).value;
      UnpackFmtFits(ws[..n - 1], data, at);
      assert xs[..n - 1] == UnpackFmt(ws[..n - 1], data, at).value;
    }
  }

  /** Unpacking a packed format, wherever it sits, gives the values back. */
  lemma {:induction false} UnpackFmtOfPackFmt(ws: seq<nat>, xs: seq<int>, data: bytes, at: nat)
    requires |ws| == |xs| && PackFmt(ws, xs).Success?
    requires at + FmtSize(ws) <= |data| && data[at..at + FmtSize(ws)] == PackFmt(ws, xs).value
    ensures UnpackFmt(ws, data, at) == Success(xs)
  {
    if |ws| > 0 {
      var n := |ws|;
      var front := PackFmt(ws[..n - 1], xs[..n - 1]).value;
      var last := PackLE(xs[n - 1], ws[n - 1]).value;
      SplitSlice(data, at, front, last);
      UnpackFmtOfPackFmt(ws[..n - 1], xs[..n - 1], data, at);
      FromLEOfLE(xs[n - 1], ws[n - 1]);
      assert xs == xs[..n - 1] + [xs[n - 1]];
    }
  }

  /** Packing unpacked values reproduces the bytes they came from. */
  lemma {:induction false} PackFmtOfUnpackFmt(ws: seq<nat>, data: bytes, at: nat)
    requires at + FmtSize(ws) <= |data|
    ensures PackFmt(ws, UnpackFmt(ws, data, at).value) == Success(data[at..at + FmtSize(ws)])
  {
    if |ws| > 0 {
      var n := |ws|;
      var xs := UnpackFmt(ws, data, at).value;
      var mid := at + FmtSize(ws[..n - 1]);
      PackFmtOfUnpackFmt(ws[..n - 1], data, at);
      assert xs[..n - 1] == UnpackFmt(ws[..n - 1], data, at).value;
      PackUnpackLE(data, mid, ws[n - 1]);
      assert xs[n - 1] == UnpackLE(data, mid, ws[n - 1]).value;
      assert PackFmt(ws, xs) == Success(PackFmt(ws[..n - 1], xs[..n - 1]).value + PackLE(xs[n - 1], ws[n - 1]).value);
      assert data[at..at + FmtSize(ws)] == data[at..mid] + data[mid..at + FmtSize(ws)];
    } else {
      assert UnpackFmt(ws, data, at) == Success([]);
      assert PackFmt(ws, []) == Success([]);
      assert FmtSize(ws) == 0 && data[at..at + FmtSize(ws)] == [];
    }
  }
}
