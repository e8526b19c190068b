// The i.MX boot images (imx/img/images.py): the top-level parser that sniffs a
// buffer for an image vector table, and the image classes that lay their segments
// out in target memory, export them as one blob and parse them back. BootImg2
// serves i.MX6/7 (BootImg8m, for i.MX8M, is the same code); BootImg3a and
// BootImg3b serve the two-container images of i.MX8QXP and i.MX8QM.
module ImgImages {
  import opened Base
  import opened Pack
  import H = ImgHeader
  import S = ImgSegments
  import CS = ImgCmdSegments
  import Cmd = ImgCommands
  import M = ImgMisc

  // ---------------------------------------------------------------------------
  // EnumAppType

  const IMG_SCFW: int := 1
  const IMG_M4_0: int := 2
  const IMG_M4_1: int := 3
  /** APP, and also A35 and A53, which share its value. */
  const IMG_APP: int := 4
  const IMG_A72: int := 5
  const IMG_SCD: int := 6

  const NOT_IMX: string := " Not an i.MX Boot Image !"

  // ---------------------------------------------------------------------------
  // Shared helpers

  /** Python's `data = a; data += b; ...`: the parts in order, or the first of them that raised. */
  function JoinAll(parts: seq<Result<bytes>>): (r: Result<bytes>)
    ensures r.Success? <==> forall i :: 0 <= i < |parts| ==> parts[i].Success?
    ensures r.Success? ==> |r.value| == TotalLength(parts)
    decreases |parts|
  {
    if |parts| == 0 then Success([])
    else if parts[0].Failure? then Failure(parts[0].error)
    else
      var rest := JoinAll(parts[1..]);
      assert forall i :: 1 <= i < |parts| ==> parts[1..][i - 1] == parts[i];
      if rest.Failure? then Failure(rest.error)
      else Success(parts[0].value + rest.value)
  }

  /** Joining two runs of parts joins the first, then the second, and stops at the first that raised. */
  lemma {:induction false} JoinAllConcat(a: seq<Result<bytes>>, b: seq<Result<bytes>>)
    ensures JoinAll(a + b) ==
      if JoinAll(a).Failure? then JoinAll(a)
      else if JoinAll(b).Failure? then JoinAll(b)
      else Success(JoinAll(a).value + JoinAll(b).value)
    decreases |a|
  {
    if |a| == 0 {
      assert a + b == b;
      if JoinAll(b).Success? {
        assert [] + JoinAll(b).value == JoinAll(b).value;
      }
    } else {
      assert (a + b)[0] == a[0];
      assert (a + b)[1..] == a[1..] + b;
      JoinAllConcat(a[1..], b);
      if a[0].Success? && JoinAll(a[1..]).Success? && JoinAll(b).Success? {
        assert a[0].value + (JoinAll(a[1..]).value + JoinAll(b).value)
            == (a[0].value + JoinAll(a[1..]).value) + JoinAll(b).value;
      }
    }
  }

  /** One more part: the join so far followed by the part, or the part's error. */
  lemma {:induction false} JoinAllSnoc(a: seq<Result<bytes>>, p: Result<bytes>)
    requires JoinAll(a).Success?
    ensures JoinAll(a + [p]) == if p.Failure? then Failure(p.error) else Success(JoinAll(a).value + p.value)
  {
    JoinAllConcat(a, [p]);
    assert [p][1..] == [];
    if p.Success? {
      assert p.value + [] == p.value;
    }
  }

  /** One more part adds its length, when it succeeded. */
  lemma {:induction false} TotalLengthSnoc(a: seq<Result<bytes>>, p: Result<bytes>)
    ensures TotalLength(a + [p]) == TotalLength(a) + (if p.Success? then |p.value| else 0)
    decreases |a|
  {
    if |a| == 0 {
      assert a + [p] == [p];
      assert [p][1..] == [];
    } else {
      assert (a + [p])[1..] == a[1..] + [p];
      TotalLengthSnoc(a[1..], p);
    }
  }

  /** Each part of a join sits in it right after the parts before it. */
  lemma {:induction false} JoinAllAt(parts: seq<Result<bytes>>, i: nat)
    requires JoinAll(parts).Success? && i < |parts|
    ensures parts[i].Success?
    ensures var at := TotalLength(parts[..i]);
      var v := JoinAll(parts).value;
      at + |parts[i].value| <= |v| && v[at..at + |parts[i].value|] == parts[i].value
    decreases i
  {
    var v := JoinAll(parts).value;
    var rest := JoinAll(parts[1..]);
    assert v == parts[0].value + rest.value;
    if i == 0 {
      assert parts[..0] == [];
    } else {
      JoinAllAt(parts[1..], i - 1);
      assert parts[..i][1..] == parts[1..][..i - 1];
      assert TotalLength(parts[..i]) == |parts[0].value| + TotalLength(parts[1..][..i - 1]);
    }
  }

  /** The lengths of five parts add up. */
  lemma {:induction false} TotalLengthSplit(parts: seq<Result<bytes>>)
    requires |parts| == 5 && forall i :: 0 <= i < 5 ==> parts[i].Success?
    ensures TotalLength(parts) == |parts[0].value| + |parts[1].value| + |parts[2].value| + |parts[3].value| + |parts[4].value|
  {
    assert TotalLength(parts[4..]) == |parts[4].value| + TotalLength(parts[5..]);
    assert TotalLength(parts[3..]) == |parts[3].value| + TotalLength(parts[3..][1..]);
    assert parts[3..][1..] == parts[4..];
    assert TotalLength(parts[2..]) == |parts[2].value| + TotalLength(parts[2..][1..]);
    assert parts[2..][1..] == parts[3..];
    assert parts[1..][1..] == parts[2..];
  }

  /** The summed lengths of the parts that succeeded. */
  function TotalLength(parts: seq<Result<bytes>>): nat
    decreases |parts|
  {
    if |parts| == 0 then 0
    else (if parts[0].Success? then |parts[0].value| else 0) + TotalLength(parts[1..])
  }

  /** A size that fits in one sector of `s` bytes is padded up to exactly `s`. */
  lemma {:induction false} PaddingToOneSector(size: int, s: int)
    requires 0 < size <= s
    ensures ComputePadding(size, s) == s - size
  {
    FloorDivPositive(size, s);
    if size == s {
      assert size / s == 1 && size % s == 0;
    } else {
      assert size / s == 0 && size % s == size;
    }
  }

  /**
   * `_compute_padding(size, sector_size)`: `((size // s + (size % s > 0)) * s) - size`,
   * the bytes that round `size` up to a multiple of `s`; Python's floor division
   * keeps the result in [0, |s|) for either sign of `s`.
   */
  function ComputePadding(size: int, s: int): (r: int)
    requires s != 0
    ensures s > 0 ==> 0 <= r < s && (size + r) % s == 0
    ensures s < 0 ==> 0 <= r < -s && (size + r) % s == 0
  {
    var q := FloorDiv(size, s);
    var r := (q + (if FloorMod(size, s) > 0 then 1 else 0)) * s - size;
    RoundUp(size, s, q, FloorMod(size, s));
    r
  }

  lemma {:induction false} RoundUp(size: int, s: int, q: int, m: int)
    requires s != 0 && size == s * q + m
    requires s > 0 ==> 0 <= m < s
    requires s < 0 ==> s < m <= 0
    ensures var r := (q + (if m > 0 then 1 else 0)) * s - size;
      (s > 0 ==> 0 <= r < s) && (s < 0 ==> 0 <= r < -s) && (size + r) % s == 0
  {
    var r := (q + (if m > 0 then 1 else 0)) * s - size;
    if m > 0 {
      assert r == s - m && size + r == s * (q + 1);
      MultipleMod(s, q + 1);
    } else {
      assert r == -m && size + r == s * q;
      MultipleMod(s, q);
    }
  }

  lemma {:induction false} MultipleMod(s: int, k: int)
    requires s != 0
    ensures (s * k) % s == 0
  {
    var t := s * k;
    if s > 0 {
      assert t == s * k + 0 && 0 <= 0 < s;
    } else {
      assert t == (-s) * (-k) + 0 && 0 <= 0 < -s;
    }
    assert t / s * s + t % s == t;
    var q := t / s;
    var m := t % s;
    if m != 0 {
      assert s * (q - k) == -m;
      if s > 0 {
        if q - k >= 1 { MulAtLeastOne(s, q - k); } else if q - k <= -1 { MulAtLeastOne(s, k - q); }
      } else {
        if q - k >= 1 { MulAtLeastOne(-s, q - k); } else if q - k <= -1 { MulAtLeastOne(-s, k - q); }
      }
      assert false;
    }
  }

  lemma {:induction false} MulAtLeastOne(a: int, b: int)
    requires a > 0 && b >= 1
    ensures a * b >= a
  {
    assert a * b == a + a * (b - 1);
    assert a * (b - 1) >= 0;
  }

  // ---------------------------------------------------------------------------
  // Sniffing: a four-byte header is probed every `step` bytes

  datatype Kind = V2 | V3a | V3b | V4

  /** The header at `pos`, parsed without a required tag, as `Header.parse(read_raw_data(buffer, 4))`. */
  function HeaderAt(data: bytes, pos: nat): (h: H.Header)
    requires pos + H.SIZE <= |data|
    ensures h.tag == data[pos] && h.param == data[pos + 3]
  {
    H.Parse(data[pos..pos + H.SIZE], 0, None).value
  }

  /**
   * The probe each image class's `parse` uses: tag 0xD1, length 32 and a version from
   * 0x40 to 0x43 for v2; tag 0xDE, length 48, param 0x43 for v3a; tag 0xD1, length 64,
   * param 0x43 for v3b.
   */
  predicate Accepts(want: Kind, h: H.Header)
  {
    match want
    case V2 => h.tag == H.TAG_IVT2 && h.length == S.IVT2_SIZE && 0x40 <= h.param <= 0x43
    case V3a => h.tag == H.TAG_IVT3 && h.length == S.IVT3A_SIZE && h.param == 0x43
    case V3b => h.tag == H.TAG_IVT2 && h.length == S.IVT3B_SIZE && h.param == 0x43
    case V4 => false
  }

  /**
   * The first probed position at or after `pos` whose header the class accepts: the
   * loop runs while `pos < end - 4`, where `end` is the buffer's size counted from the
   * stream position `parse` was entered at, while `pos` counts from the buffer's start.
   */
  function Find(want: Kind, data: bytes, pos: nat, step: nat, end: int): (r: Option<nat>)
    requires step > 0 && end <= |data|
    ensures r.Some? ==> pos <= r.value && r.value + H.SIZE < end && Accepts(want, HeaderAt(data, r.value))
    decreases end - pos
  {
    if pos + H.SIZE >= end then None
    else if Accepts(want, HeaderAt(data, pos)) then Some(pos)
    else Find(want, data, pos + step, step, end)
  }

  /** No position that the probe visits before the one it returns is accepted. */
  lemma {:induction false} FindFirst(want: Kind, data: bytes, pos: nat, step: nat, end: int, k: nat)
    requires step > 0 && end <= |data| && Find(want, data, pos, step, end).Some?
    requires pos + k * step < Find(want, data, pos, step, end).value
    ensures !Accepts(want, HeaderAt(data, pos + k * step))
    decreases k
  {
    if k > 0 {
      assert pos + H.SIZE < end && !Accepts(want, HeaderAt(data, pos));
      assert pos + k * step == (pos + step) + (k - 1) * step;
      FindFirst(want, data, pos + step, step, end, k - 1);
    }
  }

  /**
   * The top-level `parse`'s dispatch on the raw header bytes: tag 0xD1 with length
   * 32 is v2, with length 64 v3b; tag 0xDE with length 48 is v3a; a fourth byte 0x87
   * is v4.
   */
  function Classify(hdr: bytes): (r: Option<Kind>)
    requires |hdr| == H.SIZE
    ensures r == Some(V2) <==> hdr[0] == H.TAG_IVT2 && hdr[1] as int * 256 + hdr[2] as int == S.IVT2_SIZE
    ensures r == Some(V3b) <==> hdr[0] == H.TAG_IVT2 && hdr[1] as int * 256 + hdr[2] as int == S.IVT3B_SIZE
    ensures r == Some(V3a) <==> hdr[0] == H.TAG_IVT3 && hdr[1] as int * 256 + hdr[2] as int == S.IVT3A_SIZE
    ensures var len := hdr[1] as int * 256 + hdr[2] as int;
      r.None? <==>
        && hdr[3] != H.TAG_BIC1
        && !(hdr[0] == H.TAG_IVT2 && (len == S.IVT2_SIZE || len == S.IVT3B_SIZE))
        && !(hdr[0] == H.TAG_IVT3 && len == S.IVT3A_SIZE)
  {
    var len := hdr[1] as int * 256 + hdr[2] as int;
    if hdr[0] == H.TAG_IVT2 && len == S.IVT2_SIZE then Some(V2)
    else if hdr[0] == H.TAG_IVT2 && len == S.IVT3B_SIZE then Some(V3b)
    else if hdr[0] == H.TAG_IVT3 && len == S.IVT3A_SIZE then Some(V3a)
    else if hdr[3] == H.TAG_BIC1 then Some(V4)
    else None
  }

  /** The probe loop of every image class's `parse`: read four bytes, step back over them, then accept or skip `step` bytes. */
  method Sniff(stream: M.Stream, want: Kind, step: nat, end: int) returns (found: bool)
    requires step > 0 && end <= |stream.data|
    modifies stream
    ensures found <==> Find(want, stream.data, old(stream.pos), step, end).Some?
    ensures found ==> stream.pos == Find(want, stream.data, old(stream.pos), step, end).value
  {
    while stream.pos + H.SIZE < end
      invariant Find(want, stream.data, stream.pos, step, end) == Find(want, stream.data, old(stream.pos), step, end)
      decreases end - stream.pos
    {
      ghost var at := stream.pos;
      var accepted := Probe(stream, want, step);
      if accepted {
        return true;
      }
      assert Find(want, stream.data, at, step, end) == Find(want, stream.data, stream.pos, step, end);
    }
    return false;
  }

  /** One round of the probe loop: read the header at the cursor, step back, and skip `step` bytes unless it is accepted. */
  method Probe(stream: M.Stream, want: Kind, step: nat) returns (accepted: bool)
    requires stream.pos + H.SIZE < |stream.data|
    modifies stream
    ensures accepted == Accepts(want, HeaderAt(stream.data, old(stream.pos)))
    ensures stream.pos == if accepted then old(stream.pos) else old(stream.pos) + step
  {
    ghost var at := stream.pos;
    var hrd := M.ReadRawData(stream, H.SIZE, None);
    assert hrd == Success(stream.data[at..at + H.SIZE]);
    stream.Seek(stream.pos - H.SIZE);
    var h := H.Parse(hrd.value, 0, None);
    accepted := Accepts(want, h.value);
    if !accepted {
      stream.Seek(stream.pos + step);
    }
  }

  // ---------------------------------------------------------------------------
  // BootImg2 (and BootImg8m, the same code): IVT, BDT, DCD, APP and CSF in a row

  const CSF_SIZE: int := 0x2000
  const APP_ALIGN2: int := 0x1000

  /** `HEAD_SIZE`: the bytes from the IVT to the APP, 0x300 for the offset 0x100 and 0xC00 for any other. */
  function HeadSize(offset: int): int
  {
    if offset == 0x100 then 0x300 else 0xC00
  }

  /** What `_update` reads of a DCD or CSF segment: whether it is enabled, its header length and its padding. */
  datatype Shape = Shape(enabled: bool, length: int, padding: int)
  {
    function Size(): int { if enabled then length else 0 }
    function Space(): int { if enabled then length + padding else 0 }
  }

  /** The fields `_update` writes: the IVT's addresses, the BDT, and the DCD, APP and CSF paddings. */
  datatype Layout2 = Layout2(ivt: S.IVT2, bdt: S.BDT, appPadding: int, dcdPadding: int, csfPadding: int)

  /**
   * `BootImg2._update`: the segments sit one after the other from `address + offset`;
   * the DCD's padding makes the IVT, BDT and DCD fill the head, the APP is padded to a
   * multiple of 0x1000 and the CSF to 0x2000 bytes, and the BDT covers the image from
   * `address` to the end of its last segment.
   */
  function Update2(address: int, offset: int, plugin: bool, ivt: S.IVT2, appSize: nat, dcd: Shape, csf: Shape): (r: Layout2)
    ensures r.ivt == ivt.(padding := 0, ivt := r.ivt.ivt, bdt := r.ivt.bdt, dcd := r.ivt.dcd, app := r.ivt.app, csf := r.ivt.csf)
    ensures r.ivt.ivt == address + offset && r.ivt.bdt == r.ivt.ivt + S.IVT2_SIZE
    ensures S.IVT2_SIZE + S.BDT_SIZE + dcd.Size() + r.dcdPadding == HeadSize(offset)
    ensures dcd.enabled ==> r.ivt.dcd == r.ivt.bdt + S.BDT_SIZE && r.ivt.app == address + offset + HeadSize(offset)
    ensures !dcd.enabled ==> r.ivt.dcd == 0 && r.ivt.app == r.ivt.bdt + S.BDT_SIZE
    ensures r.appPadding == ComputePadding(appSize, APP_ALIGN2)
    ensures 0 <= r.appPadding < APP_ALIGN2 && (appSize + r.appPadding) % APP_ALIGN2 == 0
    ensures csf.enabled ==> r.ivt.csf == r.ivt.app + appSize + r.appPadding && csf.length + r.csfPadding == CSF_SIZE
    ensures !csf.enabled ==> r.ivt.csf == 0 && r.csfPadding == csf.padding
    ensures r.bdt.padding == 0 && r.bdt.start == address && r.bdt.plugin == (if plugin then 1 else 0)
    ensures r.bdt.start + r.bdt.length == r.ivt.app + appSize + r.appPadding + (if csf.enabled then CSF_SIZE else 0)
  {
    var dcdPadding := HeadSize(offset) - (S.IVT2_SIZE + S.BDT_SIZE + dcd.Size());
    var dcdSpace := if dcd.enabled then dcd.length + dcdPadding else 0;
    var rem := appSize % APP_ALIGN2;
    var appPadding := if rem > 0 then APP_ALIGN2 - rem else 0;
    FloorDivPositive(appSize, APP_ALIGN2);
    var ivtAddr := address + offset;
    var bdtAddr := ivtAddr + S.IVT2_SIZE;
    var dcdAddr := if dcd.enabled then bdtAddr + S.BDT_SIZE else 0;
    var appAddr := if dcd.enabled then dcdAddr + dcdSpace else bdtAddr + S.BDT_SIZE;
    var csfAddr := if csf.enabled then appAddr + appSize + appPadding else 0;
    var csfPadding := if csf.enabled then CSF_SIZE - csf.length else csf.padding;
    var csfSpace := if csf.enabled then csf.length + csfPadding else 0;
    var size := S.IVT2_SIZE + S.BDT_SIZE + dcdSpace + appSize + appPadding + csfSpace;
    Layout2(ivt.(padding := 0, ivt := ivtAddr, bdt := bdtAddr, dcd := dcdAddr, app := appAddr, csf := csfAddr),
            S.BDT(0, ivtAddr - offset, size + offset, if plugin then 1 else 0),
            appPadding, dcdPadding, csfPadding)
  }

  /** `BootImg2.export` after `_update`: the padded IVT, BDT, DCD, APP and CSF, in that order. */
  function ExportImage2(l: Layout2, appData: bytes, dcdBytes: Result<bytes>, csfBytes: Result<bytes>): Result<bytes>
  {
    JoinAll([S.ExportIVT2(l.ivt, true), S.ExportBDT(l.bdt, true), dcdBytes,
             S.ExportAPP(S.APP(Some(appData), l.appPadding), true), csfBytes])
  }

  /**
   * The exported image is as long as the BDT says, less the offset, once the DCD fits
   * in the head and the CSF in its 0x2000 bytes.
   */
  lemma {:induction false} ExportImage2Length(address: int, offset: int, plugin: bool, ivt: S.IVT2, appData: bytes,
                                              dcd: Shape, csf: Shape, dcdBytes: Result<bytes>, csfBytes: Result<bytes>)
    requires var l := Update2(address, offset, plugin, ivt, |appData|, dcd, csf);
      && ExportImage2(l, appData, dcdBytes, csfBytes).Success?
      && (dcdBytes.Success? ==> |dcdBytes.value| == (if dcd.enabled then dcd.length + Max(0, l.dcdPadding) else 0))
      && (csfBytes.Success? ==> |csfBytes.value| == (if csf.enabled then csf.length + Max(0, l.csfPadding) else 0))
      && (dcd.enabled ==> l.dcdPadding >= 0) && (csf.enabled ==> l.csfPadding >= 0)
    ensures var l := Update2(address, offset, plugin, ivt, |appData|, dcd, csf);
      |ExportImage2(l, appData, dcdBytes, csfBytes).value| == l.bdt.length - offset
  {
    var l := Update2(address, offset, plugin, ivt, |appData|, dcd, csf);
    var parts := [S.ExportIVT2(l.ivt, true), S.ExportBDT(l.bdt, true), dcdBytes,
                  S.ExportAPP(S.APP(Some(appData), l.appPadding), true), csfBytes];
    assert parts[2] == dcdBytes && parts[4] == csfBytes;
    TotalLengthSplit(parts);
  }

  /** `ExportImage2Length` for DCD and CSF segments whose header lengths count their valid commands. */
  lemma {:induction false} ExportImage2SegmentsLength(address: int, offset: int, plugin: bool, ivt: S.IVT2, appData: bytes,
                                                      dcd: Shape, csf: Shape, dh: H.Header, dcs: seq<Cmd.Command>,
                                                      ch: H.Header, ccs: seq<Cmd.Command>)
    requires dh.length == dcd.length == H.SIZE + CS.SizeSum(dcs) && forall i :: 0 <= i < |dcs| ==> Cmd.Valid(dcs[i])
    requires ch.length == csf.length == H.SIZE + CS.SizeSum(ccs) && forall i :: 0 <= i < |ccs| ==> Cmd.Valid(ccs[i])
    requires var l := Update2(address, offset, plugin, ivt, |appData|, dcd, csf);
      && ExportImage2(l, appData, CS.ExportSegment(dcd.enabled, dh, dcs, true, l.dcdPadding),
                      CS.ExportSegment(csf.enabled, ch, ccs, true, l.csfPadding)).Success?
      && (dcd.enabled ==> l.dcdPadding >= 0) && (csf.enabled ==> l.csfPadding >= 0)
    ensures var l := Update2(address, offset, plugin, ivt, |appData|, dcd, csf);
      |ExportImage2(l, appData, CS.ExportSegment(dcd.enabled, dh, dcs, true, l.dcdPadding),
                    CS.ExportSegment(csf.enabled, ch, ccs, true, l.csfPadding)).value| == l.bdt.length - offset
  {
    var l := Update2(address, offset, plugin, ivt, |appData|, dcd, csf);
    var d := CS.ExportSegment(dcd.enabled, dh, dcs, true, l.dcdPadding);
    var c := CS.ExportSegment(csf.enabled, ch, ccs, true, l.csfPadding);
    if d.Success? {
      CS.ExportSegmentLength(dcd.enabled, dh, dcs, l.dcdPadding);
    }
    if c.Success? {
      CS.ExportSegmentLength(csf.enabled, ch, ccs, l.csfPadding);
    }
    ExportImage2Length(address, offset, plugin, ivt, appData, dcd, csf, d, c);
  }

  /** A fresh `BootImg2()` holding a 100-byte APP and no DCD or CSF exports 4140 bytes, as its test states. */
  lemma {:induction false} ExportHundredByteApp(appData: bytes)
    requires |appData| == 100
    ensures var l := Update2(0, 0x400, false, S.NewIVT2(0x41), 100, Shape(false, H.SIZE, 0), Shape(false, H.SIZE, 0));
      && ExportImage2(l, appData, Success([]), Success([])).Success?
      && |ExportImage2(l, appData, Success([]), Success([])).value| == 4140
  {
    var l := Update2(0, 0x400, false, S.NewIVT2(0x41), 100, Shape(false, H.SIZE, 0), Shape(false, H.SIZE, 0));
    S.FormatSizes();
    assert l.ivt.ivt == 0x400 && l.ivt.bdt == 0x420 && l.ivt.app == 0x42C && l.appPadding == 4096 - 100;
    assert l.bdt.length == 0x400 + 4140;
    assert FieldsFit(S.IVT2Fields(l.ivt), S.IVT2_FMT) by {
      assert S.IVT2Fields(l.ivt) == [0x42C, 0, 0, 0x420, 0x400, 0, 0];
    }
    assert FieldsFit([l.bdt.start, l.bdt.length, l.bdt.plugin], S.BDT_FMT);
    assert S.ExportIVT2(l.ivt, true).Success? && S.ExportBDT(l.bdt, true).Success?;
    assert S.ExportAPP(S.APP(Some(appData), l.appPadding), true).Success?;
    assert ExportImage2(l, appData, Success([]), Success([])).Success?;
    ExportImage2Length(0, 0x400, false, S.NewIVT2(0x41), appData, Shape(false, H.SIZE, 0), Shape(false, H.SIZE, 0),
                       Success([]), Success([]));
  }

  /** Every command a segment holds is well formed and its header length counts them. */
  predicate SegmentSound(seg: CS.CmdSegment)
    reads seg
  {
    seg.InSync() && forall i :: 0 <= i < |seg.commands| ==> Cmd.Valid(seg.commands[i])
  }

  class BootImg2 {
    var address: int
    var offset: int
    var plugin: bool
    var ivt: S.IVT2
    var bdt: S.BDT
    var app: S.APP
    var dcd: CS.CmdSegment
    var csf: CS.CmdSegment

    /** The `dcd` and `csf` setters accept only a DCD and a CSF segment. */
    predicate Valid()
      reads this
    {
      dcd.tag == H.TAG_DCD && csf.tag == H.TAG_CSF
    }

    function DcdShape(): Shape
      reads this, dcd
    {
      Shape(dcd.enabled, dcd.length, dcd.padding)
    }

    function CsfShape(): Shape
      reads this, csf
    {
      Shape(csf.enabled, csf.length, csf.padding)
    }

    /** `BootImg2(address, offset, version, plugin)`: an APP without data, a disabled DCD and CSF. */
    constructor (address: int, offset: int, version: byte, plugin: bool)
      ensures Valid() && fresh(dcd) && fresh(csf)
      ensures this.address == address && this.offset == offset && this.plugin == plugin
      ensures ivt == S.NewIVT2(version) && bdt == S.BDT(0, 0, 0, 0) && app == S.APP(None, 0)
      ensures !dcd.enabled && dcd.param == 0x41 && dcd.commands == [] && dcd.padding == 0 && SegmentSound(dcd)
      ensures !csf.enabled && csf.param == 0 && csf.commands == [] && csf.padding == 0 && SegmentSound(csf)
    {
      this.address := address;
      this.offset := offset;
      this.plugin := plugin;
      ivt := S.NewIVT2(version);
      bdt := S.BDT(0, 0, 0, 0);
      app := S.APP(None, 0);
      dcd := new CS.CmdSegment.DCD(0x41, false);
      csf := new CS.CmdSegment.CSF(0, false);
    }

    /** `size`: the space of every segment; the APP's raises TypeError while its data is None. */
    function Size(): (r: Result<int>)
      reads this, dcd, csf
      ensures r.Success? <==> app.data.Some?
    {
      if app.data.None? then Failure(TypeErr)
      else Success(S.Space(S.IVT2_SIZE, ivt.padding) + S.Space(S.BDT_SIZE, bdt.padding) + dcd.Space()
                   + S.Space(|app.data.value|, app.padding) + csf.Space())
    }

    /**
     * `_update`: lays the segments out as `Update2` describes; `len(None)` stops it with
     * TypeError once the IVT, BDT and DCD paddings are written. Afterwards the BDT's
     * length is the image size plus the offset.
     */
    method Update() returns (o: Outcome)
      requires Valid()
      modifies this, dcd`padding, csf`padding
      ensures Valid() && dcd == old(dcd) && csf == old(csf)
      ensures address == old(address) && offset == old(offset) && plugin == old(plugin) && app.data == old(app.data)
      ensures o.Pass? <==> old(app.data).Some?
      ensures o.Fail? ==>
        && o.error == TypeErr && ivt == old(ivt).(padding := 0) && bdt == old(bdt).(padding := 0) && app == old(app)
        && dcd.padding == HeadSize(offset) - (S.IVT2_SIZE + S.BDT_SIZE + dcd.Size()) && csf.padding == old(csf.padding)
      ensures o.Pass? ==>
        var l := Update2(address, offset, plugin, old(ivt), |app.data.value|, old(DcdShape()), old(CsfShape()));
        && ivt == l.ivt && bdt == l.bdt && app.padding == l.appPadding
        && dcd.padding == l.dcdPadding && csf.padding == l.csfPadding
      ensures o.Pass? ==> Size() == Success(bdt.length - offset)
    {
      var ivt0, dcd0, csf0 := ivt, DcdShape(), CsfShape();
      ivt := ivt.(padding := 0);
      bdt := bdt.(padding := 0);
      var head := S.Space(S.IVT2_SIZE, ivt.padding) + S.Space(S.BDT_SIZE, bdt.padding) + dcd.Size();
      dcd.padding := HeadSize(offset) - head;
      if app.data.None? {
        return Fail(TypeErr);
      }
      var l := Update2(address, offset, plugin, ivt0, |app.data.value|, dcd0, csf0);
      ivt := l.ivt;
      bdt := l.bdt;
      app := app.(padding := l.appPadding);
      dcd.padding := l.dcdPadding;
      csf.padding := l.csfPadding;
      return Pass;
    }

    /** `add_image(data, img_type, address)`: only an APP is accepted; a non-zero address replaces the image's. */
    method AddImage(data: bytes, imgType: int, address: int) returns (o: Outcome)
      modifies this
      ensures o.Pass? <==> imgType == IMG_APP
      ensures o.Fail? ==> o.error == Raised("Unknown data type !")
      ensures app == (if o.Pass? then old(app).(data := Some(data)) else old(app))
      ensures this.address == (if o.Pass? && address != 0 then address else old(this.address))
      ensures ivt == old(ivt) && bdt == old(bdt) && dcd == old(dcd) && csf == old(csf)
      ensures offset == old(offset) && plugin == old(plugin)
    {
      if imgType != IMG_APP {
        return Fail(Raised("Unknown data type !"));
      }
      app := app.(data := Some(data));
      if address != 0 {
        this.address := address;
      }
      return Pass;
    }

    /**
     * `export`: `_update`, then the padded IVT, BDT, DCD, APP and CSF. With sound
     * segments that fit the head and the CSF area, the blob is the BDT's length less
     * the offset.
     */
    method Export() returns (r: Result<bytes>)
      requires Valid()
      modifies this, dcd`padding, csf`padding
      ensures Valid() && dcd == old(dcd) && csf == old(csf) && app.data == old(app.data)
      ensures address == old(address) && offset == old(offset) && plugin == old(plugin)
      ensures old(app.data).None? ==> r == Failure(TypeErr)
      ensures old(app.data).Some? ==>
        var l := Update2(address, offset, plugin, old(ivt), |app.data.value|, old(DcdShape()), old(CsfShape()));
        && ivt == l.ivt && bdt == l.bdt && app.padding == l.appPadding
        && dcd.padding == l.dcdPadding && csf.padding == l.csfPadding
        && r == ExportImage2(l, app.data.value,
                             CS.ExportSegment(dcd.enabled, dcd.Header(), dcd.commands, true, l.dcdPadding),
                             CS.ExportSegment(csf.enabled, csf.Header(), csf.commands, true, l.csfPadding))
      ensures r.Success? && SegmentSound(dcd) && SegmentSound(csf) && (dcd.enabled ==> dcd.padding >= 0) && (csf.enabled ==> csf.padding >= 0) ==>
        |r.value| == bdt.length - offset
    {
      var ivt0, dcd0, csf0 := ivt, DcdShape(), CsfShape();
      var o := Update();
      if o.Fail? {
        return Failure(o.error);
      }
      var d := dcd.Export(true);
      var c := csf.Export(true);
      var l := Update2(address, offset, plugin, ivt0, |app.data.value|, dcd0, csf0);
      r := ExportImage2(l, app.data.value, d, c);
      if r.Success? && SegmentSound(dcd) && SegmentSound(csf) && (dcd.enabled ==> dcd.padding >= 0) && (csf.enabled ==> csf.padding >= 0) {
        ExportImage2SegmentsLength(address, offset, plugin, ivt0, app.data.value, dcd0, csf0,
                                   dcd.Header(), dcd.commands, csf.Header(), csf.commands);
      }
    }

    /**
     * The image `parse` builds from its reads: the IVT and BDT, the offset and address
     * the two imply, the APP bytes unpadded, and the DCD parsed from its bytes, enabled
     * and padded up to the APP, or a disabled empty one when the IVT has no DCD.
     */
    predicate BuiltFrom(rd: Read2)
      reads this, dcd
    {
      && ivt == rd.ivt && bdt == rd.bdt && app == S.APP(Some(rd.app), 0)
      && offset == ivt.ivt - bdt.start && address == bdt.start && plugin == (bdt.plugin != 0)
      && (rd.dcd.None? ==> !dcd.enabled && dcd.commands == [])
      && (rd.dcd.Some? ==>
            && CS.ParseSegment(H.TAG_DCD, CS.DCD_KINDS, rd.dcd.value, 0).Success?
            && (dcd.param, dcd.commands) == CS.ParseSegment(H.TAG_DCD, CS.DCD_KINDS, rd.dcd.value, 0).value
            && dcd.enabled && dcd.padding == ivt.app - ivt.dcd - dcd.length)
    }

    /**
     * `BootImg2.parse(buffer, step)` on a stream positioned at `start`: the probe from
     * `start` while the cursor is below the size of the rest of the buffer less four,
     * then the reads `ReadV2` describes with that size, the DCD parsed before the APP
     * is read; the image is the one `BuiltFrom` those reads. A read or a DCD parse
     * that raises is the error of the whole.
     */
    static method Parse(data: bytes, start: nat, step: nat) returns (r: Result<BootImg2>)
      requires step > 0
      ensures Find(V2, data, start, step, |data| - start).None? ==> r == Failure(Raised(NOT_IMX))
      ensures Find(V2, data, start, step, |data| - start).Some? ==>
        var rd := ReadV2(data, Find(V2, data, start, step, |data| - start).value, |data| - start);
        && (r.Success? <==> rd.Success?) && (rd.Failure? ==> r == Failure(rd.error))
        && (r.Success? ==> fresh(r.value) && r.value.Valid() && r.value.BuiltFrom(rd.value))
    {
      var stream := new M.Stream(data);
      stream.Seek(start);
      var size := |data| - start;
      ghost var spot := Find(V2, data, start, step, |data| - start);
      var found := Sniff(stream, V2, step, size);
      assert found <==> spot.Some?;
      if !found {
        return Failure(Raised(NOT_IMX));
      }
      assert stream.pos == spot.value;
      var rd := ReadSegments2(stream, size);
      assert rd == ReadV2(data, spot.value, |data| - start);
      if rd.Failure? {
        return Failure(rd.error);
      }
      if rd.value.dcd.Some? {
        ReadV2Dcd(data, spot.value, size);
      }
      var dcd := ParseDcd2(rd.value);
      var obj := new BootImg2.FromParts(rd.value, dcd);
      return Success(obj);
    }

    /** The image `parse` builds from what it read, with the DCD it parsed or a fresh disabled one. */
    constructor FromParts(parts: Read2, dcd: CS.CmdSegment)
      requires dcd.tag == H.TAG_DCD
      ensures Valid() && this.dcd == dcd && fresh(csf)
      ensures ivt == parts.ivt && bdt == parts.bdt && app == S.APP(Some(parts.app), 0)
      ensures offset == ivt.ivt - bdt.start && address == bdt.start && plugin == (bdt.plugin != 0)
      ensures !csf.enabled && csf.param == 0 && csf.commands == [] && csf.padding == 0 && SegmentSound(csf)
    {
      ivt := parts.ivt;
      bdt := parts.bdt;
      offset := parts.ivt.ivt - parts.bdt.start;
      address := parts.bdt.start;
      plugin := parts.bdt.plugin != 0;
      app := S.APP(Some(parts.app), 0);
      this.dcd := dcd;
      csf := new CS.CmdSegment.CSF(0, false);
    }
  }

  /** The APP size `BootImg2.parse` computes, as written: up to the CSF, else `bdt.length - (bdt.start - app)`. */
  function AppSizeAsWritten(ivt: S.IVT2, bdt: S.BDT): int
  {
    if ivt.csf != 0 then ivt.csf - ivt.app else bdt.length - (bdt.start - ivt.app)
  }

  /** The APP size intended: up to the CSF, else up to the end of the image at `bdt.start + bdt.length`. */
  function AppSize2(ivt: S.IVT2, bdt: S.BDT): int
  {
    if ivt.csf != 0 then ivt.csf - ivt.app else bdt.start + bdt.length - ivt.app
  }

  /** For an image `_update` laid out, the intended APP size is exactly the APP's space. */
  lemma {:induction false} AppSizeOfLayout(address: nat, offset: nat, plugin: bool, ivt: S.IVT2, appSize: nat, dcd: Shape, csf: Shape)
    ensures var l := Update2(address, offset, plugin, ivt, appSize, dcd, csf);
      AppSize2(l.ivt, l.bdt) == appSize + l.appPadding
  {
  }

  /**
   * As written, the APP size of an image without CSF overshoots the APP's space by
   * twice the APP's distance from the image start, so every byte after the image, up
   * to that many, is read into the APP.
   */
  lemma {:induction false} AppSizeAsWrittenOverreads(address: nat, offset: nat, plugin: bool, ivt: S.IVT2, appSize: nat, dcd: Shape)
    ensures var l := Update2(address, offset, plugin, ivt, appSize, dcd, Shape(false, H.SIZE, 0));
      && AppSizeAsWritten(l.ivt, l.bdt) == appSize + l.appPadding + 2 * (l.ivt.app - address)
      && AppSizeAsWritten(l.ivt, l.bdt) > AppSize2(l.ivt, l.bdt)
  {
  }

  /** The 100-byte image of the test: the APP takes 4096 bytes, and the size as written claims 6232. */
  lemma {:induction false} HundredByteAppOverread()
    ensures var l := Update2(0, 0x400, false, S.NewIVT2(0x41), 100, Shape(false, H.SIZE, 0), Shape(false, H.SIZE, 0));
      AppSize2(l.ivt, l.bdt) == 4096 && AppSizeAsWritten(l.ivt, l.bdt) == 6232
  {
  }

  /**
   * The 100-byte image's export followed by `t` more bytes, parsed from its start:
   * once the read has found the image's own IVT and BDT, the APP it reads is every
   * byte from the APP address to the end of the buffer, `4096 + t` bytes, not the
   * 4096 the APP occupies.
   */
  lemma {:induction false} HundredByteAppReadsTrailer(data: bytes, t: nat)
    requires t <= 2136 && |data| == 4140 + t
    requires H.SIZE < |data| && Accepts(V2, HeaderAt(data, 0))
    requires var l := Update2(0, 0x400, false, S.NewIVT2(0x41), 100, Shape(false, H.SIZE, 0), Shape(false, H.SIZE, 0));
      var r := ReadV2(data, 0, |data|);
      r.Success? && r.value.ivt == l.ivt && r.value.bdt == l.bdt
    ensures var r := ReadV2(data, 0, |data|);
      |r.value.app| == 4096 + t && r.value.app == data[0x2C..]
  {
    var l := Update2(0, 0x400, false, S.NewIVT2(0x41), 100, Shape(false, H.SIZE, 0), Shape(false, H.SIZE, 0));
    HundredByteAppOverread();
    assert l.ivt.app - l.ivt.ivt == 0x2C;
  }

  /** The segments `BootImg2.parse` reads: the IVT, the BDT, the DCD bytes when the IVT points to a DCD, and the APP bytes. */
  datatype Read2 = Read2(ivt: S.IVT2, bdt: S.BDT, dcd: Option<bytes>, app: bytes)

  /**
   * The reads `BootImg2.parse` makes from the IVT its probe found at `p`: the IVT
   * segment, the 12 BDT bytes, the DCD segment that follows when the IVT has a DCD
   * address, then the APP from `p` plus the APP's distance to the IVT, for the size
   * as written clamped to `size` (the buffer's size counted from where `parse` was
   * entered) less that absolute start.
   */
  function ReadV2(data: bytes, p: nat, size: int): (r: Result<Read2>)
    requires p + H.SIZE < |data| && Accepts(V2, HeaderAt(data, p))
    ensures r.Success? ==>
      && p + S.IVT2_SIZE + S.BDT_SIZE <= |data|
      && S.ParseIVT2(data[p..p + S.IVT2_SIZE]) == Success(r.value.ivt)
      && S.ParseBDT(data[p + S.IVT2_SIZE..p + S.IVT2_SIZE + S.BDT_SIZE]) == Success(r.value.bdt)
      && (r.value.dcd.Some? <==> r.value.ivt.dcd != 0)
    ensures r.Success? ==>
      var start := p + (r.value.ivt.app - r.value.ivt.ivt);
      var n := Min(AppSizeAsWritten(r.value.ivt, r.value.bdt), size - start);
      0 <= start && 0 <= n && |r.value.app| == n && (n > 0 ==> start + n <= |data| && r.value.app == data[start..start + n])
  {
    var ivtRead := M.SegmentAt(data, p, H.TAG_IVT2, None);
    var ivtBytes :- ivtRead.0;
    IvtRead(data, p, ivtRead.1, ivtBytes);
    var ivt :- S.ParseIVT2(ivtBytes);
    var bdtRead := M.ReadAt(data, ivtRead.1, S.BDT_SIZE, None);
    var bdtBytes :- bdtRead.0;
    var bdt :- S.ParseBDT(bdtBytes);
    TailV2(data, bdtRead.1, p, size, ivt, bdt)
  }

  /**
   * A successful v2 read holds DCD bytes only where the IVT points to a DCD: the
   * segment right after the BDT, which parses as a DCD.
   */
  lemma {:induction false} ReadV2Dcd(data: bytes, p: nat, size: int)
    requires p + H.SIZE < |data| && Accepts(V2, HeaderAt(data, p))
    requires ReadV2(data, p, size).Success? && ReadV2(data, p, size).value.dcd.Some?
    ensures var dcd := ReadV2(data, p, size).value.dcd.value;
      var at := p + S.IVT2_SIZE + S.BDT_SIZE;
      && at + |dcd| <= |data| && dcd == data[at..at + |dcd|]
      && CS.ParseSegment(H.TAG_DCD, CS.DCD_KINDS, dcd, 0).Success?
  {
    var ivtRead := M.SegmentAt(data, p, H.TAG_IVT2, None);
    IvtRead(data, p, ivtRead.1, ivtRead.0.value);
    var ivt := S.ParseIVT2(ivtRead.0.value).value;
    var bdtRead := M.ReadAt(data, ivtRead.1, S.BDT_SIZE, None);
    var bdt := S.ParseBDT(bdtRead.0.value).value;
    TailV2DcdFirst(data, bdtRead.1, p, size, ivt, bdt);
  }

  /**
   * The reads after the BDT, the cursor at `at`: the DCD segment when the IVT has a
   * DCD address, parsed as a DCD before anything else is read, then the APP for the
   * size as written clamped to `size` less the APP's start. A DCD that does not parse
   * is the error even where the APP read would also raise.
   */
  function TailV2(data: bytes, at: nat, p: nat, size: int, ivt: S.IVT2, bdt: S.BDT): (r: Result<Read2>)
    ensures r.Success? ==> r.value.ivt == ivt && r.value.bdt == bdt && (r.value.dcd.Some? <==> ivt.dcd != 0)
    ensures r.Success? ==>
      var start := p + (ivt.app - ivt.ivt);
      var n := Min(AppSizeAsWritten(ivt, bdt), size - start);
      0 <= start && 0 <= n && |r.value.app| == n && (n > 0 ==> start + n <= |data| && r.value.app == data[start..start + n])
  {
    var dcdRead := if ivt.dcd != 0 then M.SegmentAt(data, at, H.TAG_DCD, None) else (Success([]), at);
    var dcdBytes :- dcdRead.0;
    var _ :- if ivt.dcd != 0 then CS.ParseSegment(H.TAG_DCD, CS.DCD_KINDS, dcdBytes, 0) else Success((0, []));
    var start := p + (ivt.app - ivt.ivt);
    var n := Min(AppSizeAsWritten(ivt, bdt), size - start);
    var appBytes :- M.ReadAt(data, dcdRead.1, n, Some(start)).0;
    Success(Read2(ivt, bdt, if ivt.dcd != 0 then Some(dcdBytes) else None, appBytes))
  }

  /**
   * The DCD comes first: a DCD segment that cannot be read, or is read but does not
   * parse, is the error of the reads after the BDT, whatever the APP read would do;
   * and the DCD bytes of a successful read are the segment at the cursor and parse.
   */
  lemma {:induction false} TailV2DcdFirst(data: bytes, at: nat, p: nat, size: int, ivt: S.IVT2, bdt: S.BDT)
    requires ivt.dcd != 0
    ensures var seg := M.SegmentAt(data, at, H.TAG_DCD, None).0;
      && (seg.Failure? ==> TailV2(data, at, p, size, ivt, bdt) == Failure(seg.error))
      && (seg.Success? && CS.ParseSegment(H.TAG_DCD, CS.DCD_KINDS, seg.value, 0).Failure? ==>
            TailV2(data, at, p, size, ivt, bdt) == Failure(CS.ParseSegment(H.TAG_DCD, CS.DCD_KINDS, seg.value, 0).error))
    ensures var r := TailV2(data, at, p, size, ivt, bdt);
      r.Success? ==>
        && r.value.dcd == Some(M.SegmentAt(data, at, H.TAG_DCD, None).0.value)
        && at + |r.value.dcd.value| <= |data| && r.value.dcd.value == data[at..at + |r.value.dcd.value|]
        && CS.ParseSegment(H.TAG_DCD, CS.DCD_KINDS, r.value.dcd.value, 0).Success?
  {
  }

  /**
   * `obj.dcd = SegDCD.parse(...)` and its padding up to the APP address when the IVT
   * points to a DCD, whose bytes the reads have already found to parse; the image's
   * own disabled DCD otherwise.
   */
  method ParseDcd2(parts: Read2) returns (dcd: CS.CmdSegment)
    requires parts.dcd.Some? ==> CS.ParseSegment(H.TAG_DCD, CS.DCD_KINDS, parts.dcd.value, 0).Success?
    ensures fresh(dcd) && dcd.tag == H.TAG_DCD
    ensures parts.dcd.None? ==> !dcd.enabled && dcd.commands == []
    ensures parts.dcd.Some? ==>
      && (dcd.param, dcd.commands) == CS.ParseSegment(H.TAG_DCD, CS.DCD_KINDS, parts.dcd.value, 0).value
      && dcd.enabled && dcd.padding == parts.ivt.app - parts.ivt.dcd - dcd.length
  {
    if parts.dcd.None? {
      dcd := new CS.CmdSegment.DCD(0x41, false);
      return;
    }
    var parsed := CS.ParseDCD(parts.dcd.value);
    dcd := parsed.value;
    dcd.padding := (parts.ivt.app - parts.ivt.dcd) - dcd.Size();
  }

  /** The reads of `BootImg2.parse` on the stream, from the probe's position. */
  method ReadSegments2(stream: M.Stream, size: int) returns (r: Result<Read2>)
    requires stream.pos + H.SIZE < |stream.data| && Accepts(V2, HeaderAt(stream.data, stream.pos))
    modifies stream
    ensures r == ReadV2(stream.data, old(stream.pos), size)
  {
    var p := stream.pos;
    var ivtRaw := M.ReadRawSegment(stream, H.TAG_IVT2, None);
    if ivtRaw.Failure? {
      return Failure(ivtRaw.error);
    }
    var ivt := S.ParseIVT2(ivtRaw.value);
    if ivt.Failure? {
      return Failure(ivt.error);
    }
    var bdtRaw := M.ReadRawData(stream, S.BDT_SIZE, None);
    if bdtRaw.Failure? {
      return Failure(bdtRaw.error);
    }
    var bdt := S.ParseBDT(bdtRaw.value);
    if bdt.Failure? {
      return Failure(bdt.error);
    }
    r := ReadTail2(stream, p, size, ivt.value, bdt.value);
  }

  /** The DCD read and parse, then the APP read, of `BootImg2.parse`, the IVT read from `p`. */
  method ReadTail2(stream: M.Stream, p: nat, size: int, ivt: S.IVT2, bdt: S.BDT) returns (r: Result<Read2>)
    modifies stream
    ensures r == TailV2(stream.data, old(stream.pos), p, size, ivt, bdt)
  {
    var dcd: Option<bytes> := None;
    if ivt.dcd != 0 {
      var dcdRaw := M.ReadRawSegment(stream, H.TAG_DCD, None);
      if dcdRaw.Failure? {
        return Failure(dcdRaw.error);
      }
      var parsed := CS.ParseSegment(H.TAG_DCD, CS.DCD_KINDS, dcdRaw.value, 0);
      if parsed.Failure? {
        return Failure(parsed.error);
      }
      dcd := Some(dcdRaw.value);
    }
    var start := p + (ivt.app - ivt.ivt);
    var n := AppSizeAsWritten(ivt, bdt);
    if n > size - start {
      n := size - start;
    }
    var app := M.ReadRawData(stream, n, Some(start));
    if app.Failure? {
      return Failure(app.error);
    }
    return Success(Read2(ivt, bdt, dcd, app.value));
  }

  /** The segment read at an accepted v2 probe is the 32 bytes of the IVT. */
  lemma {:induction false} IvtRead(data: bytes, p: nat, next: nat, raw: bytes)
    requires p + H.SIZE < |data| && Accepts(V2, HeaderAt(data, p))
    requires M.SegmentAt(data, p, H.TAG_IVT2, None) == (Success(raw), next)
    ensures next == p + S.IVT2_SIZE && p + S.IVT2_SIZE <= |data| && raw == data[p..p + S.IVT2_SIZE]
  {
    assert raw[..H.SIZE] == data[p..p + H.SIZE];
    assert raw[1..3] == data[p..p + H.SIZE][1..3];
  }
}
