// The fixed-layout segments of the i.MX boot image codec (imx/img/segments.py):
// the image vector tables IVT2, IVT3a and IVT3b, the image descriptors and boot
// data tables of the v3 images, the boot data table BDT and the application
// payload APP. Every segment carries a `padding` that only its padded export uses.
module ImgSegments {
  import opened Base
  import opened Pack
  import H = ImgHeader

  // ---------------------------------------------------------------------------
  // BaseSegment

  /** `space`: the bytes a segment occupies in an image, its size and its padding. */
  function Space(size: int, padding: int): int
  {
    size + padding
  }

  /** `export(padding)`: the padded form appends `_padding_export()`, zeros only for a positive padding. */
  function Padded(data: bytes, pad: bool, padding: int): (r: bytes)
    ensures |r| == |data| + (if pad then Max(0, padding) else 0)
    ensures r[..|data|] == data
    ensures forall k :: |data| <= k < |r| ==> r[k] == 0
  {
    if pad then data + Zeros(padding) else data
  }

  // ---------------------------------------------------------------------------
  // Formats

  const IVT2_FMT: seq<nat> := [4, 4, 4, 4, 4, 4, 4]              // <7L
  const IVT3A_FMT: seq<nat> := [4, 8, 8, 8, 8, 8]                // <1L5Q
  const IVT3B_FMT: seq<nat> := [4, 8, 8, 8, 8, 8, 8, 8]          // <1L7Q
  const IDS3A_FMT: seq<nat> := [8, 8, 8, 4, 4, 4, 4]             // <3Q4L
  const IDS3B_FMT: seq<nat> := [8, 8, 8, 4, 4]                   // <3Q2L
  const BDS_HEADER_FMT: seq<nat> := [4, 4, 4, 4]                 // <4L
  const BDT_FMT: seq<nat> := [4, 4, 4]                           // <3L

  const IVT2_SIZE: nat := 32
  const IVT3A_SIZE: nat := 48
  const IVT3B_SIZE: nat := 64
  const IDS3A_SIZE: nat := 40
  const IDS3B_SIZE: nat := 32
  const BDS_HEADER_SIZE: nat := 16
  const BDS3A_SLOTS: nat := 6
  const BDS3B_SLOTS: nat := 4
  /** HEADER_SIZE + 6 descriptors. */
  const BDS3A_SIZE: nat := 256
  /** HEADER_SIZE + 4 image descriptors and the SCD, CSF and reserved descriptors. */
  const BDS3B_SIZE: nat := 240
  const BDT_SIZE: nat := 12

  lemma {:induction false} FmtSizeStep(ws: seq<nat>, k: nat)
    requires 0 < k <= |ws|
    ensures FmtSize(ws[..k]) == FmtSize(ws[..k - 1]) + ws[k - 1]
  {
    assert ws[..k][..k - 1] == ws[..k - 1];
  }

  lemma {:induction false} WordFormatSizes()
    ensures FmtSize(BDT_FMT) == BDT_SIZE && FmtSize(BDS_HEADER_FMT) == BDS_HEADER_SIZE
    ensures FmtSize(IVT2_FMT) == 28
  {
    assert BDT_FMT[..0] == [] && BDT_FMT[..3] == BDT_FMT;
    FmtSizeStep(BDT_FMT, 1);
    FmtSizeStep(BDT_FMT, 2);
    FmtSizeStep(BDT_FMT, 3);
    assert BDS_HEADER_FMT[..0] == [] && BDS_HEADER_FMT[..4] == BDS_HEADER_FMT;
    FmtSizeStep(BDS_HEADER_FMT, 1);
    FmtSizeStep(BDS_HEADER_FMT, 2);
    FmtSizeStep(BDS_HEADER_FMT, 3);
    FmtSizeStep(BDS_HEADER_FMT, 4);
    assert IVT2_FMT[..0] == [] && IVT2_FMT[..7] == IVT2_FMT;
    FmtSizeStep(IVT2_FMT, 1);
    FmtSizeStep(IVT2_FMT, 2);
    FmtSizeStep(IVT2_FMT, 3);
    FmtSizeStep(IVT2_FMT, 4);
    FmtSizeStep(IVT2_FMT, 5);
    FmtSizeStep(IVT2_FMT, 6);
    FmtSizeStep(IVT2_FMT, 7);
  }

  lemma {:induction false} IVT3FormatSizes()
    ensures FmtSize(IVT3A_FMT) == 44 && FmtSize(IVT3B_FMT) == 60
  {
    assert IVT3A_FMT[..0] == [] && IVT3A_FMT[..6] == IVT3A_FMT;
    FmtSizeStep(IVT3A_FMT, 1);
    FmtSizeStep(IVT3A_FMT, 2);
    FmtSizeStep(IVT3A_FMT, 3);
    FmtSizeStep(IVT3A_FMT, 4);
    FmtSizeStep(IVT3A_FMT, 5);
    FmtSizeStep(IVT3A_FMT, 6);
    assert IVT3B_FMT[..0] == [] && IVT3B_FMT[..8] == IVT3B_FMT;
    FmtSizeStep(IVT3B_FMT, 1);
    FmtSizeStep(IVT3B_FMT, 2);
    FmtSizeStep(IVT3B_FMT, 3);
    FmtSizeStep(IVT3B_FMT, 4);
    FmtSizeStep(IVT3B_FMT, 5);
    FmtSizeStep(IVT3B_FMT, 6);
    FmtSizeStep(IVT3B_FMT, 7);
    FmtSizeStep(IVT3B_FMT, 8);
  }

  lemma {:induction false} IDSFormatSizes()
    ensures FmtSize(IDS3A_FMT) == IDS3A_SIZE && FmtSize(IDS3B_FMT) == IDS3B_SIZE
  {
    assert IDS3A_FMT[..0] == [] && IDS3A_FMT[..7] == IDS3A_FMT;
    FmtSizeStep(IDS3A_FMT, 1);
    FmtSizeStep(IDS3A_FMT, 2);
    FmtSizeStep(IDS3A_FMT, 3);
    FmtSizeStep(IDS3A_FMT, 4);
    FmtSizeStep(IDS3A_FMT, 5);
    FmtSizeStep(IDS3A_FMT, 6);
    FmtSizeStep(IDS3A_FMT, 7);
    assert IDS3B_FMT[..0] == [] && IDS3B_FMT[..5] == IDS3B_FMT;
    FmtSizeStep(IDS3B_FMT, 1);
    FmtSizeStep(IDS3B_FMT, 2);
    FmtSizeStep(IDS3B_FMT, 3);
    FmtSizeStep(IDS3B_FMT, 4);
    FmtSizeStep(IDS3B_FMT, 5);
  }

  /** The sizes `calcsize` gives for the formats, and the segment sizes built from them. */
  lemma {:induction false} FormatSizes()
    ensures FmtSize(IVT2_FMT) == 28 && H.SIZE + FmtSize(IVT2_FMT) == IVT2_SIZE
    ensures FmtSize(IVT3A_FMT) == 44 && H.SIZE + FmtSize(IVT3A_FMT) == IVT3A_SIZE
    ensures FmtSize(IVT3B_FMT) == 60 && H.SIZE + FmtSize(IVT3B_FMT) == IVT3B_SIZE
    ensures FmtSize(IDS3A_FMT) == IDS3A_SIZE && FmtSize(IDS3B_FMT) == IDS3B_SIZE
    ensures FmtSize(BDS_HEADER_FMT) == BDS_HEADER_SIZE && FmtSize(BDT_FMT) == BDT_SIZE
    ensures BDS3A_SIZE == BDS_HEADER_SIZE + BDS3A_SLOTS * IDS3A_SIZE
    ensures BDS3B_SIZE == BDS_HEADER_SIZE + (BDS3B_SLOTS + 3) * IDS3B_SIZE
  {
    WordFormatSizes();
    IVT3FormatSizes();
    IDSFormatSizes();
  }

  /** A record made of a short header and a little-endian format parses back to both. */
  lemma {:induction false} ParseHeaderAndFields(tag: byte, param: byte, len: nat, fmt: seq<nat>, xs: seq<int>, data: bytes)
    requires len < 256 && |fmt| == |xs| && PackFmt(fmt, xs).Success?
    requires H.SIZE + FmtSize(fmt) <= |data|
    requires data[..H.SIZE + FmtSize(fmt)] == [tag, 0, len, param] + PackFmt(fmt, xs).value
    ensures H.Parse(data, 0, Some(tag)) == Success(H.Header(tag, param, len))
    ensures UnpackFmt(fmt, data, H.SIZE) == Success(xs)
  {
    H.ExportShort(tag, param, len);
    var hd: bytes := [tag, 0, len, param];
    assert data[0..H.SIZE + FmtSize(fmt)] == hd + PackFmt(fmt, xs).value;
    SplitSlice(data, 0, hd, PackFmt(fmt, xs).value);
    H.ParseExport(H.Header(tag, param, len), data, 0, Some(tag));
    UnpackFmtOfPackFmt(fmt, xs, data, H.SIZE);
  }

  /** Python's `if addr and addr < ivt`: an address is acceptable when unset or not below the IVT. */
  predicate AtOrAbove(address: int, ivt: int)
  {
    address == 0 || address >= ivt
  }

  /** The IVT and BDT addresses are set and the BDT does not lie below the IVT. */
  predicate IvtBdtOrdered(ivt: int, bdt: int)
  {
    ivt != 0 && bdt != 0 && bdt >= ivt
  }

  // ---------------------------------------------------------------------------
  // SegIVT2: header (tag 0xD1, length 32, param = version) and <7L

  datatype IVT2 = IVT2(version: byte, padding: int, app: int, rs1: int, dcd: int, bdt: int, ivt: int, csf: int, rs2: int)

  function NewIVT2(version: byte): IVT2
  {
    IVT2(version, 0, 0, 0, 0, 0, 0, 0, 0)
  }

  function IVT2Fields(s: IVT2): seq<int>
  {
    [s.app, s.rs1, s.dcd, s.bdt, s.ivt, s.csf, s.rs2]
  }

  /** `SegIVT2.validate`: ValueError unless the addresses are ordered and the padding is not positive. */
  function ValidateIVT2(s: IVT2): (r: Outcome)
    ensures r.Pass? <==> IvtBdtOrdered(s.ivt, s.bdt) && AtOrAbove(s.dcd, s.ivt) && AtOrAbove(s.csf, s.ivt) && s.padding <= 0
    ensures r.Fail? ==> r.error == ValueErr
  {
    if s.ivt == 0 || s.bdt == 0 || s.bdt < s.ivt then Fail(ValueErr)
    else if s.dcd != 0 && s.dcd < s.ivt then Fail(ValueErr)
    else if s.csf != 0 && s.csf < s.ivt then Fail(ValueErr)
    else if s.padding > 0 then Fail(ValueErr)
    else Pass
  }

  /** `SegIVT2.export`: validate, then the header and the seven words; the padding a valid IVT2 has adds nothing. */
  function ExportIVT2(s: IVT2, pad: bool): (r: Result<bytes>)
    ensures r.Success? <==> ValidateIVT2(s).Pass? && FieldsFit(IVT2Fields(s), IVT2_FMT)
    ensures r.Failure? ==> r.error == ValueErr || r.error == StructErr
    ensures r.Success? ==> |r.value| == IVT2_SIZE && r.value[..H.SIZE] == [H.TAG_IVT2, 0, 32, s.version]
  {
    FormatSizes();
    var v := ValidateIVT2(s);
    if v.Fail? then Failure(v.error)
    else
      var body :- PackFmt(IVT2_FMT, IVT2Fields(s));
      var hd: bytes := [H.TAG_IVT2, 0, 32, s.version];
      assert (hd + body)[..H.SIZE] == hd;
      Success(Padded(hd + body, pad, s.padding))
  }

  /**
   * `SegIVT2.parse`: the IVT2 header, then the seven words; the padding becomes
   * `bdt - ivt - 32` and is validated with the addresses, so a BDT more than 32
   * bytes past the IVT is rejected.
   */
  function ParseIVT2(data: bytes): (r: Result<IVT2>)
    ensures r == Failure(Unparsed) <==> |data| >= H.SIZE && data[0] != H.TAG_IVT2
    ensures r.Success? ==> ValidateIVT2(r.value).Pass? && r.value.padding == r.value.bdt - r.value.ivt - IVT2_SIZE
    ensures r.Success? ==> r.value.ivt <= r.value.bdt <= r.value.ivt + IVT2_SIZE
    ensures r.Success? ==> |data| >= IVT2_SIZE && r.value.version == data[3]
  {
    WordFormatSizes();
    var h :- H.Parse(data, 0, Some(H.TAG_IVT2));
    var f :- UnpackFmt(IVT2_FMT, data, H.SIZE);
    var s := IVT2(h.param, f[3] - f[4] - IVT2_SIZE, f[0], f[1], f[2], f[3], f[4], f[5], f[6]);
    var v := ValidateIVT2(s);
    if v.Fail? then Failure(v.error) else Success(s)
  }

  /** An exported IVT2 whose padding is the one its addresses imply parses back to itself. */
  lemma {:induction false} ParseIVT2OfExport(s: IVT2, pad: bool)
    requires ExportIVT2(s, pad).Success? && s.padding == s.bdt - s.ivt - IVT2_SIZE
    ensures ParseIVT2(ExportIVT2(s, pad).value) == Success(s)
  {
    FormatSizes();
    var data := ExportIVT2(s, pad).value;
    var body := PackFmt(IVT2_FMT, IVT2Fields(s)).value;
    assert data[..H.SIZE + FmtSize(IVT2_FMT)] == [H.TAG_IVT2, 0, 32, s.version] + body;
    ParseHeaderAndFields(H.TAG_IVT2, s.version, 32, IVT2_FMT, IVT2Fields(s), data);
  }

  /** Exporting a parsed IVT2 rewrites its header with length 32 and keeps the words. */
  lemma {:induction false} ExportIVT2OfParse(data: bytes)
    requires ParseIVT2(data).Success?
    ensures ExportIVT2(ParseIVT2(data).value, false) == Success([H.TAG_IVT2, 0, 32, data[3]] + data[H.SIZE..IVT2_SIZE])
  {
    FormatSizes();
    var s := ParseIVT2(data).value;
    PackFmtOfUnpackFmt(IVT2_FMT, data, H.SIZE);
    assert IVT2Fields(s) == UnpackFmt(IVT2_FMT, data, H.SIZE).value;
  }

  // ---------------------------------------------------------------------------
  // SegIVT3a: header (tag 0xDE, length 48) and <1L5Q

  datatype IVT3a = IVT3a(param: byte, padding: int, version: int, dcd: int, bdt: int, ivt: int, csf: int, next: int)

  /** `SegIVT3a(param)`: every field zero. */
  function NewIVT3a(param: byte): IVT3a
  {
    IVT3a(param, 0, 0, 0, 0, 0, 0, 0)
  }

  function IVT3aFields(s: IVT3a): seq<int>
  {
    [s.version, s.dcd, s.bdt, s.ivt, s.csf, s.next]
  }

  /** `SegIVT3a.validate`: the IVT2 address rules, without the padding rule. */
  function ValidateIVT3a(s: IVT3a): (r: Outcome)
    ensures r.Pass? <==> IvtBdtOrdered(s.ivt, s.bdt) && AtOrAbove(s.dcd, s.ivt) && AtOrAbove(s.csf, s.ivt)
    ensures r.Fail? ==> r.error == ValueErr
  {
    if s.ivt == 0 || s.bdt == 0 || s.bdt < s.ivt then Fail(ValueErr)
    else if s.dcd != 0 && s.dcd < s.ivt then Fail(ValueErr)
    else if s.csf != 0 && s.csf < s.ivt then Fail(ValueErr)
    else Pass
  }

  function ExportIVT3a(s: IVT3a, pad: bool): (r: Result<bytes>)
    ensures r.Success? <==> ValidateIVT3a(s).Pass? && FieldsFit(IVT3aFields(s), IVT3A_FMT)
    ensures r.Failure? ==> r.error == ValueErr || r.error == StructErr
    ensures r.Success? ==> |r.value| == IVT3A_SIZE + (if pad then Max(0, s.padding) else 0)
    ensures r.Success? ==> r.value[..H.SIZE] == [H.TAG_IVT3, 0, 48, s.param]
  {
    FormatSizes();
    var v := ValidateIVT3a(s);
    if v.Fail? then Failure(v.error)
    else
      var body :- PackFmt(IVT3A_FMT, IVT3aFields(s));
      var hd: bytes := [H.TAG_IVT3, 0, 48, s.param];
      assert (hd + body)[..H.SIZE] == hd;
      Success(Padded(hd + body, pad, s.padding))
  }

  /** `SegIVT3a.parse`: the IVT3 header, the fields, validation; the padding stays zero. */
  function ParseIVT3a(data: bytes): (r: Result<IVT3a>)
    ensures r == Failure(Unparsed) <==> |data| >= H.SIZE && data[0] != H.TAG_IVT3
    ensures r.Success? ==> ValidateIVT3a(r.value).Pass? && r.value.padding == 0
    ensures r.Success? ==> |data| >= IVT3A_SIZE && r.value.param == data[3]
  {
    IVT3FormatSizes();
    var h :- H.Parse(data, 0, Some(H.TAG_IVT3));
    var f :- UnpackFmt(IVT3A_FMT, data, H.SIZE);
    var s := IVT3a(h.param, 0, f[0], f[1], f[2], f[3], f[4], f[5]);
    var v := ValidateIVT3a(s);
    if v.Fail? then Failure(v.error) else Success(s)
  }

  lemma {:induction false} ParseIVT3aOfExport(s: IVT3a, pad: bool)
    requires ExportIVT3a(s, pad).Success? && s.padding == 0
    ensures ParseIVT3a(ExportIVT3a(s, pad).value) == Success(s)
  {
    FormatSizes();
    var data := ExportIVT3a(s, pad).value;
    var body := PackFmt(IVT3A_FMT, IVT3aFields(s)).value;
    assert data[..H.SIZE + FmtSize(IVT3A_FMT)] == [H.TAG_IVT3, 0, 48, s.param] + body;
    ParseHeaderAndFields(H.TAG_IVT3, s.param, 48, IVT3A_FMT, IVT3aFields(s), data);
  }

  lemma {:induction false} ExportIVT3aOfParse(data: bytes)
    requires ParseIVT3a(data).Success?
    ensures ExportIVT3a(ParseIVT3a(data).value, false) == Success([H.TAG_IVT3, 0, 48, data[3]] + data[H.SIZE..IVT3A_SIZE])
  {
    FormatSizes();
    var s := ParseIVT3a(data).value;
    PackFmtOfUnpackFmt(IVT3A_FMT, data, H.SIZE);
    assert IVT3aFields(s) == UnpackFmt(IVT3A_FMT, data, H.SIZE).value;
  }

  // ---------------------------------------------------------------------------
  // SegIVT3b: header (tag 0xD1, length 64) and <1L7Q

  datatype IVT3b = IVT3b(version: byte, padding: int, rs1: int, dcd: int, bdt: int, ivt: int, csf: int, scd: int, rs2h: int, rs2l: int)

  function NewIVT3b(version: byte): IVT3b
  {
    IVT3b(version, 0, 0, 0, 0, 0, 0, 0, 0, 0)
  }

  function IVT3bFields(s: IVT3b): seq<int>
  {
    [s.rs1, s.dcd, s.bdt, s.ivt, s.csf, s.scd, s.rs2h, s.rs2l]
  }

  /** `SegIVT3b.validate`: the IVT3a rules and the SCD address rule. */
  function ValidateIVT3b(s: IVT3b): (r: Outcome)
    ensures r.Pass? <==> IvtBdtOrdered(s.ivt, s.bdt) && AtOrAbove(s.dcd, s.ivt) && AtOrAbove(s.csf, s.ivt) && AtOrAbove(s.scd, s.ivt)
    ensures r.Fail? ==> r.error == ValueErr
  {
    if s.ivt == 0 || s.bdt == 0 || s.bdt < s.ivt then Fail(ValueErr)
    else if s.dcd != 0 && s.dcd < s.ivt then Fail(ValueErr)
    else if s.csf != 0 && s.csf < s.ivt then Fail(ValueErr)
    else if s.scd != 0 && s.scd < s.ivt then Fail(ValueErr)
    else Pass
  }

  function ExportIVT3b(s: IVT3b, pad: bool): (r: Result<bytes>)
    ensures r.Success? <==> ValidateIVT3b(s).Pass? && FieldsFit(IVT3bFields(s), IVT3B_FMT)
    ensures r.Failure? ==> r.error == ValueErr || r.error == StructErr
    ensures r.Success? ==> |r.value| == IVT3B_SIZE + (if pad then Max(0, s.padding) else 0)
    ensures r.Success? ==> r.value[..H.SIZE] == [H.TAG_IVT2, 0, 64, s.version]
  {
    FormatSizes();
    var v := ValidateIVT3b(s);
    if v.Fail? then Failure(v.error)
    else
      var body :- PackFmt(IVT3B_FMT, IVT3bFields(s));
      var hd: bytes := [H.TAG_IVT2, 0, 64, s.version];
      assert (hd + body)[..H.SIZE] == hd;
      Success(Padded(hd + body, pad, s.padding))
  }

  /** `SegIVT3b.parse`: the IVT2 tag is required; the padding stays zero. */
  function ParseIVT3b(data: bytes): (r: Result<IVT3b>)
    ensures r == Failure(Unparsed) <==> |data| >= H.SIZE && data[0] != H.TAG_IVT2
    ensures r.Success? ==> ValidateIVT3b(r.value).Pass? && r.value.padding == 0
    ensures r.Success? ==> |data| >= IVT3B_SIZE && r.value.version == data[3]
  {
    IVT3FormatSizes();
    var h :- H.Parse(data, 0, Some(H.TAG_IVT2));
    var f :- UnpackFmt(IVT3B_FMT, data, H.SIZE);
    var s := IVT3b(h.param, 0, f[0], f[1], f[2], f[3], f[4], f[5], f[6], f[7]);
    var v := ValidateIVT3b(s);
    if v.Fail? then Failure(v.error) else Success(s)
  }

  lemma {:induction false} ParseIVT3bOfExport(s: IVT3b, pad: bool)
    requires ExportIVT3b(s, pad).Success? && s.padding == 0
    ensures ParseIVT3b(ExportIVT3b(s, pad).value) == Success(s)
  {
    FormatSizes();
    var data := ExportIVT3b(s, pad).value;
    var body := PackFmt(IVT3B_FMT, IVT3bFields(s)).value;
    assert data[..H.SIZE + FmtSize(IVT3B_FMT)] == [H.TAG_IVT2, 0, 64, s.version] + body;
    ParseHeaderAndFields(H.TAG_IVT2, s.version, 64, IVT3B_FMT, IVT3bFields(s), data);
  }

  lemma {:induction false} ExportIVT3bOfParse(data: bytes)
    requires ParseIVT3b(data).Success?
    ensures ExportIVT3b(ParseIVT3b(data).value, false) == Success([H.TAG_IVT2, 0, 64, data[3]] + data[H.SIZE..IVT3B_SIZE])
  {
    FormatSizes();
    var s := ParseIVT3b(data).value;
    PackFmtOfUnpackFmt(IVT3B_FMT, data, H.SIZE);
    assert IVT3bFields(s) == UnpackFmt(IVT3B_FMT, data, H.SIZE).value;
  }

  // ---------------------------------------------------------------------------
  // SegIDS3a (<3Q4L) and SegIDS3b (<3Q2L): the image descriptors of the v3 boot data tables

  /** An image descriptor in either layout; both start with source, destination, entry and size. */
  datatype IDS =
    | IDS3a(source: int, destination: int, entry: int, size: int, habFlags: int, scfwFlags: int, romFlags: int)
    | IDS3b(source: int, destination: int, entry: int, size: int, flags: int)

  const EMPTY_IDS3A: IDS := IDS3a(0, 0, 0, 0, 0, 0, 0)
  const EMPTY_IDS3B: IDS := IDS3b(0, 0, 0, 0, 0)

  function IDSFmt(v3a: bool): seq<nat>
  {
    if v3a then IDS3A_FMT else IDS3B_FMT
  }

  function IDSSize(v3a: bool): nat
  {
    if v3a then IDS3A_SIZE else IDS3B_SIZE
  }

  lemma {:induction false} IDSFmtSize(v3a: bool)
    ensures FmtSize(IDSFmt(v3a)) == IDSSize(v3a)
  {
    IDSFormatSizes();
  }

  function IDSFields(d: IDS): seq<int>
  {
    match d
    case IDS3a(src, dst, ent, sz, hab, scfw, rom) => [src, dst, ent, sz, hab, scfw, rom]
    case IDS3b(src, dst, ent, sz, flags) => [src, dst, ent, sz, flags]
  }

  /** `SegIDS3a.export` / `SegIDS3b.export`: the fields in their format, 40 or 32 bytes. */
  function ExportIDS(d: IDS): (r: Result<bytes>)
    ensures r.Success? <==> FieldsFit(IDSFields(d), IDSFmt(d.IDS3a?))
    ensures r.Failure? ==> r.error == StructErr
    ensures r.Success? ==> |r.value| == IDSSize(d.IDS3a?)
  {
    IDSFmtSize(d.IDS3a?);
    PackFmt(IDSFmt(d.IDS3a?), IDSFields(d))
  }

  /** `SegIDS3a.parse(data[at:])` / `SegIDS3b.parse(data[at:])`: a short buffer raises struct.error. */
  function ParseIDS(v3a: bool, data: bytes, at: nat): (r: Result<IDS>)
    ensures r.Success? <==> at + IDSSize(v3a) <= |data|
    ensures r.Failure? ==> r.error == StructErr
    ensures r.Success? ==> r.value.IDS3a? == v3a
  {
    IDSFmtSize(v3a);
    var f :- UnpackFmt(IDSFmt(v3a), data, at);
    if v3a then Success(IDS3a(f[0], f[1], f[2], f[3], f[4], f[5], f[6]))
    else Success(IDS3b(f[0], f[1], f[2], f[3], f[4]))
  }

  /** A descriptor's export `e`, found at `at` in a buffer, parses back to the descriptor. */
  lemma {:induction false} ParseIDSOfExport(v3a: bool, d: IDS, e: bytes, data: bytes, at: nat)
    requires ExportIDS(d) == Success(e) && d.IDS3a? == v3a
    requires at + |e| <= |data| && data[at..at + |e|] == e
    ensures ParseIDS(v3a, data, at) == Success(d)
  {
    IDSFmtSize(d.IDS3a?);
    UnpackFmtOfPackFmt(IDSFmt(d.IDS3a?), IDSFields(d), data, at);
  }


  /** Every descriptor of `images[..n]` has the layout `v3a` selects. */
  predicate SlotsOf(v3a: bool, images: seq<IDS>, n: nat)
  {
    n <= |images| && forall j :: 0 <= j < n ==> images[j].IDS3a? == v3a
  }

  /** The exports of `images[..n]`, one per slot: a missing slot raises IndexError. */
  function ExportDescriptors(images: seq<IDS>, n: nat): (r: Result<seq<bytes>>)
    ensures r.Failure? ==> r.error == StructErr || r.error == IndexErr
    ensures r.Success? ==> n <= |images| && |r.value| == n
  {
    if n == 0 then Success([])
    else
      var front :- ExportDescriptors(images, n - 1);
      if n - 1 >= |images| then Failure(IndexErr)
      else
        var e :- ExportIDS(images[n - 1]);
        Success(front + [e])
  }

  /** Part `k` of the descriptor exports is the export of slot `k`. */
  lemma {:induction false} DescriptorAt(images: seq<IDS>, n: nat, k: nat)
    requires ExportDescriptors(images, n).Success? && k < n
    ensures ExportIDS(images[k]) == Success(ExportDescriptors(images, n).value[k])
  {
    if k < n - 1 {
      DescriptorAt(images, n - 1, k);
    }
  }

  /** `for i in range(n): data += images[i].export()`. */
  function ExportSlots(images: seq<IDS>, n: nat): (r: Result<bytes>)
    ensures r.Failure? ==> r.error == StructErr || r.error == IndexErr
  {
    var parts :- ExportDescriptors(images, n);
    Success(Concat(parts))
  }

  /** Descriptors of one layout export to parts of one size. */
  lemma {:induction false} DescriptorsUniform(v3a: bool, images: seq<IDS>, n: nat)
    requires ExportDescriptors(images, n).Success? && SlotsOf(v3a, images, n)
    ensures Uniform(ExportDescriptors(images, n).value, IDSSize(v3a))
  {
    var parts := ExportDescriptors(images, n).value;
    forall k | 0 <= k < |parts|
      ensures |parts[k]| == IDSSize(v3a)
    {
      DescriptorAt(images, n, k);
    }
  }

  /** Slots of one layout export to one descriptor size per slot. */
  lemma {:induction false} ExportSlotsLength(v3a: bool, images: seq<IDS>, n: nat)
    requires ExportSlots(images, n).Success? && SlotsOf(v3a, images, n)
    ensures |ExportSlots(images, n).value| == Stride(IDSSize(v3a), n)
  {
    DescriptorsUniform(v3a, images, n);
    ConcatUniformLength(ExportDescriptors(images, n).value, IDSSize(v3a));
  }

  /**
   * `for i in range(count): images[i] = SegIDS.parse(data[16 + i * size:])`, from
   * slot `i` on: a short buffer raises struct.error, a slot past the list IndexError.
   * Slots outside `i..count` keep their descriptors.
   */
  function ParseSlots(v3a: bool, data: bytes, i: nat, count: int, images: seq<IDS>): (r: Result<seq<IDS>>)
    decreases count - i
    ensures r.Failure? ==> r.error == StructErr || r.error == IndexErr
    ensures r.Success? ==> |r.value| == |images| && (i < count ==> count <= |images|)
    ensures r.Success? ==> forall j :: 0 <= j < |images| && !(i <= j < count) ==> r.value[j] == images[j]
    ensures r.Success? ==> forall j :: i <= j < count ==> r.value[j].IDS3a? == v3a
  {
    if i >= count then Success(images)
    else
      var d :- ParseIDS(v3a, data, BDS_HEADER_SIZE + Stride(IDSSize(v3a), i));
      if i >= |images| then Failure(IndexErr)
      else ParseSlots(v3a, data, i + 1, count, images[i := d])
  }

  /** One step of the slot parse: a descriptor that parses is stored and the parse moves on. */
  lemma {:induction false} ParseSlotsStep(v3a: bool, data: bytes, i: nat, count: int, images: seq<IDS>, d: IDS)
    requires i < count && i < |images|
    requires ParseIDS(v3a, data, BDS_HEADER_SIZE + Stride(IDSSize(v3a), i)) == Success(d)
    ensures ParseSlots(v3a, data, i, count, images) == ParseSlots(v3a, data, i + 1, count, images[i := d])
  {
  }

  /** A buffer holding the concatenated descriptor exports `parts` after its 16 header bytes. */
  predicate HoldsSlots(data: bytes, parts: seq<bytes>)
  {
    BDS_HEADER_SIZE + |Concat(parts)| <= |data| && data[BDS_HEADER_SIZE..BDS_HEADER_SIZE + |Concat(parts)|] == Concat(parts)
  }

  /** `parts` are the exports of `images`, one per descriptor, every descriptor of layout `v3a`. */
  predicate ExportsOf(v3a: bool, images: seq<IDS>, parts: seq<bytes>)
  {
    |parts| == |images| && forall k :: 0 <= k < |images| ==> images[k].IDS3a? == v3a && ExportIDS(images[k]) == Success(parts[k])
  }

  /** The exports of slots of one layout are, slot by slot, descriptor exports of one size. */
  lemma {:induction false} DescriptorsExport(v3a: bool, images: seq<IDS>)
    requires ExportDescriptors(images, |images|).Success? && SlotsOf(v3a, images, |images|)
    ensures ExportsOf(v3a, images, ExportDescriptors(images, |images|).value)
    ensures Uniform(ExportDescriptors(images, |images|).value, IDSSize(v3a))
  {
    var parts := ExportDescriptors(images, |images|).value;
    forall k | 0 <= k < |images|
      ensures images[k].IDS3a? == v3a && ExportIDS(images[k]) == Success(parts[k])
    {
      DescriptorAt(images, |images|, k);
    }
    DescriptorsUniform(v3a, images, |images|);
  }

  /** Slot `i` of exported descriptors parses back from its offset after the header bytes. */
  lemma {:induction false} SlotParsesBack(v3a: bool, images: seq<IDS>, parts: seq<bytes>, data: bytes, i: nat)
    requires ExportsOf(v3a, images, parts) && Uniform(parts, IDSSize(v3a))
    requires HoldsSlots(data, parts) && i < |images|
    ensures ParseIDS(v3a, data, BDS_HEADER_SIZE + Stride(IDSSize(v3a), i)) == Success(images[i])
  {
    PartAt(data, BDS_HEADER_SIZE, parts, IDSSize(v3a), i);
    ParseIDSOfExport(v3a, images[i], parts[i], data, BDS_HEADER_SIZE + Stride(IDSSize(v3a), i));
  }

  /**
   * Descriptors exported into a buffer after its 16 header bytes parse back: from
   * any list that already agrees outside `i..count`, the parse rebuilds the exported list.
   */
  lemma {:induction false} ParseSlotsOfExport(v3a: bool, images: seq<IDS>, parts: seq<bytes>, data: bytes, i: nat, count: nat, acc: seq<IDS>)
    requires ExportsOf(v3a, images, parts) && Uniform(parts, IDSSize(v3a)) && HoldsSlots(data, parts)
    requires i <= count <= |images| == |acc|
    requires forall j :: 0 <= j < |images| && !(i <= j < count) ==> acc[j] == images[j]
    ensures ParseSlots(v3a, data, i, count, acc) == Success(images)
    decreases count - i
  {
    if i == count {
      SameAtEveryIndex(acc, images);
    } else {
      SlotParsesBack(v3a, images, parts, data, i);
      ParseSlotsStep(v3a, data, i, count, acc, images[i]);
      var next := acc[i := images[i]];
      assert forall j :: 0 <= j < |images| && !(i + 1 <= j < count) ==> next[j] == images[j];
      ParseSlotsOfExport(v3a, images, parts, data, i + 1, count, next);
    }
  }

  lemma {:induction false} SameAtEveryIndex(a: seq<IDS>, b: seq<IDS>)
    requires |a| == |b| && forall j :: 0 <= j < |b| ==> a[j] == b[j]
    ensures a == b
  {
  }

  // ---------------------------------------------------------------------------
  // SegBDS3a: <4L (images_count, boot_data_size, boot_data_flag, rs) and six descriptors

  datatype BDS3a = BDS3a(padding: int, imagesCount: int, bootDataSize: int, bootDataFlag: int, rs: int, images: seq<IDS>)

  /** `SegBDS3a()`: no images, six empty descriptors. */
  function NewBDS3a(): BDS3a
  {
    BDS3a(0, 0, 0, 0, 0, [EMPTY_IDS3A, EMPTY_IDS3A, EMPTY_IDS3A, EMPTY_IDS3A, EMPTY_IDS3A, EMPTY_IDS3A])
  }

  function BDSHeaderFields(count: int, size: int, flag: int, rs: int): seq<int>
  {
    [count, size, flag, rs]
  }

  /** `SegBDS3a.export`: the four words and all six descriptors, whatever the image count. */
  function ExportBDS3a(b: BDS3a, pad: bool): (r: Result<bytes>)
    ensures r.Failure? ==> r.error == StructErr || r.error == IndexErr
    ensures r.Success? && SlotsOf(true, b.images, BDS3A_SLOTS) ==>
      |r.value| == BDS3A_SIZE + (if pad then Max(0, b.padding) else 0)
  {
    FormatSizes();
    var hd :- PackFmt(BDS_HEADER_FMT, BDSHeaderFields(b.imagesCount, b.bootDataSize, b.bootDataFlag, b.rs));
    var slots :- ExportSlots(b.images, BDS3A_SLOTS);
    if SlotsOf(true, b.images, BDS3A_SLOTS) then
      ExportSlotsLength(true, b.images, BDS3A_SLOTS);
      Success(Padded(hd + slots, pad, b.padding))
    else
      Success(Padded(hd + slots, pad, b.padding))
  }

  /** `SegBDS3a.parse`: the four words, then the first `images_count` descriptors; the others stay empty. */
  function ParseBDS3a(data: bytes): (r: Result<BDS3a>)
    ensures r.Failure? ==> r.error == StructErr || r.error == IndexErr
    ensures r.Success? ==> 0 <= r.value.imagesCount <= BDS3A_SLOTS && |r.value.images| == BDS3A_SLOTS
    ensures r.Success? ==> SlotsOf(true, r.value.images, BDS3A_SLOTS) && r.value.padding == 0
    ensures r.Success? ==> forall j :: r.value.imagesCount <= j < BDS3A_SLOTS ==> r.value.images[j] == EMPTY_IDS3A
  {
    FormatSizes();
    var f :- UnpackFmt(BDS_HEADER_FMT, data, 0);
    var images :- ParseSlots(true, data, 0, f[0], NewBDS3a().images);
    Success(BDS3a(0, f[0], f[1], f[2], f[3], images))
  }

  /** The export of a table of 3a slots: the header words, then the slots. */
  lemma {:induction false} ExportBDS3aLayout(b: BDS3a, pad: bool) returns (data: bytes)
    requires ExportBDS3a(b, pad).Success?
    requires SlotsOf(true, b.images, BDS3A_SLOTS) && |b.images| == BDS3A_SLOTS
    ensures data == ExportBDS3a(b, pad).value
    ensures UnpackFmt(BDS_HEADER_FMT, data, 0) == Success(BDSHeaderFields(b.imagesCount, b.bootDataSize, b.bootDataFlag, b.rs))
    ensures ExportDescriptors(b.images, BDS3A_SLOTS).Success?
    ensures HoldsSlots(data, ExportDescriptors(b.images, BDS3A_SLOTS).value)
  {
    WordFormatSizes();
    data := ExportBDS3a(b, pad).value;
    var xs := BDSHeaderFields(b.imagesCount, b.bootDataSize, b.bootDataFlag, b.rs);
    var hd := PackFmt(BDS_HEADER_FMT, xs).value;
    var slots := ExportSlots(b.images, BDS3A_SLOTS).value;
    assert data[0..|hd| + |slots|] == hd + slots;
    SplitSlice(data, 0, hd, slots);
    UnpackFmtOfPackFmt(BDS_HEADER_FMT, xs, data, 0);
  }

  /** A buffer whose header words and slots parse gives the table they describe. */
  lemma {:induction false} ParseBDS3aOfParts(data: bytes, count: int, size: int, flag: int, rs: int, images: seq<IDS>)
    requires UnpackFmt(BDS_HEADER_FMT, data, 0) == Success(BDSHeaderFields(count, size, flag, rs))
    requires ParseSlots(true, data, 0, count, NewBDS3a().images) == Success(images)
    ensures ParseBDS3a(data) == Success(BDS3a(0, count, size, flag, rs, images))
  {
  }

  /**
   * A table with at most six images, empty unused slots and no padding survives
   * export and parse.
   */
  lemma {:induction false} ParseBDS3aOfExport(b: BDS3a, pad: bool)
    requires ExportBDS3a(b, pad).Success? && b.padding == 0
    requires SlotsOf(true, b.images, BDS3A_SLOTS) && |b.images| == BDS3A_SLOTS && 0 <= b.imagesCount <= BDS3A_SLOTS
    requires forall j :: b.imagesCount <= j < BDS3A_SLOTS ==> b.images[j] == EMPTY_IDS3A
    ensures ParseBDS3a(ExportBDS3a(b, pad).value) == Success(b)
  {
    var data := ExportBDS3aLayout(b, pad);
    var parts := ExportDescriptors(b.images, BDS3A_SLOTS).value;
    DescriptorsExport(true, b.images);
    ParseSlotsOfExport(true, b.images, parts, data, 0, b.imagesCount, NewBDS3a().images);
    ParseBDS3aOfParts(data, b.imagesCount, b.bootDataSize, b.bootDataFlag, b.rs, b.images);
  }


  // ---------------------------------------------------------------------------
  // SegBDS3b: <4L, four image descriptors, then the SCD, CSF and reserved descriptors

  datatype BDS3b = BDS3b(padding: int, imagesCount: int, bootDataSize: int, bootDataFlag: int, rs: int,
                         images: seq<IDS>, scd: IDS, csf: IDS, rsImg: IDS)

  function NewBDS3b(): BDS3b
  {
    BDS3b(0, 0, 0, 0, 0, [EMPTY_IDS3B, EMPTY_IDS3B, EMPTY_IDS3B, EMPTY_IDS3B], EMPTY_IDS3B, EMPTY_IDS3B, EMPTY_IDS3B)
  }

  /** `SegBDS3b.export`: the four words, all four image descriptors, SCD, CSF and the reserved one. */
  function ExportBDS3b(b: BDS3b, pad: bool): (r: Result<bytes>)
    ensures r.Failure? ==> r.error == StructErr || r.error == IndexErr
    ensures r.Success? && SlotsOf(false, b.images, BDS3B_SLOTS) && !b.scd.IDS3a? && !b.csf.IDS3a? && !b.rsImg.IDS3a? ==>
      |r.value| == BDS3B_SIZE + (if pad then Max(0, b.padding) else 0)
  {
    FormatSizes();
    var hd :- PackFmt(BDS_HEADER_FMT, BDSHeaderFields(b.imagesCount, b.bootDataSize, b.bootDataFlag, b.rs));
    var slots :- ExportSlots(b.images, BDS3B_SLOTS);
    var scd :- ExportIDS(b.scd);
    var csf :- ExportIDS(b.csf);
    var rsImg :- ExportIDS(b.rsImg);
    if SlotsOf(false, b.images, BDS3B_SLOTS) then
      ExportSlotsLength(false, b.images, BDS3B_SLOTS);
      Success(Padded(hd + slots + scd + csf + rsImg, pad, b.padding))
    else
      Success(Padded(hd + slots + scd + csf + rsImg, pad, b.padding))
  }

  /** The SCD, CSF and reserved descriptors, read one after another from `at`. */
  function ParseTrailing(data: bytes, at: nat): (r: Result<(IDS, IDS, IDS)>)
    ensures r.Success? <==> at + 3 * IDS3B_SIZE <= |data|
    ensures r.Failure? ==> r.error == StructErr
    ensures r.Success? ==> !r.value.0.IDS3a? && !r.value.1.IDS3a? && !r.value.2.IDS3a?
  {
    var scd :- ParseIDS(false, data, at);
    var csf :- ParseIDS(false, data, at + IDS3B_SIZE);
    var rsImg :- ParseIDS(false, data, at + 2 * IDS3B_SIZE);
    Success((scd, csf, rsImg))
  }

  /**
   * `SegBDS3b.parse` as written: the offset after the image descriptors is
   * 16 + 32 * images_count (the loop adds 32 per image), so SCD, CSF and the reserved descriptor are read there
   * rather than after the four slots export writes.
   */
  function ParseBDS3bAsWritten(data: bytes): (r: Result<BDS3b>)
    ensures r.Failure? ==> r.error == StructErr || r.error == IndexErr
    ensures r.Success? ==> 0 <= r.value.imagesCount <= BDS3B_SLOTS && |r.value.images| == BDS3B_SLOTS
    ensures r.Success? ==> SlotsOf(false, r.value.images, BDS3B_SLOTS) && r.value.padding == 0
    ensures r.Success? ==> forall j :: r.value.imagesCount <= j < BDS3B_SLOTS ==> r.value.images[j] == EMPTY_IDS3B
    ensures r.Success? ==> !r.value.scd.IDS3a? && !r.value.csf.IDS3a? && !r.value.rsImg.IDS3a?
  {
    FormatSizes();
    var f :- UnpackFmt(BDS_HEADER_FMT, data, 0);
    var images :- ParseSlots(false, data, 0, f[0], NewBDS3b().images);
    var t :- ParseTrailing(data, BDS_HEADER_SIZE + Stride(IDS3B_SIZE, f[0]));
    Success(BDS3b(0, f[0], f[1], f[2], f[3], images, t.0, t.1, t.2))
  }

  /** `SegBDS3b.parse` with SCD, CSF and the reserved descriptor read where export puts them. */
  function ParseBDS3b(data: bytes): (r: Result<BDS3b>)
    ensures r.Failure? ==> r.error == StructErr || r.error == IndexErr
    ensures r.Success? ==> 0 <= r.value.imagesCount <= BDS3B_SLOTS && |r.value.images| == BDS3B_SLOTS
    ensures r.Success? ==> SlotsOf(false, r.value.images, BDS3B_SLOTS) && r.value.padding == 0
    ensures r.Success? ==> forall j :: r.value.imagesCount <= j < BDS3B_SLOTS ==> r.value.images[j] == EMPTY_IDS3B
    ensures r.Success? ==> !r.value.scd.IDS3a? && !r.value.csf.IDS3a? && !r.value.rsImg.IDS3a?
  {
    FormatSizes();
    var f :- UnpackFmt(BDS_HEADER_FMT, data, 0);
    var images :- ParseSlots(false, data, 0, f[0], NewBDS3b().images);
    var t :- ParseTrailing(data, BDS_HEADER_SIZE + BDS3B_SLOTS * IDS3B_SIZE);
    Success(BDS3b(0, f[0], f[1], f[2], f[3], images, t.0, t.1, t.2))
  }

  /** The well-formed BDS3b tables: four 3b slots, unused ones empty, 3b trailing descriptors, no padding. */
  predicate WellFormedBDS3b(b: BDS3b)
  {
    SlotsOf(false, b.images, BDS3B_SLOTS) && |b.images| == BDS3B_SLOTS && 0 <= b.imagesCount <= BDS3B_SLOTS
    && (forall j :: b.imagesCount <= j < BDS3B_SLOTS ==> b.images[j] == EMPTY_IDS3B)
    && !b.scd.IDS3a? && !b.csf.IDS3a? && !b.rsImg.IDS3a? && b.padding == 0
  }

  /** The export of a well-formed table: header words, slots and the three trailing descriptors at their offsets. */
  lemma {:induction false} ExportBDS3bLayout(b: BDS3b, pad: bool) returns (data: bytes)
    requires ExportBDS3b(b, pad).Success? && WellFormedBDS3b(b)
    ensures data == ExportBDS3b(b, pad).value && |data| >= BDS3B_SIZE
    ensures UnpackFmt(BDS_HEADER_FMT, data, 0) == Success(BDSHeaderFields(b.imagesCount, b.bootDataSize, b.bootDataFlag, b.rs))
    ensures ExportDescriptors(b.images, BDS3B_SLOTS).Success?
    ensures HoldsSlots(data, ExportDescriptors(b.images, BDS3B_SLOTS).value)
    ensures ParseTrailing(data, 144) == Success((b.scd, b.csf, b.rsImg))
  {
    WordFormatSizes();
    IDSFormatSizes();
    data := ExportBDS3b(b, pad).value;
    var xs := BDSHeaderFields(b.imagesCount, b.bootDataSize, b.bootDataFlag, b.rs);
    var hd := PackFmt(BDS_HEADER_FMT, xs).value;
    var slots := ExportSlots(b.images, BDS3B_SLOTS).value;
    var scd, csf, rsImg := ExportIDS(b.scd).value, ExportIDS(b.csf).value, ExportIDS(b.rsImg).value;
    ExportSlotsLength(false, b.images, BDS3B_SLOTS);
    FiveSlices(data, hd, slots, scd, csf, rsImg);
    UnpackFmtOfPackFmt(BDS_HEADER_FMT, xs, data, 0);
    ParseTrailingOfExport(b.scd, b.csf, b.rsImg, scd, csf, rsImg, data, |hd| + |slots|);
  }

  /** A buffer that starts with `a + b + c + d + e` holds `a`, `b` and `c + d + e` at their offsets. */
  lemma {:induction false} FiveSlices(data: bytes, a: bytes, b: bytes, c: bytes, d: bytes, e: bytes)
    requires |a + b + c + d + e| <= |data| && data[..|a + b + c + d + e|] == a + b + c + d + e
    ensures data[0..|a|] == a && data[|a|..|a| + |b|] == b
    ensures data[|a| + |b|..|a| + |b| + |c + d + e|] == c + d + e
  {
    assert a + b + c + d + e == (a + b) + (c + d + e);
    assert data[0..|a + b| + |c + d + e|] == (a + b) + (c + d + e);
    SplitSlice(data, 0, a + b, c + d + e);
    SplitSlice(data, 0, a, b);
  }

  /** Three exported 3b descriptors side by side parse back as the trailing triple. */
  lemma {:induction false} ParseTrailingOfExport(scd: IDS, csf: IDS, rsImg: IDS, e0: bytes, e1: bytes, e2: bytes, data: bytes, at: nat)
    requires !scd.IDS3a? && !csf.IDS3a? && !rsImg.IDS3a?
    requires ExportIDS(scd) == Success(e0) && ExportIDS(csf) == Success(e1) && ExportIDS(rsImg) == Success(e2)
    requires at + |e0 + e1 + e2| <= |data| && data[at..at + |e0 + e1 + e2|] == e0 + e1 + e2
    ensures ParseTrailing(data, at) == Success((scd, csf, rsImg))
  {
    SplitSlice(data, at, e0 + e1, e2);
    SplitSlice(data, at, e0, e1);
    ParseIDSOfExport(false, scd, e0, data, at);
    ParseIDSOfExport(false, csf, e1, data, at + IDS3B_SIZE);
    ParseIDSOfExport(false, rsImg, e2, data, at + 2 * IDS3B_SIZE);
  }

  /** A buffer whose header words, slots and trailing descriptors parse gives the table they describe. */
  lemma {:induction false} ParseBDS3bOfParts(data: bytes, count: int, size: int, flag: int, rs: int, images: seq<IDS>, t: (IDS, IDS, IDS))
    requires UnpackFmt(BDS_HEADER_FMT, data, 0) == Success(BDSHeaderFields(count, size, flag, rs))
    requires ParseSlots(false, data, 0, count, NewBDS3b().images) == Success(images)
    requires ParseTrailing(data, 144) == Success(t)
    ensures ParseBDS3b(data) == Success(BDS3b(0, count, size, flag, rs, images, t.0, t.1, t.2))
  {
  }

  /** The same for the parse as written, which looks for the trailing descriptors after `count` slots. */
  lemma {:induction false} ParseBDS3bAsWrittenOfParts(data: bytes, f: seq<nat>, images: seq<IDS>, t: (IDS, IDS, IDS))
    requires UnpackFmt(BDS_HEADER_FMT, data, 0) == Success(f) && |f| == 4
    requires ParseSlots(false, data, 0, f[0], NewBDS3b().images) == Success(images)
    requires ParseTrailing(data, BDS_HEADER_SIZE + Stride(IDS3B_SIZE, f[0])) == Success(t)
    ensures ParseBDS3bAsWritten(data) == Success(BDS3b(0, f[0], f[1], f[2], f[3], images, t.0, t.1, t.2))
  {
  }

  /** A well-formed table survives export and the corrected parse. */
  lemma {:induction false} ParseBDS3bOfExport(b: BDS3b, pad: bool)
    requires ExportBDS3b(b, pad).Success? && WellFormedBDS3b(b)
    ensures ParseBDS3b(ExportBDS3b(b, pad).value) == Success(b)
  {
    var data := ExportBDS3bLayout(b, pad);
    var parts := ExportDescriptors(b.images, BDS3B_SLOTS).value;
    DescriptorsExport(false, b.images);
    ParseSlotsOfExport(false, b.images, parts, data, 0, b.imagesCount, NewBDS3b().images);
    ParseBDS3bOfParts(data, b.imagesCount, b.bootDataSize, b.bootDataFlag, b.rs, b.images, (b.scd, b.csf, b.rsImg));
  }

  /** With all four slots counted, the parse as written reads the trailing descriptors where the corrected one does. */
  lemma {:induction false} ParseBDS3bAsWrittenFullCount(data: bytes)
    requires ParseBDS3b(data).Success? && ParseBDS3b(data).value.imagesCount == BDS3B_SLOTS
    ensures ParseBDS3bAsWritten(data) == ParseBDS3b(data)
  {
    StrideIsProduct(IDS3B_SIZE, BDS3B_SLOTS);
  }

  /** So a well-formed table with all four slots counted survives export and the parse as written. */
  lemma {:induction false} ParseBDS3bAsWrittenOfFullExport(b: BDS3b, pad: bool)
    requires ExportBDS3b(b, pad).Success? && WellFormedBDS3b(b) && b.imagesCount == BDS3B_SLOTS
    ensures ParseBDS3bAsWritten(ExportBDS3b(b, pad).value) == Success(b)
  {
    ParseBDS3bOfExport(b, pad);
    ParseBDS3bAsWrittenFullCount(ExportBDS3b(b, pad).value);
  }

  /**
   * With a smaller image count the parse as written takes the SCD descriptor from
   * the first unused image slot, so a table without images loses its SCD entry.
   */
  lemma {:induction false} ParseBDS3bAsWrittenLosesScd(b: BDS3b)
    requires ExportBDS3b(b, false).Success? && WellFormedBDS3b(b)
    requires b.imagesCount == 0 && b.scd != EMPTY_IDS3B
    ensures ParseBDS3bAsWritten(ExportBDS3b(b, false).value).Success?
    ensures ParseBDS3bAsWritten(ExportBDS3b(b, false).value).value.scd == EMPTY_IDS3B
    ensures ParseBDS3bAsWritten(ExportBDS3b(b, false).value) != Success(b)
  {
    var data := ExportBDS3bLayout(b, false);
    var parts := ExportDescriptors(b.images, BDS3B_SLOTS).value;
    DescriptorsExport(false, b.images);
    ParseBDS3bAsWrittenNoImages(data, UnpackFmt(BDS_HEADER_FMT, data, 0).value, b.images, parts);
  }

  /** With an image count of zero the parse as written reads the SCD descriptor from the first slot. */
  lemma {:induction false} ParseBDS3bAsWrittenNoImages(data: bytes, f: seq<nat>, images: seq<IDS>, parts: seq<bytes>)
    requires UnpackFmt(BDS_HEADER_FMT, data, 0) == Success(f) && |f| == 4 && f[0] == 0 && BDS3B_SIZE <= |data|
    requires ExportsOf(false, images, parts) && Uniform(parts, IDSSize(false)) && HoldsSlots(data, parts) && |images| > 0
    ensures ParseBDS3bAsWritten(data).Success? && ParseBDS3bAsWritten(data).value.scd == images[0]
  {
    SlotParsesBack(false, images, parts, data, 0);
    var at := BDS_HEADER_SIZE + Stride(IDS3B_SIZE, f[0]);
    assert at == BDS_HEADER_SIZE + Stride(IDSSize(false), 0) == BDS_HEADER_SIZE;
    ParseTrailingFirst(data, at);
    var t := ParseTrailing(data, at).value;
    assert ParseSlots(false, data, 0, f[0], NewBDS3b().images) == Success(NewBDS3b().images);
    ParseBDS3bAsWrittenOfParts(data, f, NewBDS3b().images, t);
  }

  /** The first of the trailing descriptors is the one at `at`. */
  lemma {:induction false} ParseTrailingFirst(data: bytes, at: nat)
    requires at + 3 * IDS3B_SIZE <= |data|
    ensures ParseTrailing(data, at).value.0 == ParseIDS(false, data, at).value
  {
  }

  // ---------------------------------------------------------------------------
  // SegBDT: <3L (start, length, plugin)

  const PLUGINS: set<int> := {0, 1, 2}

  datatype BDT = BDT(padding: int, start: int, length: int, plugin: int)

  /** `SegBDT(start, length, plugin)`: the plugin setter asserts 0, 1 or 2. */
  function NewBDT(start: int, length: int, plugin: int): (r: Result<BDT>)
    ensures r.Success? <==> plugin in PLUGINS
    ensures r.Failure? ==> r.error == AssertErr
    ensures r.Success? ==> r.value == BDT(0, start, length, plugin)
  {
    if plugin in PLUGINS then Success(BDT(0, start, length, plugin)) else Failure(AssertErr)
  }

  /** The `plugin` setter: the other fields are kept. */
  function SetPlugin(b: BDT, v: int): (r: Result<BDT>)
    ensures r.Success? <==> v in PLUGINS
    ensures r.Failure? ==> r.error == AssertErr
    ensures r.Success? ==> r.value.plugin == v && r.value.(plugin := b.plugin) == b
  {
    if v in PLUGINS then Success(b.(plugin := v)) else Failure(AssertErr)
  }

  function ExportBDT(b: BDT, pad: bool): (r: Result<bytes>)
    ensures r.Success? <==> FieldsFit([b.start, b.length, b.plugin], BDT_FMT)
    ensures r.Failure? ==> r.error == StructErr
    ensures r.Success? ==> |r.value| == BDT_SIZE + (if pad then Max(0, b.padding) else 0)
  {
    FormatSizes();
    var body :- PackFmt(BDT_FMT, [b.start, b.length, b.plugin]);
    Success(Padded(body, pad, b.padding))
  }

  /** `SegBDT.parse`: `cls(*unpack_from("<3L", data))`, so a plugin word other than 0, 1 or 2 fails its assertion. */
  function ParseBDT(data: bytes): (r: Result<BDT>)
    ensures r.Success? <==> UnpackFmt(BDT_FMT, data, 0).Success? && UnpackFmt(BDT_FMT, data, 0).value[2] in PLUGINS
    ensures r.Success? ==> |data| >= BDT_SIZE
    ensures r.Success? ==> r.value.padding == 0
  {
    FormatSizes();
    var f :- UnpackFmt(BDT_FMT, data, 0);
    NewBDT(f[0], f[1], f[2])
  }

  lemma {:induction false} ParseBDTOfExport(b: BDT, pad: bool)
    requires ExportBDT(b, pad).Success? && b.plugin in PLUGINS && b.padding == 0
    ensures ParseBDT(ExportBDT(b, pad).value) == Success(b)
  {
    FormatSizes();
    var data := ExportBDT(b, pad).value;
    assert data[0..BDT_SIZE] == PackFmt(BDT_FMT, [b.start, b.length, b.plugin]).value;
    UnpackFmtOfPackFmt(BDT_FMT, [b.start, b.length, b.plugin], data, 0);
  }

  lemma {:induction false} ExportBDTOfParse(data: bytes)
    requires ParseBDT(data).Success?
    ensures ExportBDT(ParseBDT(data).value, false) == Success(data[..BDT_SIZE])
  {
    FormatSizes();
    var b := ParseBDT(data).value;
    PackFmtOfUnpackFmt(BDT_FMT, data, 0);
    assert [b.start, b.length, b.plugin] == UnpackFmt(BDT_FMT, data, 0).value;
  }

  // ---------------------------------------------------------------------------
  // SegAPP: raw payload, None until set

  datatype APP = APP(data: Option<bytes>, padding: int)

  /** `SegAPP.size`: `len(data)`, a TypeError while the data is None. */
  function AppSize(a: APP): (r: Result<nat>)
    ensures r.Success? <==> a.data.Some?
    ensures r.Failure? ==> r.error == TypeErr
    ensures r.Success? ==> r.value == |a.data.value|
  {
    if a.data.None? then Failure(TypeErr) else Success(|a.data.value|)
  }

  /** `SegAPP.export`: the payload, then the padding when asked; `bytes(None)` raises TypeError. */
  function ExportAPP(a: APP, pad: bool): (r: Result<bytes>)
    ensures r.Success? <==> a.data.Some?
    ensures r.Failure? ==> r.error == TypeErr
    ensures r.Success? ==> |r.value| == |a.data.value| + (if pad then Max(0, a.padding) else 0)
    ensures r.Success? ==> r.value[..|a.data.value|] == a.data.value
  {
    if a.data.None? then Failure(TypeErr) else Success(Padded(a.data.value, pad, a.padding))
  }
}
