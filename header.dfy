// The four-byte segment and command header of the i.MX boot image codec
// (imx/img/header.py): tag, 16-bit length, parameter, in big-endian `>BHB`
// order (Header) or little-endian reversed `<BHB` order (Header2).
module ImgHeader {
  import opened Base
  import opened Pack

  // Segment tags (SegTag)
  const TAG_DCD: byte := 0xD2
  const TAG_CSF: byte := 0xD4
  const TAG_IVT2: byte := 0xD1
  const TAG_CRT: byte := 0xD7
  const TAG_SIG: byte := 0xD8
  const TAG_EVT: byte := 0xDB
  const TAG_RVT: byte := 0xDD
  const TAG_WRP: byte := 0x81
  const TAG_MAC: byte := 0xAC
  const TAG_IVT3: byte := 0xDE
  const TAG_BIC1: byte := 0x87
  const TAG_SIGB: byte := 0x90

  // Command tags (CmdTag)
  const CMD_SET: byte := 0xB1
  const CMD_INS_KEY: byte := 0xBE
  const CMD_AUT_DAT: byte := 0xCA
  const CMD_WRT_DAT: byte := 0xCC
  const CMD_CHK_DAT: byte := 0xCF
  const CMD_NOP: byte := 0xC0
  const CMD_INIT: byte := 0xB4
  const CMD_UNLK: byte := 0xB2

  /** Size of the packed header in bytes. */
  const SIZE: nat := 4

  /** A header: the length counts the whole element, header included, and is not range checked until export. */
  datatype Header = Header(tag: byte, param: byte, length: int)

  /** `Header(tag, param)`: the length defaults to the header's own size. */
  function New(tag: byte, param: byte): Header
  {
    Header(tag, param, SIZE)
  }

  /** `Header.export`: `>BHB` of tag, length, param; a length outside 16 bits raises struct.error. */
  function Export(h: Header): (r: Result<bytes>)
    ensures r.Success? <==> Fits(h.length, 2)
    ensures r.Success? ==> |r.value| == SIZE && r.value[0] == h.tag && r.value[3] == h.param
    ensures r.Success? ==> FromBE(r.value[1..3]) == h.length
  {
    var len :- PackBE(h.length, 2);
    Success([h.tag] + len + [h.param])
  }

  /** A tag filter: `required_tag` None accepts every tag. */
  predicate TagAccepted(tag: byte, required: Option<byte>)
  {
    required.None? || required.value == tag
  }

  /**
   * `Header.parse`: unpack `>BHB` at `offset`; a short buffer raises struct.error and a
   * tag other than `required` raises UnparsedException.
   */
  function Parse(data: bytes, offset: nat, required: Option<byte>): (r: Result<Header>)
    ensures r == Failure(StructErr) <==> |data| < offset + SIZE
    ensures r == Failure(Unparsed) <==> |data| >= offset + SIZE && !TagAccepted(data[offset], required)
    ensures r.Failure? ==> r.error == StructErr || r.error == Unparsed
    ensures r.Success? ==> r.value.tag == data[offset] && r.value.param == data[offset + 3]
    ensures r.Success? ==> TagAccepted(r.value.tag, required) && Fits(r.value.length, 2)
  {
    if |data| < offset + SIZE then Failure(StructErr)
    else
    var length := UnpackBE(data, offset + 1, 2).value;
    if !TagAccepted(data[offset], required) then Failure(Unparsed)
    else Success(Header(data[offset], data[offset + 3], length))
  }

  /** `Header2.export`: `<BHB` of param, length, tag. */
  function Export2(h: Header): (r: Result<bytes>)
    ensures r.Success? <==> Fits(h.length, 2)
    ensures r.Success? ==> |r.value| == SIZE && r.value[0] == h.param && r.value[3] == h.tag
    ensures r.Success? ==> FromLE(r.value[1..3]) == h.length
  {
    var len :- PackLE(h.length, 2);
    Success([h.param] + len + [h.tag])
  }

  /** `Header2.parse`: unpack `<BHB` (param, length, tag) and check the tag as Parse does. */
  function Parse2(data: bytes, offset: nat, required: Option<byte>): (r: Result<Header>)
    ensures r == Failure(StructErr) <==> |data| < offset + SIZE
    ensures r == Failure(Unparsed) <==> |data| >= offset + SIZE && !TagAccepted(data[offset + 3], required)
    ensures r.Failure? ==> r.error == StructErr || r.error == Unparsed
    ensures r.Success? ==> r.value.tag == data[offset + 3] && r.value.param == data[offset]
    ensures r.Success? ==> TagAccepted(r.value.tag, required) && Fits(r.value.length, 2)
  {
    if |data| < offset + SIZE then Failure(StructErr)
    else
    var length := UnpackLE(data, offset + 1, 2).value;
    if !TagAccepted(data[offset + 3], required) then Failure(Unparsed)
    else Success(Header(data[offset + 3], data[offset], length))
  }

  /** Parsing an exported header, wherever it sits in a buffer, gives it back. */
  lemma {:induction false} ParseExport(h: Header, data: bytes, offset: nat, required: Option<byte>)
    requires Export(h).Success? && TagAccepted(h.tag, required)
    requires offset + SIZE <= |data| && data[offset..offset + SIZE] == Export(h).value
    ensures Parse(data, offset, required) == Success(h)
  {
    var e := Export(h).value;
    assert data[offset] == e[0] && data[offset + 3] == e[3];
    assert data[offset + 1] == e[1] && data[offset + 2] == e[2];
    assert data[offset + 1..offset + 3] == e[1..3];
    BEOfFromBE(data[offset + 1..offset + 3]);
  }

  /** Exporting a parsed header reproduces the four bytes it was read from. */
  lemma {:induction false} ExportParse(data: bytes, offset: nat, required: Option<byte>)
    requires Parse(data, offset, required).Success?
    ensures Export(Parse(data, offset, required).value) == Success(data[offset..offset + SIZE])
  {
    var h := Parse(data, offset, required).value;
    PackUnpackBE(data, offset + 1, 2);
    assert data[offset..offset + SIZE] == [data[offset]] + data[offset + 1..offset + 3] + [data[offset + 3]];
  }

  lemma {:induction false} Parse2Export2(h: Header, data: bytes, offset: nat, required: Option<byte>)
    requires Export2(h).Success? && TagAccepted(h.tag, required)
    requires offset + SIZE <= |data| && data[offset..offset + SIZE] == Export2(h).value
    ensures Parse2(data, offset, required) == Success(h)
  {
    var e := Export2(h).value;
    assert data[offset] == e[0] && data[offset + 3] == e[3];
    assert data[offset + 1] == e[1] && data[offset + 2] == e[2];
    assert data[offset + 1..offset + 3] == e[1..3];
    LEOfFromLE(data[offset + 1..offset + 3]);
  }

  lemma {:induction false} Export2Parse2(data: bytes, offset: nat, required: Option<byte>)
    requires Parse2(data, offset, required).Success?
    ensures Export2(Parse2(data, offset, required).value) == Success(data[offset..offset + SIZE])
  {
    PackUnpackLE(data, offset + 1, 2);
    assert data[offset..offset + SIZE] == [data[offset]] + data[offset + 1..offset + 3] + [data[offset + 3]];
  }

  /** The two header layouts are byte reversals of each other. */
  lemma {:induction false} Export2IsReversedExport(h: Header)
    requires Fits(h.length, 2)
    ensures Export(h).Success? && Export2(h).Success?
    ensures var a, b := Export(h).value, Export2(h).value;
      b == [a[3], a[2], a[1], a[0]]
  {
    var a, b := Export(h).value, Export2(h).value;
    assert a[1..3] == BE(h.length, 2);
    assert b[1..3] == LE(h.length, 2);
    assert BE(h.length, 2) == [(h.length / 256) % 256, h.length % 256];
    assert LE(h.length, 2) == [h.length % 256, (h.length / 256) % 256];
  }

  /** A header whose length is below 256 exports as tag, zero, length, param. */
  lemma {:induction false} ExportShort(tag: byte, param: byte, length: nat)
    requires length < 256
    ensures Export(Header(tag, param, length)) == Success([tag, 0, length, param])
  {
    assert Pow256(1) == 256;
    assert Pow256(2) == 65536;
    var len := BE(length, 2);
    assert len == BE(0, 1) + [length];
    assert BE(0, 1) == [0];
    assert PackBE(length, 2).value == len == [0, length];
    assert [tag] + len + [param] == [tag, 0, length, param];
  }

  /** A freshly constructed header exports as tag, length 4, param. */
  lemma {:induction false} NewExportsOwnSize(tag: byte, param: byte)
    ensures Export(New(tag, param)) == Success([tag, 0, 4, param])
  {
    ExportShort(tag, param, 4);
  }
}
