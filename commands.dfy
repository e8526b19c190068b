// The HAB commands of the i.MX boot image codec (imx/img/commands.py) as values:
// their parameter bit fields, the validation their constructors perform, their
// export and parse, and their `__eq__`.
module ImgCommands {
  import opened Base
  import opened Pack
  import H = ImgHeader

  // Enumerations the constructors and setters validate against
  const WRITE_OPS: set<int> := {0, 1, 2, 3}
  const CHECK_OPS: set<int> := {0, 1, 2, 3}
  const WIDTHS: set<int> := {1, 2, 4}
  const ALGORITHMS: set<int> := {0x00, 0x01, 0x02, 0x03, 0x04, 0x05, 0x06, 0x07, 0x11, 0x17, 0x1b, 0x21, 0x55, 0x66, 0x71}
  const CERT_FORMATS: set<int> := {0x03, 0x09, 0xC5, 0xBB, 0xA3}
  const ENGINES: set<int> := {0x00, 0x03, 0x05, 0x06, 0x0A, 0x0C, 0x1B, 0x1D, 0x1E, 0x21, 0x22, 0x36, 0x24, 0xFF}
  const ITMS: set<int> := {0x01, 0x03}
  const SOURCE_INDEXES: set<int> := {0, 2, 3, 4, 5}
  const TARGET_INDEXES: set<int> := {0, 1, 2, 3, 4, 5}
  const KEY_INDEXES: set<int> := {1, 2, 3, 4, 5}

  /** The signature format an Authenticate Data command starts with (CMS). */
  const SIG_FORMAT_CMS: byte := 0xC5

  /** Two 32-bit words: address and value of a write, start and length of an authenticated block. */
  datatype Pair = Pair(first: u32, second: u32)

  /**
   * The state of one command object. Write, Check and Set keep their options in
   * the header parameter; Initialize keeps its header length because its
   * constructor can take words without counting them.
   */
  datatype Command =
    | WriteData(param: byte, pairs: seq<Pair>)
    | CheckData(param: byte, address: u32, mask: u32, count: Option<u32>)
    | Nop(param: byte)
    | Set(itm: byte, hashAlg: byte, engine: byte, engineCfg: byte)
    | Initialize(engine: byte, length: int, words: seq<u32>)
    | Unlock(engine: byte, features: u32, uid: u64)
    | InstallKey(flags: byte, certFormat: byte, hashAlg: byte, sourceIndex: byte, targetIndex: byte, location: u32)
    | AuthData(flags: byte, keyIndex: byte, sigFormat: byte, engine: byte, engineCfg: byte, location: u32, blocks: seq<Pair>)

  // ---------------------------------------------------------------------------
  // Parameter bit fields of Write Data and Check Data

  // `param & 0x7`, `(param >> 3) & 0x3`, and the `&= ~mask; |= value` updates of the
  // setters, written with division and remainder by powers of two.

  /** The `bytes` property: the low three bits of the parameter. */
  function Width(param: byte): nat
  {
    param % 8
  }

  /** The `ops` property: bits 3 and 4 of the parameter. */
  function OpsOf(param: byte): nat
  {
    (param / 8) % 4
  }

  /** Bits 5 to 7 of the parameter, which neither property touches. */
  function HighBits(param: byte): nat
  {
    param / 32
  }

  /** The `bytes` setter: clear the three low bits, then set them to `v`. */
  function WithWidth(param: byte, v: int): (r: byte)
    requires v in WIDTHS
    ensures Width(r) == v && OpsOf(r) == OpsOf(param) && HighBits(r) == HighBits(param)
  {
    param - param % 8 + v
  }

  /** The `ops` setter: clear bits 3 and 4, then set them to `v`. */
  function WithOps(param: byte, v: int): (r: byte)
    requires v in WRITE_OPS
    ensures OpsOf(r) == v && Width(r) == Width(param) && HighBits(r) == HighBits(param)
  {
    assert 0 <= v < 4;
    assert param == 32 * HighBits(param) + 8 * OpsOf(param) + Width(param);
    var r := 32 * HighBits(param) + 8 * v + Width(param);
    assert r / 8 == 4 * HighBits(param) + v && r % 8 == Width(param);
    assert r == param - OpsOf(param) * 8 + v * 8;
    param - OpsOf(param) * 8 + v * 8
  }

  /** The parameter a constructor builds: `((ops & 3) << 3) | (bytes & 7)`. */
  function MakeParam(width: int, ops: int): (r: byte)
    requires width in WIDTHS && ops in WRITE_OPS
    ensures Width(r) == width && OpsOf(r) == ops && HighBits(r) == 0
  {
    ops * 8 + width
  }

  /** The two bits of `ops` always name a write or check operation. */
  lemma {:induction false} OpsInRange(p: byte)
    ensures OpsOf(p) in WRITE_OPS && OpsOf(p) in CHECK_OPS
  {
    var o := OpsOf(p);
    assert o == 0 || o == 1 || o == 2 || o == 3;
  }

  /** A parameter is fixed by its two fields once its high bits are clear. */
  lemma {:induction false} ParamDeterminedByFields(p: byte)
    requires Width(p) in WIDTHS && HighBits(p) == 0
    ensures MakeParam(Width(p), OpsOf(p)) == p
  {
    assert p < 32;
    assert p / 8 < 4;
    assert OpsOf(p) == p / 8;
    assert p == 8 * (p / 8) + p % 8;
  }

  // ---------------------------------------------------------------------------
  // Constructors: each asserts what its setters assert

  /** `CmdWriteData(bytes, ops)`. */
  function NewWriteData(width: int, ops: int): (r: Result<Command>)
    ensures r.Success? <==> width in WIDTHS && ops in WRITE_OPS
    ensures r.Failure? ==> r.error == AssertErr
    ensures r.Success? ==> r.value.WriteData? && r.value.pairs == [] && Width(r.value.param) == width
    ensures r.Success? ==> OpsOf(r.value.param) == ops && HighBits(r.value.param) == 0
  {
    if width in WIDTHS && ops in WRITE_OPS then Success(WriteData(MakeParam(width, ops), []))
    else Failure(AssertErr)
  }

  /** `CmdCheckData(bytes, ops, address, mask, count)`: address, mask and count are stored unchecked. */
  function NewCheckData(width: int, ops: int, address: u32, mask: u32, count: Option<u32>): (r: Result<Command>)
    ensures r.Success? <==> width in WIDTHS && ops in CHECK_OPS
    ensures r.Failure? ==> r.error == AssertErr
    ensures r.Success? ==> r.value.CheckData? && Width(r.value.param) == width && OpsOf(r.value.param) == ops
    ensures r.Success? ==> HighBits(r.value.param) == 0
    ensures r.Success? ==> r.value.address == address && r.value.mask == mask && r.value.count == count
  {
    if width in WIDTHS && ops in CHECK_OPS then Success(CheckData(MakeParam(width, ops), address, mask, count))
    else Failure(AssertErr)
  }

  /** `CmdSet(itm, hash_alg, engine, engine_cfg)`. */
  function NewSet(itm: int, hashAlg: int, engine: int, engineCfg: byte): (r: Result<Command>)
    ensures r.Success? <==> itm in ITMS && hashAlg in ALGORITHMS && engine in ENGINES
    ensures r.Failure? ==> r.error == AssertErr
    ensures r.Success? ==> r.value == Set(itm, hashAlg, engine, engineCfg)
  {
    if itm in ITMS && hashAlg in ALGORITHMS && engine in ENGINES then Success(Set(itm, hashAlg, engine, engineCfg))
    else Failure(AssertErr)
  }

  /** `CmdInitialize(engine)`: no words, header length 4. */
  function NewInitialize(engine: int): (r: Result<Command>)
    ensures r.Success? <==> engine in ENGINES
    ensures r.Failure? ==> r.error == AssertErr
    ensures r.Success? ==> r.value == Initialize(engine, H.SIZE, [])
  {
    if engine in ENGINES then Success(Initialize(engine, H.SIZE, [])) else Failure(AssertErr)
  }

  /** `CmdUnlock(engine, features, uid)`. */
  function NewUnlock(engine: int, features: u32, uid: u64): (r: Result<Command>)
    ensures r.Success? <==> engine in ENGINES
    ensures r.Failure? ==> r.error == AssertErr
    ensures r.Success? ==> r.value == Unlock(engine, features, uid)
  {
    if engine in ENGINES then Success(Unlock(engine, features, uid)) else Failure(AssertErr)
  }

  /** `CmdInstallKey(...)`: the flags go into the header parameter unchecked. */
  function NewInstallKey(flags: byte, certFormat: int, hashAlg: int, sourceIndex: int, targetIndex: int, location: u32): (r: Result<Command>)
    ensures r.Success? <==> (certFormat in CERT_FORMATS && hashAlg in ALGORITHMS
                             && sourceIndex in SOURCE_INDEXES && targetIndex in TARGET_INDEXES)
    ensures r.Failure? ==> r.error == AssertErr
    ensures r.Success? ==> r.value == InstallKey(flags, certFormat, hashAlg, sourceIndex, targetIndex, location)
  {
    if certFormat in CERT_FORMATS && hashAlg in ALGORITHMS && sourceIndex in SOURCE_INDEXES && targetIndex in TARGET_INDEXES
    then Success(InstallKey(flags, certFormat, hashAlg, sourceIndex, targetIndex, location))
    else Failure(AssertErr)
  }

  /** `CmdAuthData(...)`: signature format CMS, no blocks; flags and engine configuration unchecked. */
  function NewAuthData(flags: byte, keyIndex: int, engine: int, engineCfg: byte, location: u32): (r: Result<Command>)
    ensures r.Success? <==> keyIndex in KEY_INDEXES && engine in ENGINES
    ensures r.Failure? ==> r.error == AssertErr
    ensures r.Success? ==> r.value == AuthData(flags, keyIndex, SIG_FORMAT_CMS, engine, engineCfg, location, [])
  {
    if keyIndex in KEY_INDEXES && engine in ENGINES
    then Success(AuthData(flags, keyIndex, SIG_FORMAT_CMS, engine, engineCfg, location, []))
    else Failure(AssertErr)
  }

  /**
   * What the constructors, setters and list operations keep true of every command
   * object; the Initialize constructor's `data` argument is the one way to break
   * its length, and it is not part of this model's API.
   */
  predicate Valid(c: Command)
  {
    match c
    case WriteData(p, _) => Width(p) in WIDTHS && HighBits(p) == 0
    case CheckData(p, _, _, _) => Width(p) in WIDTHS && HighBits(p) == 0
    case Nop(_) => true
    case Set(itm, alg, eng, _) => itm in ITMS && alg in ALGORITHMS && eng in ENGINES
    case Initialize(eng, len, ws) =>
      eng in ENGINES && len == H.SIZE + 4 * |ws| && forall i :: 0 <= i < |ws| ==> ws[i] < 0xFFFF_FFFF
    case Unlock(eng, _, _) => eng in ENGINES
    case InstallKey(_, fmt, alg, src, tgt, _) =>
      fmt in CERT_FORMATS && alg in ALGORITHMS && src in SOURCE_INDEXES && tgt in TARGET_INDEXES
    case AuthData(_, key, _, eng, _, _, _) => key in KEY_INDEXES && eng in ENGINES
  }

  // ---------------------------------------------------------------------------
  // Size and export

  function Tag(c: Command): byte
  {
    match c
    case WriteData(_, _) => H.CMD_WRT_DAT
    case CheckData(_, _, _, _) => H.CMD_CHK_DAT
    case Nop(_) => H.CMD_NOP
    case Set(_, _, _, _) => H.CMD_SET
    case Initialize(_, _, _) => H.CMD_INIT
    case Unlock(_, _, _) => H.CMD_UNLK
    case InstallKey(_, _, _, _, _, _) => H.CMD_INS_KEY
    case AuthData(_, _, _, _, _, _, _) => H.CMD_AUT_DAT
  }

  /** The header parameter byte of a command. */
  function Param(c: Command): byte
  {
    match c
    case WriteData(p, _) => p
    case CheckData(p, _, _, _) => p
    case Nop(p) => p
    case Set(itm, _, _, _) => itm
    case Initialize(eng, _, _) => eng
    case Unlock(eng, _, _) => eng
    case InstallKey(flags, _, _, _, _, _) => flags
    case AuthData(flags, _, _, _, _, _, _) => flags
  }

  /** The `size` property: the header length, which every command but Initialize keeps equal to its encoding. */
  function Size(c: Command): int
  {
    match c
    case WriteData(_, ps) => H.SIZE + 8 * |ps|
    case CheckData(_, _, _, count) => H.SIZE + (if count.None? then 8 else 12)
    case Nop(_) => H.SIZE
    case Set(_, _, _, _) => H.SIZE + 4
    case Initialize(_, len, _) => len
    case Unlock(_, _, _) => H.SIZE + 12
    case InstallKey(_, _, _, _, _, _) => H.SIZE + 8
    case AuthData(_, _, _, _, _, _, bs) => H.SIZE + 8 + 8 * |bs|
  }

  /** `>LL` per pair. */
  function ExportPairs(ps: seq<Pair>): (r: bytes)
    ensures |r| == 8 * |ps|
  {
    if |ps| == 0 then [] else BE32(ps[0].first) + BE32(ps[0].second) + ExportPairs(ps[1..])
  }

  /** `>L` per word. */
  function ExportWords(ws: seq<u32>): (r: bytes)
    ensures |r| == 4 * |ws|
  {
    if |ws| == 0 then [] else BE32(ws[0]) + ExportWords(ws[1..])
  }

  /** The bytes after the header. */
  function Body(c: Command): (r: bytes)
  {
    match c
    case WriteData(_, ps) => ExportPairs(ps)
    case CheckData(_, a, m, count) => BE32(a) + BE32(m) + (if count.Some? then BE32(count.value) else [])
    case Nop(_) => []
    case Set(_, alg, eng, cfg) => [0, alg, eng, cfg]
    case Initialize(_, _, ws) => ExportWords(ws)
    case Unlock(_, f, uid) => BE32(f) + BE64(uid)
    case InstallKey(_, fmt, alg, src, tgt, loc) => [fmt, alg, src, tgt] + BE32(loc)
    case AuthData(_, key, sf, eng, cfg, loc, bs) => [key, sf, eng, cfg] + BE32(loc) + ExportPairs(bs)
  }

  /**
   * `export()` of every command: the header (tag, size, parameter) and the body.
   * A size that does not fit sixteen bits raises struct.error.
   */
  function Export(c: Command): (r: Result<bytes>)
    ensures r.Success? <==> Fits(Size(c), 2)
    ensures r.Failure? ==> r.error == StructErr
    ensures r.Success? ==> |r.value| >= H.SIZE && r.value[0] == Tag(c) && r.value[3] == Param(c)
    ensures r.Success? ==> FromBE(r.value[1..3]) == Size(c)
    ensures r.Success? && !c.Initialize? ==> |r.value| == Size(c)
    ensures r.Success? && c.Initialize? ==> |r.value| == H.SIZE + 4 * |c.words|
  {
    var h :- H.Export(H.Header(Tag(c), Param(c), Size(c)));
    assert (h + Body(c))[1..3] == h[1..3];
    Success(h + Body(c))
  }

  // ---------------------------------------------------------------------------
  // Parse

  /**
   * The loop `while index < length: unpack ">LL" at offset + index; index += 8`
   * of Write Data and Authenticate Data.
   */
  function ParsePairs(data: bytes, offset: nat, index: nat, length: int): (r: Result<seq<Pair>>)
    decreases length - index
    ensures r.Failure? ==> r.error == StructErr
  {
    if index >= length then Success([])
    else
      var a :- UnpackBE32(data, offset + index);
      var v :- UnpackBE32(data, offset + index + 4);
      var rest :- ParsePairs(data, offset, index + 8, length);
      Success([Pair(a, v)] + rest)
  }

  /**
   * The Initialize loop: assert that `offset + index` lies inside the data, unpack
   * `>L`, and append it, which asserts it is below 0xFFFFFFFF.
   */
  function ParseWords(data: bytes, offset: nat, index: nat, length: int): (r: Result<seq<u32>>)
    decreases length - index
    ensures r.Failure? ==> r.error == StructErr || r.error == AssertErr
    ensures r.Success? ==> forall i :: 0 <= i < |r.value| ==> r.value[i] < 0xFFFF_FFFF
  {
    if index >= length then Success([])
    else if offset + index >= |data| then Failure(AssertErr)
    else
      var w :- UnpackBE32(data, offset + index);
      if w >= 0xFFFF_FFFF then Failure(AssertErr)
      else
        var rest :- ParseWords(data, offset, index + 4, length);
        Success([w] + rest)
  }

  /** `CmdWriteData.parse`: the header's width and ops build the object, then every declared pair is appended. */
  function ParseWriteData(data: bytes, offset: nat): (r: Result<Command>)
    ensures r.Success? ==> r.value.WriteData? && Valid(r.value)
  {
    var h :- H.Parse(data, offset, Some(H.CMD_WRT_DAT));
    var c :- NewWriteData(Width(h.param), OpsOf(h.param));
    var ps :- ParsePairs(data, offset, H.SIZE, h.length);
    Success(c.(pairs := ps))
  }

  /** `CmdCheckData.parse`: the count is present iff the declared length exceeds 12. */
  function ParseCheckData(data: bytes, offset: nat): (r: Result<Command>)
    ensures r.Success? ==> r.value.CheckData? && Valid(r.value)
  {
    var h :- H.Parse(data, offset, Some(H.CMD_CHK_DAT));
    var address :- UnpackBE32(data, offset + 4);
    var mask :- UnpackBE32(data, offset + 8);
    var count :- ParseCount(data, offset, h.length);
    NewCheckData(Width(h.param), OpsOf(h.param), address, mask, count)
  }

  /** The optional count word of Check Data, read when the declared length leaves room for it. */
  function ParseCount(data: bytes, offset: nat, length: int): (r: Result<Option<u32>>)
    ensures r.Success? ==> (r.value.Some? <==> length - H.SIZE > 8)
    ensures r.Failure? ==> r.error == StructErr
  {
    if length - H.SIZE > 8 then
      var n :- UnpackBE32(data, offset + 12);
      Success(Some(n))
    else Success(None)
  }

  /** `CmdNop.parse`: the declared length is ignored; the object has the header size. */
  function ParseNop(data: bytes, offset: nat): (r: Result<Command>)
    ensures r.Success? ==> r.value.Nop? && Valid(r.value)
  {
    var h :- H.Parse(data, offset, Some(H.CMD_NOP));
    Success(Nop(h.param))
  }

  /** `CmdSet.parse`: one `4B` entry after the header. */
  function ParseSet(data: bytes, offset: nat): (r: Result<Command>)
    ensures r.Success? ==> r.value.Set? && Valid(r.value)
  {
    var h :- H.Parse(data, offset, Some(H.CMD_SET));
    if |data| < offset + 8 then Failure(StructErr)
    else NewSet(h.param, data[offset + 5], data[offset + 6], data[offset + 7])
  }

  /** `CmdInitialize.parse`: the header's engine builds the object, then every declared word is appended. */
  function ParseInitialize(data: bytes, offset: nat): (r: Result<Command>)
    ensures r.Success? ==> r.value.Initialize? && Valid(r.value)
  {
    var h :- H.Parse(data, offset, Some(H.CMD_INIT));
    var c :- NewInitialize(h.param);
    var ws :- ParseWords(data, offset, H.SIZE, h.length);
    Success(Initialize(h.param, H.SIZE + 4 * |ws|, ws))
  }

  /** `CmdUnlock.parse`: `>LQ` after the header. */
  function ParseUnlock(data: bytes, offset: nat): (r: Result<Command>)
    ensures r.Success? ==> r.value.Unlock? && Valid(r.value)
  {
    var h :- H.Parse(data, offset, Some(H.CMD_UNLK));
    var features :- UnpackBE32(data, offset + 4);
    var uid :- UnpackBE64(data, offset + 8);
    NewUnlock(h.param, features, uid)
  }

  /** `CmdInstallKey.parse`: `>4BL` after the header. */
  function ParseInstallKey(data: bytes, offset: nat): (r: Result<Command>)
    ensures r.Success? ==> r.value.InstallKey? && Valid(r.value)
  {
    var h :- H.Parse(data, offset, Some(H.CMD_INS_KEY));
    if |data| < offset + 12 then Failure(StructErr)
    else
      var location := UnpackBE32(data, offset + 8).value;
      NewInstallKey(h.param, data[offset + 4], data[offset + 5], data[offset + 6], data[offset + 7], location)
  }

  /** `CmdAuthData.parse`: `>4BL`, the wire signature format, then every declared block. */
  function ParseAuthData(data: bytes, offset: nat): (r: Result<Command>)
    ensures r.Success? ==> r.value.AuthData? && Valid(r.value)
  {
    var h :- H.Parse(data, offset, Some(H.CMD_AUT_DAT));
    if |data| < offset + 12 then Failure(StructErr)
    else
      var location := UnpackBE32(data, offset + 8).value;
      var c :- NewAuthData(h.param, data[offset + 4], data[offset + 6], data[offset + 7], location);
      var bs :- ParsePairs(data, offset, H.SIZE + 8, h.length);
      Success(c.(sigFormat := data[offset + 5], blocks := bs))
  }

  /** The command classes, in the order segments try them. */
  datatype Kind = KWrite | KCheck | KNop | KSet | KInit | KUnlock | KInstallKey | KAuthData

  function KindOf(c: Command): Kind
  {
    match c
    case WriteData(_, _) => KWrite
    case CheckData(_, _, _, _) => KCheck
    case Nop(_) => KNop
    case Set(_, _, _, _) => KSet
    case Initialize(_, _, _) => KInit
    case Unlock(_, _, _) => KUnlock
    case InstallKey(_, _, _, _, _, _) => KInstallKey
    case AuthData(_, _, _, _, _, _, _) => KAuthData
  }

  function TagOfKind(k: Kind): byte
  {
    match k
    case KWrite => H.CMD_WRT_DAT
    case KCheck => H.CMD_CHK_DAT
    case KNop => H.CMD_NOP
    case KSet => H.CMD_SET
    case KInit => H.CMD_INIT
    case KUnlock => H.CMD_UNLK
    case KInstallKey => H.CMD_INS_KEY
    case KAuthData => H.CMD_AUT_DAT
  }

  /**
   * `cls.parse(data, offset)` for the class `k`. Only a tag mismatch gives
   * Unparsed, so a caller trying classes in turn moves on exactly then; every
   * parsed command is valid, of that class, and at least a header long.
   */
  function ParseAs(k: Kind, data: bytes, offset: nat): (r: Result<Command>)
    ensures r == Failure(Unparsed) <==> offset + H.SIZE <= |data| && data[offset] != TagOfKind(k)
    ensures r.Success? ==> KindOf(r.value) == k && Valid(r.value) && Size(r.value) >= H.SIZE
  {
    match k
    case KWrite => ParseWriteData(data, offset)
    case KCheck => ParseCheckData(data, offset)
    case KNop => ParseNop(data, offset)
    case KSet => ParseSet(data, offset)
    case KInit => ParseInitialize(data, offset)
    case KUnlock => ParseUnlock(data, offset)
    case KInstallKey => ParseInstallKey(data, offset)
    case KAuthData => ParseAuthData(data, offset)
  }

  // ---------------------------------------------------------------------------
  // Round trips

  lemma {:induction false} ParsePairsExport(ps: seq<Pair>, data: bytes, offset: nat, index: nat)
    requires offset + index + 8 * |ps| <= |data|
    requires data[offset + index..offset + index + 8 * |ps|] == ExportPairs(ps)
    ensures ParsePairs(data, offset, index, index + 8 * |ps|) == Success(ps)
  {
    if |ps| > 0 {
      var at := offset + index;
      var a, v, tail := BE32(ps[0].first), BE32(ps[0].second), ExportPairs(ps[1..]);
      SplitSlice(data, at, a, v + tail);
      SplitSlice(data, at + 4, v, tail);
      UnpackBE32At(data, at, ps[0].first);
      UnpackBE32At(data, at + 4, ps[0].second);
      ParsePairsExport(ps[1..], data, offset, index + 8);
      assert [Pair(ps[0].first, ps[0].second)] + ps[1..] == ps;
    }
  }

  lemma {:induction false} ParseWordsExport(ws: seq<u32>, data: bytes, offset: nat, index: nat)
    requires forall i :: 0 <= i < |ws| ==> ws[i] < 0xFFFF_FFFF
    requires offset + index + 4 * |ws| <= |data|
    requires data[offset + index..offset + index + 4 * |ws|] == ExportWords(ws)
    ensures ParseWords(data, offset, index, index + 4 * |ws|) == Success(ws)
  {
    if |ws| > 0 {
      var at := offset + index;
      SplitSlice(data, at, BE32(ws[0]), ExportWords(ws[1..]));
      UnpackBE32At(data, at, ws[0]);
      ParseWordsExport(ws[1..], data, offset, index + 4);
      assert [ws[0]] + ws[1..] == ws;
    }
  }

  /** The header of an exported command parses back to its tag, parameter and size. */
  lemma {:induction false} ExportedHeader(c: Command, data: bytes, offset: nat)
    requires Export(c).Success?
    requires offset + |Export(c).value| <= |data| && data[offset..offset + |Export(c).value|] == Export(c).value
    ensures H.Export(H.Header(Tag(c), Param(c), Size(c))).Success?
    ensures H.Parse(data, offset, Some(Tag(c))) == Success(H.Header(Tag(c), Param(c), Size(c)))
    ensures data[offset + H.SIZE..offset + |Export(c).value|] == Body(c)
  {
    var h := H.Header(Tag(c), Param(c), Size(c));
    var e := Export(c).value;
    var he := H.Export(h).value;
    assert e == he + Body(c);
    SplitSlice(data, offset, he, Body(c));
    H.ParseExport(h, data, offset, Some(Tag(c)));
  }

  lemma {:induction false} RoundTripWriteData(c: Command, data: bytes, offset: nat)
    requires c.WriteData? && Valid(c) && Export(c).Success?
    requires offset + |Export(c).value| <= |data| && data[offset..offset + |Export(c).value|] == Export(c).value
    ensures ParseWriteData(data, offset) == Success(c)
  {
    ExportedHeader(c, data, offset);
    ParamDeterminedByFields(c.param);
    ParsePairsExport(c.pairs, data, offset, H.SIZE);
    ParseWriteDataOf(data, offset, H.Header(H.CMD_WRT_DAT, c.param, Size(c)), c.pairs);
  }

  /** ParseWriteData in terms of the header it reads and the pairs after it. */
  lemma {:induction false} ParseWriteDataOf(data: bytes, offset: nat, h: H.Header, ps: seq<Pair>)
    requires H.Parse(data, offset, Some(H.CMD_WRT_DAT)) == Success(h)
    requires Width(h.param) in WIDTHS && HighBits(h.param) == 0
    requires ParsePairs(data, offset, H.SIZE, h.length) == Success(ps)
    ensures ParseWriteData(data, offset) == Success(WriteData(h.param, ps))
  {
    NewWriteDataOfParam(h.param);
  }

  /** The constructor called with the fields of a parameter with clear high bits rebuilds that parameter. */
  lemma {:induction false} NewWriteDataOfParam(p: byte)
    requires Width(p) in WIDTHS && HighBits(p) == 0
    ensures NewWriteData(Width(p), OpsOf(p)) == Success(WriteData(p, []))
  {
    OpsInRange(p);
    ParamDeterminedByFields(p);
  }

  lemma {:induction false} NewCheckDataOfParam(p: byte, address: u32, mask: u32, count: Option<u32>)
    requires Width(p) in WIDTHS && HighBits(p) == 0
    ensures NewCheckData(Width(p), OpsOf(p), address, mask, count) == Success(CheckData(p, address, mask, count))
  {
    OpsInRange(p);
    ParamDeterminedByFields(p);
  }

  lemma {:induction false} RoundTripCheckData(c: Command, data: bytes, offset: nat)
    requires c.CheckData? && Valid(c) && Export(c).Success?
    requires offset + |Export(c).value| <= |data| && data[offset..offset + |Export(c).value|] == Export(c).value
    ensures ParseCheckData(data, offset) == Success(c)
  {
    ExportedHeader(c, data, offset);
    var tail := if c.count.Some? then BE32(c.count.value) else [];
    SplitSlice(data, offset + 4, BE32(c.address), BE32(c.mask) + tail);
    SplitSlice(data, offset + 8, BE32(c.mask), tail);
    UnpackBE32At(data, offset + 4, c.address);
    UnpackBE32At(data, offset + 8, c.mask);
    if c.count.Some? {
      UnpackBE32At(data, offset + 12, c.count.value);
    }
    assert ParseCount(data, offset, Size(c)) == Success(c.count);
    ParseCheckDataOf(data, offset, H.Header(H.CMD_CHK_DAT, c.param, Size(c)), c.address, c.mask, c.count);
  }

  /** ParseCheckData in terms of the header and the words after it. */
  lemma {:induction false} ParseCheckDataOf(data: bytes, offset: nat, h: H.Header, address: u32, mask: u32, count: Option<u32>)
    requires H.Parse(data, offset, Some(H.CMD_CHK_DAT)) == Success(h)
    requires Width(h.param) in WIDTHS && HighBits(h.param) == 0
    requires UnpackBE32(data, offset + 4) == Success(address) && UnpackBE32(data, offset + 8) == Success(mask)
    requires ParseCount(data, offset, h.length) == Success(count)
    ensures ParseCheckData(data, offset) == Success(CheckData(h.param, address, mask, count))
  {
    NewCheckDataOfParam(h.param, address, mask, count);
  }

  lemma {:induction false} RoundTripNop(c: Command, data: bytes, offset: nat)
    requires c.Nop? && Export(c).Success?
    requires offset + |Export(c).value| <= |data| && data[offset..offset + |Export(c).value|] == Export(c).value
    ensures ParseNop(data, offset) == Success(c)
  {
    ExportedHeader(c, data, offset);
  }

  lemma {:induction false} RoundTripSet(c: Command, data: bytes, offset: nat)
    requires c.Set? && Valid(c) && Export(c).Success?
    requires offset + |Export(c).value| <= |data| && data[offset..offset + |Export(c).value|] == Export(c).value
    ensures ParseSet(data, offset) == Success(c)
  {
    ExportedHeader(c, data, offset);
    var body := data[offset + 4..offset + 8];
    assert data[offset + 5] == body[1] && data[offset + 6] == body[2] && data[offset + 7] == body[3];
  }

  lemma {:induction false} RoundTripInitialize(c: Command, data: bytes, offset: nat)
    requires c.Initialize? && Valid(c) && Export(c).Success?
    requires offset + |Export(c).value| <= |data| && data[offset..offset + |Export(c).value|] == Export(c).value
    ensures ParseInitialize(data, offset) == Success(c)
  {
    ExportedHeader(c, data, offset);
    ParseWordsExport(c.words, data, offset, H.SIZE);
  }

  lemma {:induction false} RoundTripUnlock(c: Command, data: bytes, offset: nat)
    requires c.Unlock? && Valid(c) && Export(c).Success?
    requires offset + |Export(c).value| <= |data| && data[offset..offset + |Export(c).value|] == Export(c).value
    ensures ParseUnlock(data, offset) == Success(c)
  {
    ExportedHeader(c, data, offset);
    var body := data[offset + 4..offset + 16];
    assert data[offset + 4..offset + 8] == body[..4] == BE32(c.features);
    assert data[offset + 8..offset + 16] == body[4..] == BE64(c.uid);
    UnpackBE32At(data, offset + 4, c.features);
    UnpackBE64At(data, offset + 8, c.uid);
  }

  lemma {:induction false} RoundTripInstallKey(c: Command, data: bytes, offset: nat)
    requires c.InstallKey? && Valid(c) && Export(c).Success?
    requires offset + |Export(c).value| <= |data| && data[offset..offset + |Export(c).value|] == Export(c).value
    ensures ParseInstallKey(data, offset) == Success(c)
  {
    ExportedHeader(c, data, offset);
    var body := data[offset + 4..offset + 12];
    assert data[offset + 4] == body[0] && data[offset + 5] == body[1];
    assert data[offset + 6] == body[2] && data[offset + 7] == body[3];
    assert data[offset + 8..offset + 12] == body[4..] == BE32(c.location);
    UnpackBE32At(data, offset + 8, c.location);
  }

  lemma {:induction false} RoundTripAuthData(c: Command, data: bytes, offset: nat)
    requires c.AuthData? && Valid(c) && Export(c).Success?
    requires offset + |Export(c).value| <= |data| && data[offset..offset + |Export(c).value|] == Export(c).value
    ensures ParseAuthData(data, offset) == Success(c)
  {
    ExportedHeader(c, data, offset);
    var fields := [c.keyIndex, c.sigFormat, c.engine, c.engineCfg];
    SplitSlice(data, offset + 4, fields, BE32(c.location) + ExportPairs(c.blocks));
    SplitSlice(data, offset + 8, BE32(c.location), ExportPairs(c.blocks));
    assert data[offset + 4] == fields[0] && data[offset + 5] == fields[1];
    assert data[offset + 6] == fields[2] && data[offset + 7] == fields[3];
    UnpackBE32At(data, offset + 8, c.location);
    ParsePairsExport(c.blocks, data, offset, H.SIZE + 8);
    ParseAuthDataOf(data, offset, H.Header(H.CMD_AUT_DAT, c.flags, Size(c)), c.location, c.blocks);
  }

  /** ParseAuthData in terms of the header, the location word and the blocks. */
  lemma {:induction false} ParseAuthDataOf(data: bytes, offset: nat, h: H.Header, location: u32, bs: seq<Pair>)
    requires H.Parse(data, offset, Some(H.CMD_AUT_DAT)) == Success(h)
    requires offset + 12 <= |data| && UnpackBE32(data, offset + 8) == Success(location)
    requires data[offset + 4] in KEY_INDEXES && data[offset + 6] in ENGINES
    requires ParsePairs(data, offset, H.SIZE + 8, h.length) == Success(bs)
    ensures ParseAuthData(data, offset)
         == Success(AuthData(h.param, data[offset + 4], data[offset + 5], data[offset + 6], data[offset + 7], location, bs))
  {
    var c := AuthData(h.param, data[offset + 4], SIG_FORMAT_CMS, data[offset + 6], data[offset + 7], location, []);
    assert NewAuthData(h.param, data[offset + 4], data[offset + 6], data[offset + 7], location) == Success(c);
  }

  /**
   * Every valid command survives export followed by parse as its own class,
   * wherever the exported bytes sit in a larger buffer.
   */
  lemma {:induction false} RoundTrip(c: Command, data: bytes, offset: nat)
    requires Valid(c) && Export(c).Success?
    requires offset + |Export(c).value| <= |data| && data[offset..offset + |Export(c).value|] == Export(c).value
    ensures ParseAs(KindOf(c), data, offset) == Success(c)
  {
    var k := KindOf(c);
    if k == KWrite {
      RoundTripWriteData(c, data, offset);
    } else if k == KCheck {
      RoundTripCheckData(c, data, offset);
    } else if k == KNop {
      RoundTripNop(c, data, offset);
    } else if k == KSet {
      RoundTripSet(c, data, offset);
    } else if k == KInit {
      RoundTripInitialize(c, data, offset);
    } else if k == KUnlock {
      RoundTripUnlock(c, data, offset);
    } else if k == KInstallKey {
      RoundTripInstallKey(c, data, offset);
    } else {
      RoundTripAuthData(c, data, offset);
    }
  }

  /** Parse is idempotent on its own output: exporting a parsed command and parsing again gives the same command. */
  lemma {:induction false} ParseExportParse(k: Kind, data: bytes, offset: nat)
    requires ParseAs(k, data, offset).Success?
    requires Export(ParseAs(k, data, offset).value).Success?
    ensures ParseAs(k, Export(ParseAs(k, data, offset).value).value, 0) == ParseAs(k, data, offset)
  {
    var c := ParseAs(k, data, offset).value;
    var e := Export(c).value;
    assert e[0..|e|] == e;
    RoundTrip(c, e, 0);
  }

  // ---------------------------------------------------------------------------
  // Equality (`__eq__`, with `self` the first argument)

  /**
   * Write Data and Authenticate Data compare size and fields and then only check
   * that every entry of the other object is among their own entries; Initialize
   * compares size and engine only; any two Nops are equal.
   */
  predicate Equal(a: Command, b: Command)
  {
    match a
    case WriteData(p, ps) =>
      b.WriteData? && Size(a) == Size(b) && Width(p) == Width(b.param) && OpsOf(p) == OpsOf(b.param)
      && (forall i :: 0 <= i < |b.pairs| ==> b.pairs[i] in ps)
    case CheckData(p, ad, m, n) =>
      b.CheckData? && Width(p) == Width(b.param) && OpsOf(p) == OpsOf(b.param)
      && ad == b.address && m == b.mask && n == b.count
    case Nop(_) => b.Nop?
    case Set(itm, alg, eng, cfg) =>
      b.Set? && Size(a) == Size(b) && itm == b.itm && alg == b.hashAlg && eng == b.engine && cfg == b.engineCfg
    case Initialize(eng, _, _) => b.Initialize? && Size(a) == Size(b) && eng == b.engine
    case Unlock(eng, f, uid) =>
      b.Unlock? && Size(a) == Size(b) && eng == b.engine && f == b.features && uid == b.uid
    case InstallKey(flags, fmt, alg, src, tgt, loc) =>
      b.InstallKey? && Size(a) == Size(b) && flags == b.flags && fmt == b.certFormat && alg == b.hashAlg
      && src == b.sourceIndex && tgt == b.targetIndex && loc == b.location
    case AuthData(flags, key, _, eng, cfg, loc, bs) =>
      b.AuthData? && Size(a) == Size(b) && flags == b.flags && key == b.keyIndex && eng == b.engine
      && cfg == b.engineCfg && loc == b.location
      && (forall i :: 0 <= i < |b.blocks| ==> b.blocks[i] in bs)
  }

  lemma {:induction false} EqualReflexive(c: Command)
    ensures Equal(c, c)
  {
  }

  /** Equal valid commands of the fixed-layout classes are the same command. */
  lemma {:induction false} EqualFixedLayoutIsIdentity(a: Command, b: Command)
    requires Valid(a) && Valid(b) && (a.CheckData? || a.Set? || a.Unlock? || a.InstallKey?)
    ensures Equal(a, b) <==> a == b
  {
    if Equal(a, b) && a.CheckData? {
      ParamDeterminedByFields(a.param);
      ParamDeterminedByFields(b.param);
    }
  }

  /** Write Data equality is not symmetric: a repeated pair hides a missing one. */
  lemma {:induction false} WriteDataEqualIsNotSymmetric()
    ensures var a, b := WriteData(0x04, [Pair(1, 1), Pair(1, 1)]), WriteData(0x04, [Pair(1, 1), Pair(2, 2)]);
      Valid(a) && Valid(b) && Equal(b, a) && !Equal(a, b)
  {
    var a, b := WriteData(0x04, [Pair(1, 1), Pair(1, 1)]), WriteData(0x04, [Pair(1, 1), Pair(2, 2)]);
    assert Width(0x04) == 4 && HighBits(0x04) == 0;
    assert b.pairs[1] == Pair(2, 2) && Pair(2, 2) !in a.pairs;
  }

  /** Initialize equality ignores the words. */
  lemma {:induction false} InitializeEqualIgnoresWords()
    ensures Equal(Initialize(0, 8, [1]), Initialize(0, 8, [2]))
  {
  }
}
