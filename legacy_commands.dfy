// The command values of the older codec copy (src/imx/im/commands.py): what each
// command object holds, what its `export` writes, and what its in-place `parse`
// leaves behind. The objects themselves, with their loops, are in LegacyCommandObjects.
//
// Unlike the newer codec, every `parse` here overwrites the object it is called on
// and appends to the lists the object already holds, and an exception raised half
// way leaves the fields and list items assigned so far in place; the functions below
// describe that state, not only the successful result.
module LegacyCommands {
  import opened Base
  import opened Pack
  import H = ImgHeader
  import C = ImgCommands

  /** `EnumInsKey`: the flags the Install Key parameter setter accepts. */
  const INS_KEY_FLAGS: set<int> := {0, 1, 2, 4, 8, 16, 32, 64, 128}

  /** `EnumAuth`: the flags of Authenticate Data. */
  const AUTH_FLAGS: set<int> := {0, 1}

  /** One `CmdSet` entry: algorithm, engine and its configuration byte. */
  datatype Entry = Entry(alg: byte, eng: byte, cfg: byte)

  /**
   * The state of each command object. `param` and `length` are its header's; Check
   * Data and Unlock have no `length` because their size is computed and `export`
   * overwrites the header length with it. Install Key hash words and the lists of
   * the others are what `parse` and `append` put there.
   */
  datatype Cmd =
    | WriteData(param: byte, length: int, pairs: seq<C.Pair>)
    | CheckData(param: byte, address: u32, mask: u32, count: Option<u32>)
    | Nop(param: byte, length: int)
    | Set(param: byte, length: int, entries: seq<Entry>)
    | Initialize(param: byte, length: int, words: seq<u32>)
    | Unlock(param: byte, words: seq<u32>)
    | InstallKey(param: byte, length: int, pcl: byte, alg: byte, src: byte, tgt: byte, keydat: u32, hash: seq<u32>)
    | AuthData(param: byte, length: int, key: byte, pcl: byte, eng: byte, cfg: byte, authStart: u32, blocks: seq<C.Pair>)

  /** The eight command classes. */
  datatype Kind = KWrite | KCheck | KNop | KSet | KInit | KUnlock | KInstallKey | KAuthData

  function KindOf(c: Cmd): Kind
  {
    match c
    case WriteData(_, _, _) => KWrite
    case CheckData(_, _, _, _) => KCheck
    case Nop(_, _) => KNop
    case Set(_, _, _) => KSet
    case Initialize(_, _, _) => KInit
    case Unlock(_, _) => KUnlock
    case InstallKey(_, _, _, _, _, _, _, _) => KInstallKey
    case AuthData(_, _, _, _, _, _, _, _) => KAuthData
  }

  /** The header tag each class is built with (`CmdTag`). */
  function TagOf(k: Kind): byte
  {
    match k
    case KWrite => H.CMD_WRT_DAT
    case KCheck => H.CMD_CHK_DAT
    case KNop => H.CMD_NOP
    case KSet => H.CMD_SET
    case KInit => H.CMD_INIT
    case KUnlock => H.CMD_UNLK
    case KInstallKey => H.CMD_INS_KEY
    case KAuthData => H.CMD_AUT_DAT
  }

  /** Different classes have different tags, so a header claims at most one class. */
  lemma {:induction false} TagsDistinct(a: Kind, b: Kind)
    requires a != b
    ensures TagOf(a) != TagOf(b)
  {
  }

  /**
   * The `size` property: 12 or 16 for Check Data, 4 plus four per word for Unlock,
   * and the header length for every other class.
   */
  function Size(c: Cmd): (r: int)
    ensures c.CheckData? ==> (r == 12 <==> c.count.None?) && (r == 16 <==> c.count.Some?)
    ensures c.Unlock? ==> r == H.SIZE + 4 * |c.words|
    ensures !c.CheckData? && !c.Unlock? ==> r == c.length
  {
    match c
    case CheckData(_, _, _, count) => if count.None? then 12 else 16
    case Unlock(_, ws) => H.SIZE + 4 * |ws|
    case WriteData(_, length, _) => length
    case Nop(_, length) => length
    case Set(_, length, _) => length
    case Initialize(_, length, _) => length
    case InstallKey(_, length, _, _, _, _, _, _) => length
    case AuthData(_, length, _, _, _, _, _, _) => length
  }

  /** What the enumerated setters would let through: the fields `parse` also asserts. */
  predicate Valid(c: Cmd)
  {
    match c
    case InstallKey(_, _, pcl, alg, _, _, _, _) => pcl in C.CERT_FORMATS && alg in C.ALGORITHMS
    case AuthData(_, _, _, pcl, eng, _, _, _) => pcl in C.CERT_FORMATS && eng in C.ENGINES
    case _ => true
  }

  // ---------------------------------------------------------------------------
  // Export

  /** `pack("4B", 0, alg, eng, cfg)` per entry. */
  function ExportEntries(es: seq<Entry>): (r: bytes)
    ensures |r| == 4 * |es|
  {
    if |es| == 0 then [] else [0, es[0].alg, es[0].eng, es[0].cfg] + ExportEntries(es[1..])
  }

  /** What follows the header in `export()`. */
  function Body(c: Cmd): bytes
  {
    match c
    case WriteData(_, _, ps) => C.ExportPairs(ps)
    case CheckData(_, a, m, n) => BE32(a) + BE32(m) + (if n.Some? then BE32(n.value) else [])
    case Nop(_, _) => []
    case Set(_, _, es) => ExportEntries(es)
    case Initialize(_, _, ws) => C.ExportWords(ws)
    case Unlock(_, ws) => C.ExportWords(ws)
    case InstallKey(_, _, pcl, alg, src, tgt, keydat, hash) => [pcl, alg, src, tgt] + BE32(keydat) + C.ExportWords(hash)
    case AuthData(_, _, key, pcl, eng, cfg, start, bs) => [key, pcl, eng, cfg] + BE32(start) + C.ExportPairs(bs)
  }

  /**
   * `export()`: the header with the command's tag, parameter and size, then the body.
   * A size outside 16 bits raises struct.error; so does an Install Key with hash
   * words, because `parse` stores each of them as a one-element tuple, which
   * `pack(">L", ...)` refuses.
   */
  function Export(c: Cmd): (r: Result<bytes>)
    ensures r.Success? <==> Fits(Size(c), 2) && !(c.InstallKey? && |c.hash| > 0)
    ensures r.Failure? ==> r.error == StructErr
    ensures r.Success? ==> |r.value| == H.SIZE + |Body(c)|
    ensures r.Success? ==> r.value[0] == TagOf(KindOf(c)) && r.value[3] == c.param
    ensures r.Success? ==> FromBE(r.value[1..3]) == Size(c)
  {
    var h :- H.Export(H.Header(TagOf(KindOf(c)), c.param, Size(c)));
    if c.InstallKey? && |c.hash| > 0 then Failure(StructErr)
    else
      assert (h + Body(c))[1..3] == h[1..3];
      Success(h + Body(c))
  }

  /** The size a command declares is the number of bytes its export writes. */
  predicate Consistent(c: Cmd)
  {
    Size(c) == H.SIZE + |Body(c)|
  }

  // ---------------------------------------------------------------------------
  // The element loops of `parse`

  /** How many times `while index < length: index += step` runs. */
  function Rounds(index: int, length: int, step: nat): nat
    requires step > 0
    decreases length - index
  {
    if index >= length then 0 else 1 + Rounds(index + step, length, step)
  }

  /** When the declared length is `step` times `n` past the start, the loop runs `n` times. */
  lemma {:induction false} RoundsExact(index: int, n: nat, step: nat)
    requires step > 0
    ensures Rounds(index, index + step * n, step) == n
    decreases n
  {
    if n > 0 {
      assert index + step * n == (index + step) + step * (n - 1);
      RoundsExact(index + step, n - 1, step);
    }
  }

  /** A length that is not a whole number of steps past the start still reads a last, whole item. */
  lemma {:induction false} RoundsRoundUp(index: int, n: nat, step: nat, extra: nat)
    requires step > 0 && 0 < extra < step
    ensures Rounds(index, index + step * n + extra, step) == n + 1
    decreases n
  {
    if n == 0 {
      assert Rounds(index + step, index + extra, step) == 0;
    } else {
      assert index + step * n + extra == (index + step) + step * (n - 1) + extra;
      RoundsRoundUp(index + step, n - 1, step, extra);
    }
  }

  /** The big-endian u32 at `at`. */
  function Word(data: bytes, at: nat): u32
    requires at + 4 <= |data|
  {
    UnpackBE32(data, at).value
  }

  /**
   * The `>LL` loop of Write Data (`guarded`: it first asserts that `at + index` is
   * inside the data) and of Authenticate Data (no assertion): the pairs it appends
   * before it ends, and how it ends.
   */
  function ReadPairs(data: bytes, at: nat, index: nat, length: int, guarded: bool): (r: Partial<C.Pair>)
    decreases length - index
    ensures r.end.Pass? ==> |r.items| == Rounds(index, length, 8)
    ensures r.end.Pass? ==> at + index + 8 * |r.items| <= |data| || |r.items| == 0
    ensures r.end.Fail? ==> r.end.error == StructErr || (guarded && r.end.error == AssertErr)
  {
    if index >= length then Partial([], Pass)
    else if guarded && at + index >= |data| then Partial([], Fail(AssertErr))
    else if at + index + 8 > |data| then Partial([], Fail(StructErr))
    else
      var rest := ReadPairs(data, at, index + 8, length, guarded);
      Partial([C.Pair(Word(data, at + index), Word(data, at + index + 4))] + rest.items, rest.end)
  }

  /** The `>L` loop of Initialize, Unlock and the Install Key hash, which asserts first. */
  function ReadWords(data: bytes, at: nat, index: nat, length: int): (r: Partial<u32>)
    decreases length - index
    ensures r.end.Pass? ==> |r.items| == Rounds(index, length, 4)
    ensures r.end.Pass? ==> at + index + 4 * |r.items| <= |data| || |r.items| == 0
    ensures r.end.Fail? ==> r.end.error == StructErr || r.end.error == AssertErr
  {
    if index >= length then Partial([], Pass)
    else if at + index >= |data| then Partial([], Fail(AssertErr))
    else if at + index + 4 > |data| then Partial([], Fail(StructErr))
    else
      var rest := ReadWords(data, at, index + 4, length);
      Partial([Word(data, at + index)] + rest.items, rest.end)
  }

  /** The `4B` loop of Set, which asserts first and drops the leading byte of each entry. */
  function ReadEntries(data: bytes, at: nat, index: nat, length: int): (r: Partial<Entry>)
    decreases length - index
    ensures r.end.Pass? ==> |r.items| == Rounds(index, length, 4)
    ensures r.end.Pass? ==> at + index + 4 * |r.items| <= |data| || |r.items| == 0
    ensures r.end.Fail? ==> r.end.error == StructErr || r.end.error == AssertErr
  {
    if index >= length then Partial([], Pass)
    else if at + index >= |data| then Partial([], Fail(AssertErr))
    else if at + index + 4 > |data| then Partial([], Fail(StructErr))
    else
      var p := at + index;
      var rest := ReadEntries(data, at, index + 4, length);
      Partial([Entry(data[p + 1], data[p + 2], data[p + 3])] + rest.items, rest.end)
  }

  // ---------------------------------------------------------------------------
  // parse

  /** The object each class's constructor builds with its default arguments. */
  function Fresh(k: Kind): (c: Cmd)
    ensures KindOf(c) == k && Valid(c)
  {
    match k
    case KWrite => WriteData(C.MakeParam(4, 0), H.SIZE, [])
    case KCheck => CheckData(C.MakeParam(4, 1), 0, 0, None)
    case KNop => Nop(0, H.SIZE)
    case KSet => Set(0x03, H.SIZE, [])
    case KInit => Initialize(0x00, H.SIZE, [])
    case KUnlock => Unlock(0x00, [])
    case KInstallKey => InstallKey(0, H.SIZE, 0x03, 0x00, 0, 0, 0, [])
    case KAuthData => AuthData(0, H.SIZE, 0, 0x03, 0x00, 0, 0, [])
  }

  /** The command with the header values `parse` read into it. */
  function WithHeader(c: Cmd, h: H.Header): (r: Cmd)
    ensures KindOf(r) == KindOf(c) && r.param == h.param
    ensures !r.CheckData? && !r.Unlock? ==> r.length == h.length
  {
    match c
    case WriteData(_, _, ps) => WriteData(h.param, h.length, ps)
    case CheckData(_, a, m, n) => CheckData(h.param, a, m, n)
    case Nop(_, _) => Nop(h.param, h.length)
    case Set(_, _, es) => Set(h.param, h.length, es)
    case Initialize(_, _, ws) => Initialize(h.param, h.length, ws)
    case Unlock(_, ws) => Unlock(h.param, ws)
    case InstallKey(_, _, pcl, alg, src, tgt, kd, hs) => InstallKey(h.param, h.length, pcl, alg, src, tgt, kd, hs)
    case AuthData(_, _, key, pcl, eng, cfg, st, bs) => AuthData(h.param, h.length, key, pcl, eng, cfg, st, bs)
  }

  /**
   * What the body of `parse` does once the header, whose length is `len`, has been
   * read into `c`: Check Data reads a count only when `len` exceeds 12; Install Key
   * and Authenticate Data assign their fixed fields one by one through their
   * setters, so a protocol, algorithm or engine outside its enumeration raises with
   * the earlier fields already assigned; the list loops append to what is there.
   */
  function ParseBody(c: Cmd, len: int, data: bytes, offset: nat): (r: (Cmd, Outcome))
    ensures KindOf(r.0) == KindOf(c) && r.0.param == c.param
    ensures !r.0.CheckData? && !r.0.Unlock? ==> r.0.length == c.length
  {
    var at := offset + H.SIZE;
    match c
    case WriteData(p, l, ps) =>
      var rd := ReadPairs(data, offset, H.SIZE, len, true);
      (WriteData(p, l, ps + rd.items), rd.end)
    case CheckData(p, _, _, _) =>
      if len - H.SIZE > 8 then
        if |data| < at + 12 then (c, Fail(StructErr))
        else (CheckData(p, Word(data, at), Word(data, at + 4), Some(Word(data, at + 8))), Pass)
      else if |data| < at + 8 then (c, Fail(StructErr))
      else (CheckData(p, Word(data, at), Word(data, at + 4), None), Pass)
    case Nop(_, _) => (c, Pass)
    case Set(p, l, es) =>
      var rd := ReadEntries(data, offset, H.SIZE, len);
      (Set(p, l, es + rd.items), rd.end)
    case Initialize(p, l, ws) =>
      var rd := ReadWords(data, offset, H.SIZE, len);
      (Initialize(p, l, ws + rd.items), rd.end)
    case Unlock(p, ws) =>
      var rd := ReadWords(data, offset, H.SIZE, len);
      (Unlock(p, ws + rd.items), rd.end)
    case InstallKey(p, l, pcl, alg, src, tgt, kd, hs) =>
      if |data| < at + 8 then (c, Fail(StructErr))
      else if data[at] !in C.CERT_FORMATS then (c, Fail(AssertErr))
      else if data[at + 1] !in C.ALGORITHMS then (InstallKey(p, l, data[at], alg, src, tgt, kd, hs), Fail(AssertErr))
      else
        var rd := ReadWords(data, offset, H.SIZE + 8, len);
        (InstallKey(p, l, data[at], data[at + 1], data[at + 2], data[at + 3], Word(data, at + 4), hs + rd.items), rd.end)
    case AuthData(p, l, key, pcl, eng, cfg, st, bs) =>
      if |data| < at + 8 then (c, Fail(StructErr))
      else if data[at + 1] !in C.CERT_FORMATS then (AuthData(p, l, data[at], pcl, eng, cfg, st, bs), Fail(AssertErr))
      else if data[at + 2] !in C.ENGINES then (AuthData(p, l, data[at], data[at + 1], eng, cfg, st, bs), Fail(AssertErr))
      else
        var rd := ReadPairs(data, offset, H.SIZE + 8, len, false);
        (AuthData(p, l, data[at], data[at + 1], data[at + 2], data[at + 3], Word(data, at + 4), bs + rd.items), rd.end)
  }

  /**
   * `parse(data, offset)` called on an object holding `c`: the header parse raises
   * (struct.error on a short buffer, UnparsedException on another tag) before anything
   * changes; otherwise the header values are kept whatever the body then does.
   */
  function ParseInto(c: Cmd, data: bytes, offset: nat): (r: (Cmd, Outcome))
    ensures KindOf(r.0) == KindOf(c)
    ensures r.1 == Fail(Unparsed) <==> offset + H.SIZE <= |data| && data[offset] != TagOf(KindOf(c))
    ensures r.1 == Fail(Unparsed) ==> r.0 == c
    ensures r.1.Pass? ==> offset + H.SIZE <= |data| && r.0.param == data[offset + 3]
  {
    match H.Parse(data, offset, Some(TagOf(KindOf(c))))
    case Failure(e) => (c, Fail(e))
    case Success(h) => ParseBody(WithHeader(c, h), h.length, data, offset)
  }
  // ---------------------------------------------------------------------------
  // Round trips

  lemma {:induction false} ReadPairsExport(ps: seq<C.Pair>, data: bytes, at: nat, index: nat, guarded: bool)
    requires at + index + 8 * |ps| <= |data|
    requires data[at + index..at + index + 8 * |ps|] == C.ExportPairs(ps)
    ensures ReadPairs(data, at, index, index + 8 * |ps|, guarded) == Partial(ps, Pass)
    decreases |ps|
  {
    if |ps| > 0 {
      var p := at + index;
      var a, v, tail := BE32(ps[0].first), BE32(ps[0].second), C.ExportPairs(ps[1..]);
      assert C.ExportPairs(ps) == a + (v + tail);
      SplitSlice(data, p, a, v + tail);
      SplitSlice(data, p + 4, v, tail);
      UnpackBE32At(data, p, ps[0].first);
      UnpackBE32At(data, p + 4, ps[0].second);
      ReadPairsExport(ps[1..], data, at, index + 8, guarded);
      assert [C.Pair(ps[0].first, ps[0].second)] + ps[1..] == ps;
    }
  }

  lemma {:induction false} ReadWordsExport(ws: seq<u32>, data: bytes, at: nat, index: nat)
    requires at + index + 4 * |ws| <= |data|
    requires data[at + index..at + index + 4 * |ws|] == C.ExportWords(ws)
    ensures ReadWords(data, at, index, index + 4 * |ws|) == Partial(ws, Pass)
    decreases |ws|
  {
    if |ws| > 0 {
      var p := at + index;
      var w, tail := BE32(ws[0]), C.ExportWords(ws[1..]);
      assert C.ExportWords(ws) == w + tail;
      assert p + |w| + |tail| == at + index + 4 * |ws|;
      SplitSlice(data, p, w, tail);
      UnpackBE32At(data, p, ws[0]);
      ReadWordsExport(ws[1..], data, at, index + 4);
      assert [ws[0]] + ws[1..] == ws;
    }
  }

  lemma {:induction false} ReadEntriesExport(es: seq<Entry>, data: bytes, at: nat, index: nat)
    requires at + index + 4 * |es| <= |data|
    requires data[at + index..at + index + 4 * |es|] == ExportEntries(es)
    ensures ReadEntries(data, at, index, index + 4 * |es|) == Partial(es, Pass)
    decreases |es|
  {
    if |es| > 0 {
      var p := at + index;
      var e := es[0];
      SplitSlice(data, p, [0, e.alg, e.eng, e.cfg], ExportEntries(es[1..]));
      assert data[p + 1] == e.alg && data[p + 2] == e.eng && data[p + 3] == e.cfg;
      ReadEntriesExport(es[1..], data, at, index + 4);
      assert [Entry(e.alg, e.eng, e.cfg)] + es[1..] == es;
    }
  }

  /** A header followed by a body: the header parses back and the body follows it. */
  lemma {:induction false} HeaderThenBody(hd: H.Header, body: bytes, data: bytes, offset: nat)
    requires H.Export(hd).Success?
    requires offset + H.SIZE + |body| <= |data| && data[offset..offset + H.SIZE + |body|] == H.Export(hd).value + body
    ensures H.Parse(data, offset, Some(hd.tag)) == Success(hd)
    ensures data[offset + H.SIZE..offset + H.SIZE + |body|] == body
  {
    SplitSlice(data, offset, H.Export(hd).value, body);
    H.ParseExport(hd, data, offset, Some(hd.tag));
  }

  /** The header of an exported command parses back to its parameter and size, and the body follows it. */
  lemma {:induction false} ExportedHeader(c: Cmd, data: bytes, offset: nat)
    requires Export(c).Success?
    requires offset + |Export(c).value| <= |data| && data[offset..offset + |Export(c).value|] == Export(c).value
    ensures H.Parse(data, offset, Some(TagOf(KindOf(c)))) == Success(H.Header(TagOf(KindOf(c)), c.param, Size(c)))
    ensures data[offset + H.SIZE..offset + H.SIZE + |Body(c)|] == Body(c)
  {
    var hd := H.Header(TagOf(KindOf(c)), c.param, Size(c));
    ExportLayout(c);
    HeaderThenBody(hd, Body(c), data, offset);
  }

  /** A successful export is the exported header followed by the body. */
  lemma {:induction false} ExportLayout(c: Cmd)
    requires Export(c).Success?
    ensures H.Export(H.Header(TagOf(KindOf(c)), c.param, Size(c))).Success?
    ensures Export(c).value == H.Export(H.Header(TagOf(KindOf(c)), c.param, Size(c))).value + Body(c)
  {
  }

  /** The premise of every round trip: `c` exported to `data` at `offset`. */
  predicate ExportedAt(c: Cmd, data: bytes, offset: nat)
  {
    Valid(c) && Consistent(c) && Export(c).Success? &&
    offset + |Export(c).value| <= |data| && data[offset..offset + |Export(c).value|] == Export(c).value
  }

  lemma {:induction false} RoundTripCheckData(c: Cmd, data: bytes, offset: nat)
    requires c.CheckData? && ExportedAt(c, data, offset)
    ensures ParseInto(Fresh(KindOf(c)), data, offset) == (c, Pass)
  {
    ExportedHeader(c, data, offset);
    var tail := if c.count.Some? then BE32(c.count.value) else [];
    assert Body(c) == BE32(c.address) + (BE32(c.mask) + tail);
    CheckDataWords(data, offset, Body(c), c.address, c.mask, c.count);
    CheckDataAssemble(c, data, offset);
  }

  /** The address, the mask and the optional count read back from the body that holds them. */
  lemma {:induction false} CheckDataWords(data: bytes, offset: nat, body: bytes, address: u32, mask: u32, count: Option<u32>)
    requires body == BE32(address) + (BE32(mask) + (if count.Some? then BE32(count.value) else []))
    requires offset + H.SIZE + |body| <= |data| && data[offset + H.SIZE..offset + H.SIZE + |body|] == body
    ensures offset + H.SIZE + 8 <= |data|
    ensures Word(data, offset + H.SIZE) == address && Word(data, offset + (H.SIZE + 4)) == mask
    ensures count.Some? ==> offset + H.SIZE + 12 <= |data| && Word(data, offset + (H.SIZE + 4 + 4)) == count.value
  {
    var tail := if count.Some? then BE32(count.value) else [];
    var rest := BE32(mask) + tail;
    SplitAfter(data, offset, H.SIZE, body, BE32(address), rest, 4);
    SplitAfter(data, offset, H.SIZE + 4, rest, BE32(mask), tail, 4);
    UnpackBE32At(data, offset + H.SIZE, address);
    UnpackBE32At(data, offset + (H.SIZE + 4), mask);
    if count.Some? {
      UnpackBE32At(data, offset + (H.SIZE + 4 + 4), count.value);
    }
  }

  /** The same, once the header and the words after it have been read back. */
  lemma {:induction false} CheckDataAssemble(c: Cmd, data: bytes, offset: nat)
    requires c.CheckData? && offset + H.SIZE + |Body(c)| <= |data|
    requires H.Parse(data, offset, Some(H.CMD_CHK_DAT)) == Success(H.Header(H.CMD_CHK_DAT, c.param, Size(c)))
    requires Word(data, offset + H.SIZE) == c.address && Word(data, offset + (H.SIZE + 4)) == c.mask
    requires c.count.Some? ==> Word(data, offset + (H.SIZE + 4 + 4)) == c.count.value
    ensures ParseInto(Fresh(KCheck), data, offset) == (c, Pass)
  {
    var h := H.Header(H.CMD_CHK_DAT, c.param, Size(c));
    assert WithHeader(Fresh(KCheck), h) == CheckData(c.param, 0, 0, None);
  }

  /** The Install Key body parse, on data that holds the fixed fields of `c`. */
  lemma {:induction false} InstallKeyBody(c: Cmd, data: bytes, offset: nat)
    requires c.InstallKey? && Valid(c) && c.hash == [] && c.length == H.SIZE + 8
    requires offset + H.SIZE + 8 <= |data|
    requires data[offset + H.SIZE..offset + H.SIZE + 4] == [c.pcl, c.alg, c.src, c.tgt]
    requires data[offset + H.SIZE + 4..offset + H.SIZE + 8] == BE32(c.keydat)
    ensures ParseBody(WithHeader(Fresh(KInstallKey), H.Header(H.CMD_INS_KEY, c.param, c.length)), c.length, data, offset) == (c, Pass)
  {
    var at := offset + H.SIZE;
    UnpackBE32At(data, at + 4, c.keydat);
    assert data[at] == c.pcl && data[at + 1] == c.alg && data[at + 2] == c.src && data[at + 3] == c.tgt;
    assert ReadWords(data, offset, H.SIZE + 8, c.length) == Partial([], Pass);
    assert [] + [] == c.hash;
  }

  lemma {:induction false} RoundTripInstallKey(c: Cmd, data: bytes, offset: nat)
    requires c.InstallKey? && ExportedAt(c, data, offset)
    ensures ParseInto(Fresh(KindOf(c)), data, offset) == (c, Pass)
  {
    ExportedHeader(c, data, offset);
    var at := offset + H.SIZE;
    var fixed := [c.pcl, c.alg, c.src, c.tgt];
    assert c.hash == [];
    assert Body(c) == fixed + BE32(c.keydat);
    SplitSlice(data, at, fixed, BE32(c.keydat));
    InstallKeyBody(c, data, offset);
  }

  /** The Authenticate Data body parse, on data that holds the fields and blocks of `c`. */
  lemma {:induction false} AuthDataBody(c: Cmd, data: bytes, offset: nat)
    requires c.AuthData? && Valid(c) && c.length == H.SIZE + 8 + 8 * |c.blocks|
    requires offset + c.length <= |data|
    requires data[offset + H.SIZE..offset + H.SIZE + 4] == [c.key, c.pcl, c.eng, c.cfg]
    requires data[offset + H.SIZE + 4..offset + H.SIZE + 8] == BE32(c.authStart)
    requires data[offset + H.SIZE + 8..offset + c.length] == C.ExportPairs(c.blocks)
    ensures ParseBody(WithHeader(Fresh(KAuthData), H.Header(H.CMD_AUT_DAT, c.param, c.length)), c.length, data, offset) == (c, Pass)
  {
    var at := offset + H.SIZE;
    UnpackBE32At(data, at + 4, c.authStart);
    assert data[at] == c.key && data[at + 1] == c.pcl && data[at + 2] == c.eng && data[at + 3] == c.cfg;
    assert H.SIZE + 8 + 8 * |c.blocks| == c.length;
    ReadPairsExport(c.blocks, data, offset, H.SIZE + 8, false);
    AuthDataAssemble(c, data, offset);
  }

  /** The same, once the fixed fields and the blocks have been read back. */
  lemma {:induction false} AuthDataAssemble(c: Cmd, data: bytes, offset: nat)
    requires c.AuthData? && c.pcl in C.CERT_FORMATS && c.eng in C.ENGINES && offset + H.SIZE + 8 <= |data|
    requires var at := offset + H.SIZE;
      data[at] == c.key && data[at + 1] == c.pcl && data[at + 2] == c.eng && data[at + 3] == c.cfg &&
      Word(data, at + 4) == c.authStart
    requires ReadPairs(data, offset, H.SIZE + 8, c.length, false) == Partial(c.blocks, Pass)
    ensures ParseBody(WithHeader(Fresh(KAuthData), H.Header(H.CMD_AUT_DAT, c.param, c.length)), c.length, data, offset) == (c, Pass)
  {
    var f := AuthData(c.param, c.length, 0, 0x03, 0x00, 0, 0, []);
    assert WithHeader(Fresh(KAuthData), H.Header(H.CMD_AUT_DAT, c.param, c.length)) == f;
    AuthDataFields(f, c.length, data, offset);
    assert f.blocks + c.blocks == c.blocks;
  }

  /** The Authenticate Data body parse when all eight fixed bytes are there and pass the setters. */
  lemma {:induction false} AuthDataFields(c: Cmd, len: int, data: bytes, offset: nat)
    requires c.AuthData? && offset + H.SIZE + 8 <= |data|
    requires data[offset + H.SIZE + 1] in C.CERT_FORMATS && data[offset + H.SIZE + 2] in C.ENGINES
    ensures var at, rd := offset + H.SIZE, ReadPairs(data, offset, H.SIZE + 8, len, false);
      ParseBody(c, len, data, offset)
      == (AuthData(c.param, c.length, data[at], data[at + 1], data[at + 2], data[at + 3], Word(data, at + 4), c.blocks + rd.items), rd.end)
  {
  }

  lemma {:induction false} RoundTripAuthData(c: Cmd, data: bytes, offset: nat)
    requires c.AuthData? && ExportedAt(c, data, offset)
    ensures ParseInto(Fresh(KindOf(c)), data, offset) == (c, Pass)
  {
    ExportedHeader(c, data, offset);
    var at := offset + H.SIZE;
    var fixed, st, bs := [c.key, c.pcl, c.eng, c.cfg], BE32(c.authStart), C.ExportPairs(c.blocks);
    assert Body(c) == fixed + (st + bs);
    SplitSlice(data, at, fixed, st + bs);
    SplitSlice(data, at + 4, st, bs);
    AuthDataBody(c, data, offset);
  }

  /** The premise of the list round trips: the list of `c` follows its header in `data`. */
  predicate ListAt(c: Cmd, data: bytes, offset: nat)
  {
    Consistent(c) && offset + Size(c) <= |data| && data[offset + H.SIZE..offset + Size(c)] == Body(c)
  }

  /** What `parse` gives a fresh object of the class of `c`, once the header of `c` has been read. */
  function BodyOfFresh(c: Cmd, data: bytes, offset: nat): (Cmd, Outcome)
  {
    ParseBody(WithHeader(Fresh(KindOf(c)), H.Header(TagOf(KindOf(c)), c.param, Size(c))), Size(c), data, offset)
  }

  lemma {:induction false} WriteDataBody(c: Cmd, data: bytes, offset: nat)
    requires c.WriteData? && ListAt(c, data, offset)
    ensures BodyOfFresh(c, data, offset) == (c, Pass)
  {
    ReadPairsExport(c.pairs, data, offset, H.SIZE, true);
    assert [] + c.pairs == c.pairs;
  }

  lemma {:induction false} SetBody(c: Cmd, data: bytes, offset: nat)
    requires c.Set? && ListAt(c, data, offset)
    ensures BodyOfFresh(c, data, offset) == (c, Pass)
  {
    ReadEntriesExport(c.entries, data, offset, H.SIZE);
    assert [] + c.entries == c.entries;
  }

  lemma {:induction false} InitializeBody(c: Cmd, data: bytes, offset: nat)
    requires c.Initialize? && ListAt(c, data, offset)
    ensures BodyOfFresh(c, data, offset) == (c, Pass)
  {
    ReadWordsExport(c.words, data, offset, H.SIZE);
    assert [] + c.words == c.words;
  }

  lemma {:induction false} UnlockBody(c: Cmd, data: bytes, offset: nat)
    requires c.Unlock? && ListAt(c, data, offset)
    ensures BodyOfFresh(c, data, offset) == (c, Pass)
  {
    ReadWordsExport(c.words, data, offset, H.SIZE);
    assert [] + c.words == c.words;
  }

  /**
   * Parsing what `export` wrote, into a freshly constructed object of the same class,
   * gives the command back, provided its declared size is the size of what it wrote.
   */
  lemma {:induction false} RoundTrip(c: Cmd, data: bytes, offset: nat)
    requires ExportedAt(c, data, offset)
    ensures ParseInto(Fresh(KindOf(c)), data, offset) == (c, Pass)
  {
    if c.CheckData? {
      RoundTripCheckData(c, data, offset);
    } else if c.InstallKey? {
      RoundTripInstallKey(c, data, offset);
    } else if c.AuthData? {
      RoundTripAuthData(c, data, offset);
    } else {
      ParseIntoBody(c, data, offset);
      if c.WriteData? {
        WriteDataBody(c, data, offset);
      } else if c.Set? {
        SetBody(c, data, offset);
      } else if c.Initialize? {
        InitializeBody(c, data, offset);
      } else if c.Unlock? {
        UnlockBody(c, data, offset);
      }
    }
  }

  /**
   * For the classes whose fields are a list after the header, `parse` reads the
   * exported header and hands the rest to the body reader.
   */
  lemma {:induction false} ParseIntoBody(c: Cmd, data: bytes, offset: nat)
    requires ExportedAt(c, data, offset) && !c.CheckData? && !c.InstallKey? && !c.AuthData?
    ensures ParseInto(Fresh(KindOf(c)), data, offset) == BodyOfFresh(c, data, offset)
    ensures ListAt(c, data, offset)
  {
    ExportedHeader(c, data, offset);
    var h := H.Header(TagOf(KindOf(c)), c.param, Size(c));
    assert ParseInto(Fresh(KindOf(c)), data, offset) == ParseBody(WithHeader(Fresh(KindOf(c)), h), Size(c), data, offset);
  }

  // ---------------------------------------------------------------------------
  // The length `CmdAuthData` starts from

  /**
   * What `CmdAuthData(flag, key, pcl, eng, cfg, auth_start)` holds after `append`
   * of each of `blocks`: the constructor leaves the header length at 4, so the
   * declared size counts the blocks but not the eight bytes of fixed fields.
   */
  function NewAuthData(flag: byte, key: byte, pcl: byte, eng: byte, cfg: byte, start: u32, blocks: seq<C.Pair>): (c: Cmd)
    ensures c.AuthData? && c.blocks == blocks && Size(c) + 8 == H.SIZE + |Body(c)|
  {
    AuthData(flag, H.SIZE + 8 * |blocks|, key, pcl, eng, cfg, start, blocks)
  }

  /**
   * As written, one appended block does not survive export and parse: the exported
   * header declares 12 bytes, which the fixed fields already fill, so `parse` reads
   * no block.
   */
  lemma {:induction false} NewAuthDataLosesBlock(flag: byte, key: byte, pcl: byte, eng: byte, cfg: byte, start: u32, b: C.Pair, data: bytes, offset: nat)
    requires pcl in C.CERT_FORMATS && eng in C.ENGINES
    requires Export(NewAuthData(flag, key, pcl, eng, cfg, start, [b])).Success?
    requires var e := Export(NewAuthData(flag, key, pcl, eng, cfg, start, [b])).value;
      offset + |e| <= |data| && data[offset..offset + |e|] == e
    ensures ParseInto(Fresh(KAuthData), data, offset) == (AuthData(flag, H.SIZE + 8, key, pcl, eng, cfg, start, []), Pass)
  {
    var c := NewAuthData(flag, key, pcl, eng, cfg, start, [b]);
    ExportedHeader(c, data, offset);
    var at := offset + H.SIZE;
    var fixed, st, bs := [key, pcl, eng, cfg], BE32(start), C.ExportPairs([b]);
    assert Body(c) == fixed + (st + bs);
    SplitSlice(data, at, fixed, st + bs);
    SplitSlice(data, at + 4, st, bs);
    var d := AuthData(flag, H.SIZE + 8, key, pcl, eng, cfg, start, []);
    assert data[offset + H.SIZE + 8..offset + d.length] == C.ExportPairs(d.blocks);
    AuthDataBody(d, data, offset);
  }

  /**
   * The constructor with the length the newer codec's `CmdAuthData` starts from,
   * 12: the declared size is then the exported size, whatever blocks follow.
   */
  function NewAuthDataCorrected(flag: byte, key: byte, pcl: byte, eng: byte, cfg: byte, start: u32, blocks: seq<C.Pair>): (c: Cmd)
    ensures c.AuthData? && c.blocks == blocks && Consistent(c)
  {
    AuthData(flag, H.SIZE + 8 + 8 * |blocks|, key, pcl, eng, cfg, start, blocks)
  }

  /** With the corrected length every block survives export and parse. */
  lemma {:induction false} NewAuthDataCorrectedRoundTrip(flag: byte, key: byte, pcl: byte, eng: byte, cfg: byte, start: u32, blocks: seq<C.Pair>, data: bytes, offset: nat)
    requires pcl in C.CERT_FORMATS && eng in C.ENGINES
    requires Export(NewAuthDataCorrected(flag, key, pcl, eng, cfg, start, blocks)).Success?
    requires var e := Export(NewAuthDataCorrected(flag, key, pcl, eng, cfg, start, blocks)).value;
      offset + |e| <= |data| && data[offset..offset + |e|] == e
    ensures ParseInto(Fresh(KAuthData), data, offset) == (NewAuthDataCorrected(flag, key, pcl, eng, cfg, start, blocks), Pass)
  {
    RoundTrip(NewAuthDataCorrected(flag, key, pcl, eng, cfg, start, blocks), data, offset);
  }
}
