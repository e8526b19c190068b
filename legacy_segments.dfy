// The segments of the older codec copy (src/imx/im/segments.py). Each is an object:
// `parse` overwrites its header and fields in place, `export` writes them back with
// the zero padding when asked for, and the DCD and CSF segments keep a list of
// commands that `append`, `pop` and `clear` edit and `parse` appends to.
module LegacySegments {
  import opened Base
  import opened Pack
  import H = ImgHeader
  import LH = LegacyHeader
  import S = ImgSegments
  import C = ImgCommands
  import L = LegacyCommands
  import LO = LegacyCommandObjects

  // ---------------------------------------------------------------------------
  // SegIVT: a header (tag 0xD1, parameter = version, length 32) and `<7L`

  /** `SegIVT`: the header object and the seven words; the setters take any value. */
  class IvtSegment {
    const header: LH.Header
    var app: int
    var rs1: int
    var dcd: int
    var bdt: int
    var ivt: int
    var csf: int
    var rs2: int
    var padding: int

    /** The words in the order `<7L` packs them. */
    function Fields(): (r: seq<int>)
      reads this
      ensures |r| == |S.IVT2_FMT|
    {
      [app, rs1, dcd, bdt, ivt, csf, rs2]
    }

    /** `SegIVT(version)`: every word zero and the header length the header plus the words. */
    constructor (version: byte)
      ensures fresh(header) && header.tag == H.TAG_IVT2 && header.param == version
      ensures header.length == S.IVT2_SIZE && Fields() == [0, 0, 0, 0, 0, 0, 0] && padding == 0
    {
      header := new LH.Header(H.TAG_IVT2, version);
      app, rs1, dcd, bdt, ivt, csf, rs2 := 0, 0, 0, 0, 0, 0, 0;
      padding := 0;
      new;
      S.FormatSizes();
      header.length := H.SIZE + FmtSize(S.IVT2_FMT);
    }

    /** `size`: the header length. */
    function Size(): int
      reads header
    {
      header.length
    }

    /**
     * `parse(data, offset)`: the header parse (which may raise before anything
     * changes), then the seven words at `offset + 4`; a buffer too short for them
     * raises struct.error with the header already overwritten.
     */
    method Parse(data: bytes, offset: nat) returns (o: Outcome)
      requires header.tag == H.TAG_IVT2
      modifies this, header
      ensures var h := H.Parse(data, offset, Some(H.TAG_IVT2));
        && (h.Failure? ==> o == Fail(h.error) && header.Value() == old(header.Value()))
        && (h.Success? ==> header.Value() == h.value)
      ensures o.Pass? <==> H.Parse(data, offset, Some(H.TAG_IVT2)).Success? && offset + S.IVT2_SIZE <= |data|
      ensures o.Pass? ==> UnpackFmt(S.IVT2_FMT, data, offset + H.SIZE) == Success(Fields())
      ensures o.Fail? ==> Fields() == old(Fields()) && (o.error == StructErr || o.error == Unparsed)
      ensures H.Parse(data, offset, Some(H.TAG_IVT2)).Success? && o.Fail? ==> o.error == StructErr
      ensures padding == old(padding)
    {
      S.FormatSizes();
      o := header.Parse(data, offset);
      if o.Fail? {
        return;
      }
      var f := UnpackFmt(S.IVT2_FMT, data, offset + H.SIZE);
      if f.Failure? {
        return Fail(StructErr);
      }
      app, rs1, dcd, bdt, ivt, csf, rs2 := f.value[0], f.value[1], f.value[2], f.value[3], f.value[4], f.value[5], f.value[6];
      assert Fields() == f.value;
    }

    /** `export(padding)`: header, the seven words, then the padding when asked for. */
    function Export(pad: bool): (r: Result<bytes>)
      reads this, header
      ensures r.Success? <==> Fits(header.length, 2) && FieldsFit(Fields(), S.IVT2_FMT)
      ensures r.Failure? ==> r.error == StructErr
      ensures r.Success? ==> |r.value| == S.IVT2_SIZE + (if pad then Max(0, padding) else 0)
      ensures r.Success? ==> r.value[..S.IVT2_SIZE] == header.Export().value + PackFmt(S.IVT2_FMT, Fields()).value
    {
      S.FormatSizes();
      var hd :- header.Export();
      var body :- PackFmt(S.IVT2_FMT, Fields());
      Success(S.Padded(hd + body, pad, padding))
    }
  }

  /**
   * What an IVT exports reads back: the header with its tag, and the seven words,
   * which is what `IvtSegment.Parse` then stores.
   */
  lemma {:induction false} IvtRoundTrip(s: IvtSegment, pad: bool, data: bytes, offset: nat)
    requires s.Export(pad).Success?
    requires offset + S.IVT2_SIZE <= |data| && data[offset..offset + S.IVT2_SIZE] == s.Export(pad).value[..S.IVT2_SIZE]
    ensures H.Parse(data, offset, Some(s.header.tag)) == Success(s.header.Value())
    ensures UnpackFmt(S.IVT2_FMT, data, offset + H.SIZE) == Success(s.Fields())
  {
    S.FormatSizes();
    var hd, body := s.header.Export().value, PackFmt(S.IVT2_FMT, s.Fields()).value;
    SplitSlice(data, offset, hd, body);
    H.ParseExport(s.header.Value(), data, offset, Some(s.header.tag));
    UnpackFmtOfPackFmt(S.IVT2_FMT, s.Fields(), data, offset + H.SIZE);
  }

  // ---------------------------------------------------------------------------
  // SegBDT: `<3L`, no header

  /** `SegBDT(start, length, plugin)`: three words the setters do not check. */
  class BdtSegment {
    var start: int
    var length: int
    var plugin: int
    var padding: int

    function Fields(): (r: seq<int>)
      reads this
      ensures |r| == |S.BDT_FMT|
    {
      [start, length, plugin]
    }

    constructor (start: int, length: int, plugin: int)
      ensures Fields() == [start, length, plugin] && padding == 0
    {
      this.start, this.length, this.plugin := start, length, plugin;
      padding := 0;
    }

    /** `parse(data, offset)`: the three words, or struct.error with nothing changed. */
    method Parse(data: bytes, offset: nat) returns (o: Outcome)
      modifies this
      ensures o.Pass? <==> offset + S.BDT_SIZE <= |data|
      ensures o.Pass? ==> UnpackFmt(S.BDT_FMT, data, offset) == Success(Fields())
      ensures o.Fail? ==> o.error == StructErr && Fields() == old(Fields())
      ensures padding == old(padding)
    {
      S.FormatSizes();
      var f := UnpackFmt(S.BDT_FMT, data, offset);
      if f.Failure? {
        return Fail(StructErr);
      }
      start, length, plugin := f.value[0], f.value[1], f.value[2];
      assert Fields() == f.value;
      return Pass;
    }

    /** `export(padding)`: the three words, then the padding when asked for. */
    function Export(pad: bool): (r: Result<bytes>)
      reads this
      ensures r.Success? <==> FieldsFit(Fields(), S.BDT_FMT)
      ensures r.Failure? ==> r.error == StructErr
      ensures r.Success? ==> |r.value| == S.BDT_SIZE + (if pad then Max(0, padding) else 0)
      ensures r.Success? ==> r.value[..S.BDT_SIZE] == PackFmt(S.BDT_FMT, Fields()).value
    {
      S.FormatSizes();
      var body :- PackFmt(S.BDT_FMT, Fields());
      Success(S.Padded(body, pad, padding))
    }
  }

  /** What a BDT exports reads back as its three words. */
  lemma {:induction false} BdtRoundTrip(s: BdtSegment, pad: bool, data: bytes, offset: nat)
    requires s.Export(pad).Success?
    requires offset + S.BDT_SIZE <= |data| && data[offset..offset + S.BDT_SIZE] == s.Export(pad).value[..S.BDT_SIZE]
    ensures UnpackFmt(S.BDT_FMT, data, offset) == Success(s.Fields())
  {
    S.FormatSizes();
    UnpackFmtOfPackFmt(S.BDT_FMT, s.Fields(), data, offset);
  }

  // ---------------------------------------------------------------------------
  // SegAPP: the payload, None until set

  class AppSegment {
    var data: Option<bytes>
    var padding: int

    constructor (data: Option<bytes>)
      ensures this.data == data && padding == 0
    {
      this.data := data;
      padding := 0;
    }

    /** `size`: the payload length; `len(None)` raises TypeError. */
    function Size(): (r: Result<int>)
      reads this
      ensures r.Success? <==> data.Some?
      ensures r.Success? ==> r.value == |data.value|
      ensures r.Failure? ==> r.error == TypeErr
    {
      if data.None? then Failure(TypeErr) else Success(|data.value|)
    }

    /**
     * `export(padding)`: the payload as it is; asking for padding appends zeros,
     * which on a payload of None raises TypeError even when there are none to add.
     */
    function Export(pad: bool): (r: Result<Option<bytes>>)
      reads this
      ensures r.Failure? <==> pad && data.None?
      ensures r.Failure? ==> r.error == TypeErr
      ensures r.Success? ==> (r.value.Some? <==> data.Some?)
      ensures r.Success? && data.Some? ==>
        && |r.value.value| == |data.value| + (if pad then Max(0, padding) else 0)
        && r.value.value[..|data.value|] == data.value
        && forall k :: |data.value| <= k < |r.value.value| ==> r.value.value[k] == 0
    {
      if data.None? then (if pad then Failure(TypeErr) else Success(None))
      else Success(Some(S.Padded(data.value, pad, padding)))
    }
  }

  // ---------------------------------------------------------------------------
  // SegDCD and SegCSF: a header and a list of commands

  /** The classes `SegDCD` accepts, in the order its parse tries them. */
  const DCD_KINDS: seq<L.Kind> := [L.KWrite, L.KCheck, L.KNop, L.KUnlock]

  /** The classes `SegCSF` accepts, in the order its parse tries them. */
  const CSF_KINDS: seq<L.Kind> := [L.KWrite, L.KCheck, L.KNop, L.KSet, L.KInit, L.KUnlock, L.KInstallKey, L.KAuthData]

  /** The sum of the `size` of every command of a list. */
  function SizeSum(cs: seq<L.Cmd>): int
  {
    if |cs| == 0 then 0 else L.Size(cs[0]) + SizeSum(cs[1..])
  }

  lemma {:induction false} SizeSumAppend(cs: seq<L.Cmd>, c: L.Cmd)
    ensures SizeSum(cs + [c]) == SizeSum(cs) + L.Size(c)
  {
    if |cs| > 0 {
      assert (cs + [c])[1..] == cs[1..] + [c];
      SizeSumAppend(cs[1..], c);
    }
  }

  lemma {:induction false} SizeSumConcat(a: seq<L.Cmd>, b: seq<L.Cmd>)
    ensures SizeSum(a + b) == SizeSum(a) + SizeSum(b)
  {
    if |a| > 0 {
      assert (a + b)[1..] == a[1..] + b;
      SizeSumConcat(a[1..], b);
    } else {
      assert a + b == b;
    }
  }

  /** Taking one command out of a list takes its size out of the sum. */
  lemma {:induction false} SizeSumRemove(cs: seq<L.Cmd>, i: nat)
    requires i < |cs|
    ensures SizeSum(cs[..i] + cs[i + 1..]) == SizeSum(cs) - L.Size(cs[i])
  {
    assert cs == cs[..i] + ([cs[i]] + cs[i + 1..]);
    SizeSumConcat(cs[..i], [cs[i]] + cs[i + 1..]);
    SizeSumConcat(cs[..i], cs[i + 1..]);
    assert ([cs[i]] + cs[i + 1..])[1..] == cs[i + 1..];
  }

  /** Every command of the list is of an accepted class, passes its setters and declares its exported size. */
  predicate WellFormed(kinds: seq<L.Kind>, cs: seq<L.Cmd>)
  {
    forall i :: 0 <= i < |cs| ==> L.KindOf(cs[i]) in kinds && L.Valid(cs[i]) && L.Consistent(cs[i])
  }

  /** The exports of the commands, one after another; the first one that does not pack raises. */
  function ExportCommands(cs: seq<L.Cmd>): (r: Result<bytes>)
    ensures r.Failure? ==> r.error == StructErr
  {
    if |cs| == 0 then Success([])
    else
      var e :- L.Export(cs[0]);
      var tail :- ExportCommands(cs[1..]);
      Success(e + tail)
  }

  /** The export fails exactly when one of the commands' exports does. */
  lemma {:induction false} ExportCommandsSucceeds(cs: seq<L.Cmd>)
    ensures ExportCommands(cs).Success? <==> forall i :: 0 <= i < |cs| ==> L.Export(cs[i]).Success?
  {
    if |cs| > 0 {
      ExportCommandsSucceeds(cs[1..]);
      assert forall i :: 1 <= i < |cs| ==> cs[1..][i - 1] == cs[i];
    }
  }

  /** Commands that declare their exported size export exactly the sum of their sizes. */
  lemma {:induction false} ExportCommandsLength(kinds: seq<L.Kind>, cs: seq<L.Cmd>)
    requires ExportCommands(cs).Success? && WellFormed(kinds, cs)
    ensures |ExportCommands(cs).value| == SizeSum(cs)
  {
    if |cs| > 0 {
      assert WellFormed(kinds, cs[1..]) by {
        assert forall i :: 0 <= i < |cs| - 1 ==> cs[1..][i] == cs[i + 1];
      }
      ExportCommandsLength(kinds, cs[1..]);
    }
  }

  /**
   * The inner loop over the accepted classes, from class `j` on: a fresh object of
   * each class parses at `at`; the first whose parse does not raise
   * UnparsedException decides, with its command or with its exception (which the
   * segment does not catch); when every class says Unparsed the segment is corrupted.
   */
  function ProbeFrom(kinds: seq<L.Kind>, data: bytes, at: nat, j: nat): (r: Result<L.Cmd>)
    decreases |kinds| - j
    ensures r.Failure? ==> r.error != Unparsed
    ensures r.Success? ==> L.KindOf(r.value) in kinds
  {
    if j >= |kinds| then Failure(Corrupted)
    else
      var p := L.ParseInto(L.Fresh(kinds[j]), data, at);
      if p.1 == Fail(Unparsed) then ProbeFrom(kinds, data, at, j + 1)
      else if p.1.Fail? then Failure(p.1.error)
      else Success(p.0)
  }

  /**
   * An exported command of an accepted class is found by the probe: every class
   * tried before its own sees another tag and raises UnparsedException, and its
   * own class parses it back.
   */
  lemma {:induction false} ProbeFromExported(kinds: seq<L.Kind>, c: L.Cmd, data: bytes, at: nat, j: nat)
    requires L.ExportedAt(c, data, at)
    requires exists i :: j <= i < |kinds| && kinds[i] == L.KindOf(c)
    ensures ProbeFrom(kinds, data, at, j) == Success(c)
    decreases |kinds| - j
  {
    var e := L.Export(c).value;
    assert data[at] == e[0];
    if kinds[j] == L.KindOf(c) {
      L.RoundTrip(c, data, at);
    } else {
      L.TagsDistinct(kinds[j], L.KindOf(c));
      ProbeFromExported(kinds, c, data, at, j + 1);
    }
  }

  /**
   * One round of the `while element_offset < header.length` loop as written: the
   * probe, then `element_offset += command.size`.
   */
  function SourceStep(kinds: seq<L.Kind>, data: bytes, offset: nat, index: nat): (r: Result<(L.Cmd, int)>)
    ensures r.Success? ==> r.value.1 == index + L.Size(r.value.0)
    ensures r.Failure? ==> ProbeFrom(kinds, data, offset + index, 0).Failure? && r.error == ProbeFrom(kinds, data, offset + index, 0).error
  {
    var c :- ProbeFrom(kinds, data, offset + index, 0);
    Success((c, index + L.Size(c)))
  }

  /**
   * A No Operation command whose header declares length 0 is accepted by both
   * segments, and the step after it leaves the offset where it was: the loop
   * parses the same command again, appends it again, and never ends.
   */
  lemma {:induction false} EmptyNopStalls(kinds: seq<L.Kind>, data: bytes, offset: nat, index: nat)
    requires kinds == DCD_KINDS || kinds == CSF_KINDS
    requires offset + index + H.SIZE <= |data|
    requires data[offset + index] == H.CMD_NOP && data[offset + index + 1] == 0 && data[offset + index + 2] == 0
    ensures SourceStep(kinds, data, offset, index) == Success((L.Nop(data[offset + index + 3], 0), index))
  {
    var at := offset + index;
    assert data[at + 1..at + 3] == [0, 0];
    assert FromBE([0, 0]) == 0 by {
      assert [0, 0][..1] == [0];
    }
    assert L.ParseInto(L.Fresh(L.KWrite), data, at).1 == Fail(Unparsed);
    assert L.ParseInto(L.Fresh(L.KCheck), data, at).1 == Fail(Unparsed);
    assert L.ParseInto(L.Fresh(L.KNop), data, at) == (L.Nop(data[at + 3], 0), Pass);
  }

  /**
   * The parse loop with the guard the source lacks: a command whose size is not
   * positive makes the segment corrupted instead of being parsed again forever.
   * Each round probes at `offset + index`, keeps the command and moves on by its
   * size; a probe that raises ends the loop with the commands kept so far.
   */
  function ReadCommands(kinds: seq<L.Kind>, data: bytes, offset: nat, index: nat, length: int): (r: Partial<L.Cmd>)
    decreases length - index
    ensures forall i :: 0 <= i < |r.items| ==> L.KindOf(r.items[i]) in kinds && L.Size(r.items[i]) > 0
    ensures r.end.Fail? ==> r.end.error != Unparsed
  {
    if index >= length then Partial([], Pass)
    else
      var p := ProbeFrom(kinds, data, offset + index, 0);
      if p.Failure? then Partial([], Fail(p.error))
      else if L.Size(p.value) <= 0 then Partial([], Fail(Corrupted))
      else
        var rest := ReadCommands(kinds, data, offset, index + L.Size(p.value), length);
        Partial([p.value] + rest.items, rest.end)
  }

  /** Once the offset reaches the declared length the loop finishes. */
  lemma ReadCommandsEnd(kinds: seq<L.Kind>, data: bytes, offset: nat, index: nat, length: int)
    requires length <= index
    ensures ReadCommands(kinds, data, offset, index, length) == Partial([], Pass)
  {
  }

  /** A probe that raises ends the loop with that exception and no command. */
  lemma ReadCommandsRaises(kinds: seq<L.Kind>, data: bytes, offset: nat, index: nat, length: int)
    requires index < length && ProbeFrom(kinds, data, offset + index, 0).Failure?
    ensures ReadCommands(kinds, data, offset, index, length) == Partial([], Fail(ProbeFrom(kinds, data, offset + index, 0).error))
  {
  }

  /** A probed command of size 0 or less ends the loop as corrupted. */
  lemma ReadCommandsStalls(kinds: seq<L.Kind>, data: bytes, offset: nat, index: nat, length: int, c: L.Cmd)
    requires index < length && ProbeFrom(kinds, data, offset + index, 0) == Success(c) && L.Size(c) <= 0
    ensures ReadCommands(kinds, data, offset, index, length) == Partial([], Fail(Corrupted))
  {
  }

  /** A probed command of positive size is kept, and the loop goes on after it. */
  lemma ReadCommandsNext(kinds: seq<L.Kind>, data: bytes, offset: nat, index: nat, length: int, c: L.Cmd, next: nat)
    requires index < length && ProbeFrom(kinds, data, offset + index, 0) == Success(c) && L.Size(c) > 0
    requires next == index + L.Size(c)
    ensures var rest := ReadCommands(kinds, data, offset, next, length);
      ReadCommands(kinds, data, offset, index, length) == Partial([c] + rest.items, rest.end)
  {
  }

  /** A kept command followed by a loop that finishes reading `rest`. */
  lemma {:induction false} ReadCommandsCons(kinds: seq<L.Kind>, data: bytes, offset: nat, index: nat, length: int, c: L.Cmd, next: nat, rest: seq<L.Cmd>)
    requires index < length && ProbeFrom(kinds, data, offset + index, 0) == Success(c) && L.Size(c) > 0
    requires next == index + L.Size(c)
    requires ReadCommands(kinds, data, offset, next, length) == Partial(rest, Pass)
    ensures ReadCommands(kinds, data, offset, index, length) == Partial([c] + rest, Pass)
  {
    ReadCommandsNext(kinds, data, offset, index, length, c, next);
  }

  /** The export of a list of commands starts with the first command's export. */
  lemma {:induction false} ExportedHead(kinds: seq<L.Kind>, cs: seq<L.Cmd>, data: bytes, at: nat)
    requires |cs| > 0 && WellFormed(kinds, cs) && ExportCommands(cs).Success?
    requires var e := ExportCommands(cs).value;
      at + |e| <= |data| && data[at..at + |e|] == e
    ensures L.ExportedAt(cs[0], data, at)
  {
    var c := cs[0];
    assert L.Valid(c) && L.Consistent(c);
    var head := L.Export(c).value;
    var tail := ExportCommands(cs[1..]).value;
    assert ExportCommands(cs).value == head + tail;
    SplitSlice(data, at, head, tail);
  }

  /** After the first command's export, the export of the list goes on with the rest's. */
  lemma {:induction false} ExportedTail(cs: seq<L.Cmd>, data: bytes, at: nat, next: int)
    requires |cs| > 0 && L.Valid(cs[0]) && L.Consistent(cs[0]) && ExportCommands(cs).Success?
    requires var e := ExportCommands(cs).value;
      at + |e| <= |data| && data[at..at + |e|] == e
    requires next == at + L.Size(cs[0])
    ensures ExportCommands(cs[1..]).Success?
    ensures var e := ExportCommands(cs[1..]).value;
      0 <= next && next + |e| <= |data| && data[next..next + |e|] == e
  {
    var c := cs[0];
    var head := L.Export(c).value;
    var tail := ExportCommands(cs[1..]).value;
    assert ExportCommands(cs).value == head + tail;
    SplitSlice(data, at, head, tail);
    assert L.Size(c) == |head|;
  }

  /** The rest of a well-formed list is well formed, and its sizes add up to a length. */
  lemma {:induction false} WellFormedRest(kinds: seq<L.Kind>, cs: seq<L.Cmd>)
    requires |cs| > 0 && WellFormed(kinds, cs) && ExportCommands(cs).Success?
    ensures WellFormed(kinds, cs[1..]) && ExportCommands(cs[1..]).Success? && SizeSum(cs[1..]) >= 0
    ensures L.Size(cs[0]) > 0 && SizeSum(cs) == L.Size(cs[0]) + SizeSum(cs[1..])
  {
    var rest := cs[1..];
    assert WellFormed(kinds, rest) by {
      assert forall i :: 0 <= i < |rest| ==> rest[i] == cs[i + 1];
    }
    ExportCommandsLength(kinds, rest);
  }

  /** The probe finds the first of a list of exported commands. */
  lemma {:induction false} FirstProbed(kinds: seq<L.Kind>, cs: seq<L.Cmd>, data: bytes, at: nat)
    requires |cs| > 0 && WellFormed(kinds, cs) && ExportCommands(cs).Success?
    requires var e := ExportCommands(cs).value;
      at + |e| <= |data| && data[at..at + |e|] == e
    ensures ProbeFrom(kinds, data, at, 0) == Success(cs[0])
  {
    ExportedHead(kinds, cs, data, at);
    assert L.KindOf(cs[0]) in kinds;
    ProbeFromExported(kinds, cs[0], data, at, 0);
  }

  /**
   * The rest of an exported list of commands is exported right after the first
   * command.
   */
  lemma {:induction false} ExportedRest(cs: seq<L.Cmd>, data: bytes, offset: nat, index: nat, next: int)
    requires |cs| > 0 && L.Valid(cs[0]) && L.Consistent(cs[0]) && ExportCommands(cs).Success?
    requires next == index + L.Size(cs[0])
    requires var e := ExportCommands(cs).value;
      offset + index + |e| <= |data| && data[offset + index..offset + index + |e|] == e
    ensures ExportCommands(cs[1..]).Success?
    ensures var e := ExportCommands(cs[1..]).value;
      offset + next + |e| <= |data| && data[offset + next..offset + next + |e|] == e
  {
    var at, nextAt := offset + index, offset + next;
    ExportedTail(cs, data, at, nextAt);
  }

  /** A probed first command followed by a loop that reads the rest: the loop reads the whole list. */
  lemma {:induction false} ReadCommandsFirst(kinds: seq<L.Kind>, data: bytes, offset: nat, index: nat, length: int, cs: seq<L.Cmd>, next: nat, rest: seq<L.Cmd>)
    requires |cs| > 0 && index < length && ProbeFrom(kinds, data, offset + index, 0) == Success(cs[0]) && L.Size(cs[0]) > 0
    requires next == index + L.Size(cs[0]) && rest == cs[1..]
    requires ReadCommands(kinds, data, offset, next, length) == Partial(rest, Pass)
    ensures ReadCommands(kinds, data, offset, index, length) == Partial(cs, Pass)
  {
    ReadCommandsCons(kinds, data, offset, index, length, cs[0], next, rest);
    assert [cs[0]] + rest == cs;
  }

  /**
   * The commands' exports, laid out one after another where the loop starts and
   * ending where the declared length ends, parse back to the same commands.
   */
  lemma {:induction false} ReadCommandsOfExport(kinds: seq<L.Kind>, cs: seq<L.Cmd>, data: bytes, offset: nat, index: nat, length: int)
    requires WellFormed(kinds, cs) && ExportCommands(cs).Success? && length == index + SizeSum(cs)
    requires var e := ExportCommands(cs).value;
      offset + index + |e| <= |data| && data[offset + index..offset + index + |e|] == e
    ensures ReadCommands(kinds, data, offset, index, length) == Partial(cs, Pass)
    decreases |cs|
  {
    if |cs| == 0 {
      assert SizeSum(cs) == 0;
      ReadCommandsEnd(kinds, data, offset, index, length);
    } else {
      var next, rest := index + L.Size(cs[0]), cs[1..];
      WellFormedRest(kinds, cs);
      assert L.Valid(cs[0]) && L.Consistent(cs[0]);
      ExportedRest(cs, data, offset, index, next);
      FirstProbed(kinds, cs, data, offset + index);
      ReadCommandsOfExport(kinds, rest, data, offset, next, length);
      ReadCommandsFirst(kinds, data, offset, index, length, cs, next, rest);
    }
  }

  /** Where the source stalls, the guarded loop reports the segment corrupted. */
  lemma {:induction false} EmptyNopCorrupted(kinds: seq<L.Kind>, data: bytes, offset: nat, index: nat, length: int)
    requires kinds == DCD_KINDS || kinds == CSF_KINDS
    requires index < length && offset + index + H.SIZE <= |data|
    requires data[offset + index] == H.CMD_NOP && data[offset + index + 1] == 0 && data[offset + index + 2] == 0
    ensures ReadCommands(kinds, data, offset, index, length) == Partial([], Fail(Corrupted))
  {
    EmptyNopStalls(kinds, data, offset, index);
  }

  /**
   * The CSF blob check after the loop: for every Install Key, a certificate header
   * (tag 0xD7) must parse at `offset + keydat`, and for every Authenticate Data a
   * signature header (tag 0xD8) at `offset + auth_start`; the first that does not
   * raises its struct.error or UnparsedException.
   */
  function BlobCheck(cs: seq<L.Cmd>, data: bytes, offset: nat): (r: Outcome)
    ensures r.Fail? ==> r.error == StructErr || r.error == Unparsed
    ensures (forall i :: 0 <= i < |cs| ==> !cs[i].InstallKey? && !cs[i].AuthData?) ==> r == Pass
  {
    if |cs| == 0 then Pass
    else
      var o := BlobAt(cs[0], data, offset);
      if o.Fail? then o
      else
        assert forall i :: 0 <= i < |cs| - 1 ==> cs[1..][i] == cs[i + 1];
        BlobCheck(cs[1..], data, offset)
  }

  /** The blob header check for one command. */
  function BlobAt(c: L.Cmd, data: bytes, offset: nat): (r: Outcome)
    ensures r.Fail? ==> r.error == StructErr || r.error == Unparsed
    ensures !c.InstallKey? && !c.AuthData? ==> r == Pass
  {
    var h :=
      if c.InstallKey? then H.Parse(data, offset + c.keydat, Some(H.TAG_CRT))
      else if c.AuthData? then H.Parse(data, offset + c.authStart, Some(H.TAG_SIG))
      else Success(H.Header(0, 0, 0));
    if h.Failure? then Fail(h.error) else Pass
  }

  /** A fresh object of class `k` parsing at `at`: `command_type()` then `command.parse(data, at)`. */
  method ParseFresh(k: L.Kind, data: bytes, at: nat) returns (c: L.Cmd, o: Outcome)
    ensures (c, o) == L.ParseInto(L.Fresh(k), data, at)
  {
    match k
    case KWrite =>
      var w := new LO.WriteDataCmd(4, 0);
      o := w.Parse(data, at);
      c := w.Value();
    case KCheck =>
      var w := new LO.CheckDataCmd(4, 1, 0, 0, None);
      o := w.Parse(data, at);
      c := w.Value();
    case KNop =>
      var w := new LO.NopCmd(0);
      o := w.Parse(data, at);
      c := w.Value();
    case KSet =>
      var w := new LO.SetCmd(0x03, []);
      o := w.Parse(data, at);
      c := w.Value();
    case KInit =>
      var w := new LO.InitializeCmd(0x00, []);
      o := w.Parse(data, at);
      c := w.Value();
    case KUnlock =>
      var w := new LO.UnlockCmd(0x00, []);
      o := w.Parse(data, at);
      c := w.Value();
    case KInstallKey =>
      var w := new LO.InstallKeyCmd(0, 0x03, 0x00, 0, 0, 0);
      o := w.Parse(data, at);
      c := w.Value();
    case KAuthData =>
      var w := new LO.AuthDataCmd(0, 0, 0x03, 0x00, 0, 0);
      o := w.Parse(data, at);
      c := w.Value();
  }

  /** The inner loop over the classes, one fresh object at a time. */
  method ProbeCmd(kinds: seq<L.Kind>, data: bytes, at: nat) returns (r: Result<L.Cmd>)
    ensures r == ProbeFrom(kinds, data, at, 0)
  {
    var j := 0;
    while j < |kinds|
      invariant 0 <= j <= |kinds|
      invariant ProbeFrom(kinds, data, at, 0) == ProbeFrom(kinds, data, at, j)
      decreases |kinds| - j
    {
      var c, o := ParseFresh(kinds[j], data, at);
      if o != Fail(Unparsed) {
        if o.Fail? {
          return Failure(o.error);
        }
        return Success(c);
      }
      j := j + 1;
    }
    return Failure(Corrupted);
  }

  /**
   * One round of that loop: the probe at `offset + index`, then either the end of
   * the loop or the command and the offset after it.
   */
  method ReadStep(kinds: seq<L.Kind>, data: bytes, offset: nat, index: nat, length: int) returns (c: L.Cmd, stop: Outcome, next: nat)
    requires index < length
    ensures stop.Fail? ==> ReadCommands(kinds, data, offset, index, length) == Partial([], stop)
    ensures stop.Pass? ==> next > index
    ensures stop.Pass? ==> var rest := ReadCommands(kinds, data, offset, next, length);
      ReadCommands(kinds, data, offset, index, length) == Partial([c] + rest.items, rest.end)
  {
    var p := ProbeCmd(kinds, data, offset + index);
    if p.Failure? {
      ReadCommandsRaises(kinds, data, offset, index, length);
      return L.Fresh(L.KNop), Fail(p.error), index;
    }
    c := p.value;
    var size := L.Size(c);
    if size <= 0 {
      ReadCommandsStalls(kinds, data, offset, index, length, c);
      return c, Fail(Corrupted), index;
    }
    next := index + size;
    ReadCommandsNext(kinds, data, offset, index, length, c, next);
    stop := Pass;
  }

  /**
   * The `while element_offset < header.length` loop, with the commands it appends
   * and how it stops.
   */
  method ReadFrom(kinds: seq<L.Kind>, data: bytes, offset: nat, length: int) returns (r: Partial<L.Cmd>)
    ensures r == ReadCommands(kinds, data, offset, H.SIZE, length)
  {
    ghost var whole := ReadCommands(kinds, data, offset, H.SIZE, length);
    AfterNothing(whole);
    var items: seq<L.Cmd> := [];
    var index: nat := H.SIZE;
    while index < length
      invariant After(items, ReadCommands(kinds, data, offset, index, length)) == whole
      decreases length - index
    {
      var c, stop, next := ReadStep(kinds, data, offset, index, length);
      if stop.Fail? {
        AfterStop(items, [], whole, stop);
        return Partial(items, stop);
      }
      AfterSnoc(items, c, ReadCommands(kinds, data, offset, next, length));
      items := items + [c];
      index := next;
    }
    AfterStop(items, [], whole, Pass);
    return Partial(items, Pass);
  }

  /**
   * The export of an enabled segment whose length counts its well-formed commands
   * parses back: its header with the same tag, parameter and length, and then the
   * loop reads exactly its commands and finishes (the CSF blob check then decides).
   */
  lemma {:induction false} SegmentRoundTrip(s: CmdSegment, pad: bool, data: bytes, offset: nat)
    requires s.enabled && s.InSync() && WellFormed(s.kinds, s.commands) && s.Export(pad).Success?
    requires offset + |s.Export(pad).value| <= |data| && data[offset..offset + |s.Export(pad).value|] == s.Export(pad).value
    ensures H.Parse(data, offset, Some(s.header.tag)) == Success(s.header.Value())
    ensures ReadCommands(s.kinds, data, offset, H.SIZE, s.header.length) == Partial(s.commands, Pass)
  {
    var e := s.Export(pad).value;
    var body := ExportCommands(s.commands).value;
    var hd := H.Export(s.header.Value()).value;
    SubSlice(data, offset, e, 0, H.SIZE + |body|);
    assert e[0..H.SIZE + |body|] == hd + body;
    L.HeaderThenBody(s.header.Value(), body, data, offset);
    ReadCommandsOfExport(s.kinds, s.commands, data, offset, H.SIZE, s.header.length);
  }

  /** One round of the CSF blob loop: a throwaway header of the blob's tag parses where the command points. */
  method CheckBlob(c: L.Cmd, data: bytes, offset: nat) returns (o: Outcome)
    ensures o == BlobAt(c, data, offset)
  {
    if c.InstallKey? {
      var b := new LH.Header(H.TAG_CRT, 0);
      o := b.Parse(data, offset + c.keydat);
    } else if c.AuthData? {
      var b := new LH.Header(H.TAG_SIG, 0);
      o := b.Parse(data, offset + c.authStart);
    } else {
      o := Pass;
    }
  }

  /**
   * `SegDCD` and `SegCSF`, which differ in their tag, the classes they accept, the
   * default parameter and the blob check of the CSF parse.
   */
  class CmdSegment {
    const header: LH.Header
    const kinds: seq<L.Kind>
    const checksBlobs: bool
    var enabled: bool
    var padding: int
    var commands: seq<L.Cmd>

    /** The header length counts the header and every command's size. */
    predicate InSync()
      reads this, header
    {
      header.length == H.SIZE + SizeSum(commands)
    }

    /** `SegDCD(enabled, param)`: no commands and a header of its own size. */
    constructor DCD(enabled: bool, param: byte)
      ensures fresh(header) && header.tag == H.TAG_DCD && header.param == param && kinds == DCD_KINDS && !checksBlobs
      ensures this.enabled == enabled && commands == [] && padding == 0 && InSync()
    {
      header := new LH.Header(H.TAG_DCD, param);
      kinds := DCD_KINDS;
      checksBlobs := false;
      this.enabled := enabled;
      padding := 0;
      commands := [];
    }

    /** `SegCSF(enabled, param)`. */
    constructor CSF(enabled: bool, param: byte)
      ensures fresh(header) && header.tag == H.TAG_CSF && header.param == param && kinds == CSF_KINDS && checksBlobs
      ensures this.enabled == enabled && commands == [] && padding == 0 && InSync()
    {
      header := new LH.Header(H.TAG_CSF, param);
      kinds := CSF_KINDS;
      checksBlobs := true;
      this.enabled := enabled;
      padding := 0;
      commands := [];
    }

    /** `size`: the header length when enabled, else 0. */
    function Size(): (r: int)
      reads this, header
      ensures r == (if enabled then header.length else 0)
    {
      if enabled then header.length else 0
    }

    /** `space`: size plus padding when enabled, else 0. */
    function Space(): (r: int)
      reads this, header
      ensures r == (if enabled then header.length + padding else 0)
    {
      if enabled then Size() + padding else 0
    }

    /** `append(cmd)`: asserts the class is accepted, then the length grows by the command's size. */
    method Append(cmd: L.Cmd) returns (o: Outcome)
      modifies this, header
      ensures o.Pass? <==> L.KindOf(cmd) in kinds
      ensures o.Pass? ==> commands == old(commands) + [cmd] && header.length == old(header.length) + L.Size(cmd)
      ensures o.Fail? ==> o.error == AssertErr && commands == old(commands) && header.length == old(header.length)
      ensures header.param == old(header.param) && enabled == old(enabled) && padding == old(padding)
      ensures old(InSync()) ==> InSync()
    {
      if L.KindOf(cmd) !in kinds {
        return Fail(AssertErr);
      }
      SizeSumAppend(commands, cmd);
      commands := commands + [cmd];
      header.length := header.length + L.Size(cmd);
      return Pass;
    }

    /** `pop(index)`: asserts the index is in range, removes the command and takes its size off the length. */
    method Pop(index: int) returns (r: Result<L.Cmd>)
      modifies this, header
      ensures r.Success? <==> 0 <= index < |old(commands)|
      ensures r.Success? ==> r.value == old(commands)[index] && commands == old(commands)[..index] + old(commands)[index + 1..]
      ensures r.Success? ==> header.length == old(header.length) - L.Size(r.value)
      ensures r.Failure? ==> r.error == AssertErr && commands == old(commands) && header.length == old(header.length)
      ensures header.param == old(header.param) && enabled == old(enabled) && padding == old(padding)
      ensures old(InSync()) ==> InSync()
    {
      if !(0 <= index < |commands|) {
        return Failure(AssertErr);
      }
      var c := commands[index];
      SizeSumRemove(commands, index);
      commands := commands[..index] + commands[index + 1..];
      header.length := header.length - L.Size(c);
      return Success(c);
    }

    /** `clear()`: no commands, the length back to the header size. */
    method Clear()
      modifies this, header
      ensures commands == [] && header.length == H.SIZE && InSync()
      ensures header.param == old(header.param) && enabled == old(enabled) && padding == old(padding)
    {
      commands := [];
      header.length := H.SIZE;
    }

    /**
     * `seg[key] = cmd`: asserts the class is accepted first (AssertionError), then
     * the list assignment raises IndexError for a key out of range; otherwise the
     * command is replaced, a negative key counting from the end, without touching
     * the header length.
     */
    method SetItem(key: int, cmd: L.Cmd) returns (o: Outcome)
      modifies this
      ensures o.Pass? <==> L.KindOf(cmd) in kinds && -|old(commands)| <= key < |old(commands)|
      ensures o.Pass? ==> commands == old(commands)[(if key < 0 then key + |old(commands)| else key) := cmd]
      ensures o.Fail? ==> commands == old(commands) && o.error == (if L.KindOf(cmd) !in kinds then AssertErr else IndexErr)
      ensures enabled == old(enabled) && padding == old(padding)
    {
      if L.KindOf(cmd) !in kinds {
        return Fail(AssertErr);
      }
      if !(-|commands| <= key < |commands|) {
        return Fail(IndexErr);
      }
      var k := if key < 0 then key + |commands| else key;
      commands := commands[k := cmd];
      return Pass;
    }

    /**
     * `parse(data, offset)`: the header parse (which may raise before anything
     * changes), then the command loop appending to the list the segment already
     * holds; only a loop that completes enables the segment, and a CSF then checks
     * the blob header of every Install Key and Authenticate Data it holds.
     */
    method Parse(data: bytes, offset: nat) returns (o: Outcome)
      modifies this, header
      ensures var h := H.Parse(data, offset, Some(header.tag));
        h.Failure? ==> o == Fail(h.error) && header.Value() == old(header.Value()) && commands == old(commands) && enabled == old(enabled)
      ensures var h := H.Parse(data, offset, Some(header.tag));
        h.Success? ==>
          var rd := ReadCommands(kinds, data, offset, H.SIZE, h.value.length);
          && header.Value() == h.value
          && commands == old(commands) + rd.items
          && (rd.end.Fail? ==> o == rd.end && enabled == old(enabled))
          && (rd.end.Pass? ==> enabled && o == (if checksBlobs then BlobCheck(commands, data, offset) else Pass))
      ensures padding == old(padding)
    {
      o := header.Parse(data, offset);
      if o.Fail? {
        return;
      }
      o := ReadInto(data, offset, header.length);
      if o.Fail? {
        return;
      }
      enabled := true;
      if checksBlobs {
        o := CheckBlobs(data, offset);
      }
    }

    /** The `while element_offset < header.length` loop, appending each command it probes. */
    method ReadInto(data: bytes, offset: nat, length: int) returns (o: Outcome)
      modifies this
      ensures var rd := ReadCommands(kinds, data, offset, H.SIZE, length);
        commands == old(commands) + rd.items && o == rd.end
      ensures enabled == old(enabled) && padding == old(padding)
    {
      var read: Partial<L.Cmd>;
      read := ReadFrom(kinds, data, offset, length);
      commands := commands + read.items;
      o := read.end;
    }

    /** The loop over the commands after a CSF parse: each blob header parses into a throwaway header. */
    method CheckBlobs(data: bytes, offset: nat) returns (o: Outcome)
      ensures o == BlobCheck(commands, data, offset)
    {
      var i := 0;
      while i < |commands|
        invariant 0 <= i <= |commands|
        invariant BlobCheck(commands, data, offset) == BlobCheck(commands[i..], data, offset)
        decreases |commands| - i
      {
        assert commands[i..][1..] == commands[i + 1..];
        o := CheckBlob(commands[i], data, offset);
        if o.Fail? {
          return;
        }
        i := i + 1;
      }
      return Pass;
    }

    /** `export(padding)`: nothing when disabled; else the header, every command's export and the padding. */
    function Export(pad: bool): (r: Result<bytes>)
      reads this, header
      ensures !enabled ==> r == Success([])
      ensures enabled ==> (r.Success? <==> Fits(header.length, 2) && ExportCommands(commands).Success?)
      ensures r.Failure? ==> r.error == StructErr
      ensures enabled && r.Success? ==>
        && H.SIZE + |ExportCommands(commands).value| <= |r.value|
        && r.value[..H.SIZE + |ExportCommands(commands).value|] == header.Export().value + ExportCommands(commands).value
    {
      if !enabled then Success([])
      else
        var hd :- header.Export();
        var body :- ExportCommands(commands);
        Success(S.Padded(hd + body, pad, padding))
    }
  }
}
