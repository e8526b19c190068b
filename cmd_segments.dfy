// The command segments of imx/img/segments.py: SegDCD and SegCSF keep a list of
// commands behind a header whose length they move in step with the list, export
// header and commands back to back, and parse by trying each permitted command
// class in turn at every offset.
module ImgCmdSegments {
  import opened Base
  import opened Pack
  import H = ImgHeader
  import opened ImgCommands
  import S = ImgSegments

  /** `SegDCD.CMD_TYPES`, in the order parse tries them. */
  const DCD_KINDS: seq<Kind> := [KWrite, KCheck, KNop, KUnlock]

  /** `SegCSF.CMD_TYPES`, in the order parse tries them. */
  const CSF_KINDS: seq<Kind> := [KWrite, KCheck, KNop, KSet, KInit, KUnlock, KInstallKey, KAuthData]

  /** The sum of the `size` of every command in a list. */
  function SizeSum(cs: seq<Command>): int
  {
    if |cs| == 0 then 0 else Size(cs[0]) + SizeSum(cs[1..])
  }

  lemma {:induction false} SizeSumAppend(cs: seq<Command>, c: Command)
    ensures SizeSum(cs + [c]) == SizeSum(cs) + Size(c)
  {
    if |cs| > 0 {
      assert (cs + [c])[1..] == cs[1..] + [c];
      SizeSumAppend(cs[1..], c);
    }
  }

  lemma {:induction false} SizeSumConcat(a: seq<Command>, b: seq<Command>)
    ensures SizeSum(a + b) == SizeSum(a) + SizeSum(b)
  {
    if |a| > 0 {
      assert (a + b)[1..] == a[1..] + b;
      SizeSumConcat(a[1..], b);
    } else {
      assert a + b == b;
    }
  }

  /** Taking one command out of a list takes its size out of the sum. */
  lemma {:induction false} SizeSumRemove(cs: seq<Command>, i: nat)
    requires i < |cs|
    ensures SizeSum(cs[..i] + cs[i + 1..]) == SizeSum(cs) - Size(cs[i])
  {
    assert cs == cs[..i] + ([cs[i]] + cs[i + 1..]);
    SizeSumConcat(cs[..i], [cs[i]] + cs[i + 1..]);
    SizeSumConcat(cs[..i], cs[i + 1..]);
    assert ([cs[i]] + cs[i + 1..])[1..] == cs[i + 1..];
  }

  /** The exports of the commands, one after another; the first command that does not pack raises. */
  function ExportCommands(cs: seq<Command>): (r: Result<bytes>)
    decreases |cs|, 1
    ensures r.Failure? ==> r.error == StructErr
  {
    if |cs| == 0 then Success([]) else ExportFrom(cs)
  }

  /** The first command's export, then the export of the others. */
  function ExportFrom(cs: seq<Command>): (r: Result<bytes>)
    requires |cs| > 0
    decreases |cs|, 0
    ensures r.Failure? ==> r.error == StructErr
  {
    var e :- Export(cs[0]);
    var rest :- ExportCommands(cs[1..]);
    Success(e + rest)
  }

  lemma {:induction false} ExportCommandsAppend(cs: seq<Command>, c: Command)
    requires ExportCommands(cs).Success? && Export(c).Success?
    ensures ExportCommands(cs + [c]) == Success(ExportCommands(cs).value + Export(c).value)
    decreases |cs|
  {
    var x, ec := cs + [c], Export(c).value;
    HeadOfSnoc(cs, c);
    if |cs| == 0 {
      ExportCommandsCons(x, ec, []);
      ConcatEmpty(ec);
    } else {
      ExportCommandsSplit(cs);
      var e, rest := Export(cs[0]).value, ExportCommands(cs[1..]).value;
      ExportCommandsAppend(cs[1..], c);
      ExportCommandsCons(x, e, rest + ec);
      ConcatAssoc(e, rest, ec);
    }
  }

  /** The export of a list is its first command's export followed by the rest's. */
  lemma {:induction false} ExportCommandsCons(cs: seq<Command>, e: bytes, rest: bytes)
    requires |cs| > 0 && Export(cs[0]) == Success(e) && ExportCommands(cs[1..]) == Success(rest)
    ensures ExportCommands(cs) == Success(e + rest)
  {
    assert ExportCommands(cs) == ExportFrom(cs);
  }

  /** The export of a list, read the other way: its first command's export followed by the rest's. */
  lemma {:induction false} ExportCommandsSplit(cs: seq<Command>)
    requires |cs| > 0 && ExportCommands(cs).Success?
    ensures Export(cs[0]).Success? && ExportCommands(cs[1..]).Success?
    ensures ExportCommands(cs).value == Export(cs[0]).value + ExportCommands(cs[1..]).value
  {
    assert ExportCommands(cs) == ExportFrom(cs);
  }

  /** A valid command exports exactly `size` bytes. */
  lemma {:induction false} ExportLengthIsSize(c: Command)
    requires Valid(c) && Export(c).Success?
    ensures |Export(c).value| == Size(c)
  {
  }

  /** Commands that export together take exactly the sum of their sizes. */
  lemma {:induction false} ExportCommandsLength(cs: seq<Command>)
    requires ExportCommands(cs).Success? && forall i :: 0 <= i < |cs| ==> Valid(cs[i])
    ensures |ExportCommands(cs).value| == SizeSum(cs)
  {
    if |cs| > 0 {
      ExportLengthIsSize(cs[0]);
      ExportCommandsLength(cs[1..]);
    }
  }

  /**
   * The bytes of an enabled segment: its header, the commands, and the zero
   * padding when asked for; a disabled segment exports nothing.
   */
  function ExportSegment(enabled: bool, h: H.Header, cs: seq<Command>, pad: bool, padding: int): (r: Result<bytes>)
    ensures !enabled ==> r == Success([])
    ensures enabled ==> (r.Success? <==> H.Export(h).Success? && ExportCommands(cs).Success?)
    ensures enabled && r.Success? ==>
      && H.Export(h).Success? && ExportCommands(cs).Success?
      && H.SIZE + |ExportCommands(cs).value| <= |r.value|
      && r.value[..H.SIZE] == H.Export(h).value
      && r.value[H.SIZE..H.SIZE + |ExportCommands(cs).value|] == ExportCommands(cs).value
  {
    if !enabled then Success([])
    else
      var hd :- H.Export(h);
      var body :- ExportCommands(cs);
      var r := S.Padded(hd + body, pad, padding);
      assert r[0..|hd + body|] == r[..|hd + body|] == hd + body;
      SplitSlice(r, 0, hd, body);
      Success(r)
  }

  /** A segment whose header length counts its valid commands exports its `space` when its padding is not negative. */
  lemma {:induction false} ExportSegmentLength(enabled: bool, h: H.Header, cs: seq<Command>, padding: int)
    requires ExportSegment(enabled, h, cs, true, padding).Success?
    requires h.length == H.SIZE + SizeSum(cs) && forall i :: 0 <= i < |cs| ==> Valid(cs[i])
    ensures |ExportSegment(enabled, h, cs, true, padding).value| == (if enabled then h.length + Max(0, padding) else 0)
  {
    if enabled {
      ExportCommandsLength(cs);
    }
  }

  // ---------------------------------------------------------------------------
  // Parse

  /**
   * The inner `for cmd_class in cls.CMD_TYPES` loop, from class `j` on: the first
   * class whose parse does not raise UnparsedException decides, with its command
   * or its own exception; when every class says Unparsed the segment is corrupted.
   */
  function ProbeFrom(kinds: seq<Kind>, data: bytes, at: nat, j: nat): (r: Result<Command>)
    decreases |kinds| - j, 1
    ensures r.Failure? ==> r.error != Unparsed
    ensures r.Success? ==> KindOf(r.value) in kinds && Valid(r.value) && Size(r.value) >= H.SIZE
  {
    if j >= |kinds| then Failure(Corrupted) else TryClass(kinds, data, at, j)
  }

  /** One round of that loop: class `j` parses, or says Unparsed and the next class is tried. */
  function TryClass(kinds: seq<Kind>, data: bytes, at: nat, j: nat): (r: Result<Command>)
    requires j < |kinds|
    decreases |kinds| - j, 0
    ensures r.Failure? ==> r.error != Unparsed
    ensures r.Success? ==> KindOf(r.value) in kinds && Valid(r.value) && Size(r.value) >= H.SIZE
  {
    var p := ParseAs(kinds[j], data, at);
    if p == Failure(Unparsed) then ProbeFrom(kinds, data, at, j + 1) else p
  }

  /** Trying every class of `kinds` at offset `at`. */
  function Probe(kinds: seq<Kind>, data: bytes, at: nat): (r: Result<Command>)
    ensures r.Failure? ==> r.error != Unparsed
    ensures r.Success? ==> KindOf(r.value) in kinds && Valid(r.value) && Size(r.value) >= H.SIZE
  {
    ProbeFrom(kinds, data, at, 0)
  }

  /** When no class from `j` on claims the offset, the probe reports the segment corrupted. */
  lemma {:induction false} ProbeFromNoneClaims(kinds: seq<Kind>, data: bytes, at: nat, j: nat)
    requires forall i :: j <= i < |kinds| ==> ParseAs(kinds[i], data, at) == Failure(Unparsed)
    ensures ProbeFrom(kinds, data, at, j) == Failure(Corrupted)
    decreases |kinds| - j
  {
    if j < |kinds| {
      ProbeFromNoneClaims(kinds, data, at, j + 1);
    }
  }

  /** At an offset no class claims, the probe reports the segment corrupted. */
  lemma {:induction false} ProbeNoneClaims(kinds: seq<Kind>, data: bytes, at: nat)
    requires forall i :: 0 <= i < |kinds| ==> ParseAs(kinds[i], data, at) == Failure(Unparsed)
    ensures Probe(kinds, data, at) == Failure(Corrupted)
  {
    ProbeFromNoneClaims(kinds, data, at, 0);
  }

  lemma {:induction false} ProbeFromFirst(kinds: seq<Kind>, data: bytes, at: nat, j: nat, i: nat)
    requires j <= i < |kinds| && ParseAs(kinds[i], data, at) != Failure(Unparsed)
    requires forall m :: j <= m < i ==> ParseAs(kinds[m], data, at) == Failure(Unparsed)
    ensures ProbeFrom(kinds, data, at, j) == ParseAs(kinds[i], data, at)
    decreases i - j
  {
    var p := ParseAs(kinds[j], data, at);
    if j < i {
      assert p == Failure(Unparsed);
      ProbeFromFirst(kinds, data, at, j + 1, i);
      assert ProbeFrom(kinds, data, at, j) == ProbeFrom(kinds, data, at, j + 1);
    } else {
      assert ProbeFrom(kinds, data, at, j) == p;
    }
  }

  /** The first class that claims the offset is the one the probe returns. */
  lemma {:induction false} ProbeFirst(kinds: seq<Kind>, data: bytes, at: nat, i: nat)
    requires i < |kinds| && ParseAs(kinds[i], data, at) != Failure(Unparsed)
    requires forall m :: 0 <= m < i ==> ParseAs(kinds[m], data, at) == Failure(Unparsed)
    ensures Probe(kinds, data, at) == ParseAs(kinds[i], data, at)
  {
    ProbeFromFirst(kinds, data, at, 0, i);
  }

  /**
   * The `while index < header.length` loop: probe at `offset + index`, keep the
   * command, and move on by its size.
   */
  function ParseCommands(kinds: seq<Kind>, data: bytes, offset: nat, index: nat, length: int): (r: Result<seq<Command>>)
    decreases length - index
    ensures r.Failure? ==> r.error != Unparsed
  {
    if index >= length then Success([])
    else
      var p := Probe(kinds, data, offset + index);
      if p.Failure? then Failure(p.error)
      else Prepend([p.value], ParseCommands(kinds, data, offset, index + Size(p.value), length))
  }

  /** Every command a segment parse keeps is valid and of a class the segment accepts. */
  lemma {:induction false} ParseCommandsValid(kinds: seq<Kind>, data: bytes, offset: nat, index: nat, length: int)
    requires ParseCommands(kinds, data, offset, index, length).Success?
    ensures var cs := ParseCommands(kinds, data, offset, index, length).value;
      forall i :: 0 <= i < |cs| ==> Valid(cs[i]) && KindOf(cs[i]) in kinds
    decreases length - index
  {
    if index < length {
      var p := Probe(kinds, data, offset + index);
      assert p.Success?;
      var c := p.value;
      var next := index + Size(c);
      ParseCommandsUnfold(kinds, data, offset, index, length);
      ParseCommandsValid(kinds, data, offset, next, length);
      var rest := ParseCommands(kinds, data, offset, next, length).value;
      var cs := ParseCommands(kinds, data, offset, index, length).value;
      assert cs == [c] + rest;
      forall i | 0 <= i < |cs|
        ensures Valid(cs[i]) && KindOf(cs[i]) in kinds
      {
        if i > 0 {
          assert cs[i] == rest[i - 1];
        }
      }
    }
  }

  /** One step of the parse loop: a probe that succeeds moves its command to the front. */
  lemma {:induction false} ParseCommandsStep(kinds: seq<Kind>, data: bytes, offset: nat, index: nat, length: int, acc: seq<Command>)
    requires index < length && Probe(kinds, data, offset + index).Success?
    ensures var c := Probe(kinds, data, offset + index).value;
      Prepend(acc, ParseCommands(kinds, data, offset, index, length))
      == Prepend(acc + [c], ParseCommands(kinds, data, offset, index + Size(c), length))
  {
    var c := Probe(kinds, data, offset + index).value;
    ParseCommandsUnfold(kinds, data, offset, index, length);
    PrependSnoc(acc, c, ParseCommands(kinds, data, offset, index + Size(c), length));
  }

  /** The loop body once: a probe that succeeds keeps its command and moves on by its size. */
  lemma {:induction false} ParseCommandsUnfold(kinds: seq<Kind>, data: bytes, offset: nat, index: nat, length: int)
    requires index < length && Probe(kinds, data, offset + index).Success?
    ensures var c := Probe(kinds, data, offset + index).value;
      ParseCommands(kinds, data, offset, index, length) == Prepend([c], ParseCommands(kinds, data, offset, index + Size(c), length))
  {
  }

  /** A probe that fails ends the parse loop with its error. */
  lemma {:induction false} ParseCommandsStops(kinds: seq<Kind>, data: bytes, offset: nat, index: nat, length: int, acc: seq<Command>)
    requires index < length && Probe(kinds, data, offset + index).Failure?
    ensures Prepend(acc, ParseCommands(kinds, data, offset, index, length)) == Failure(Probe(kinds, data, offset + index).error)
  {
  }

  /** The probe, one class at a time. */
  method ProbeCmd(kinds: seq<Kind>, data: bytes, at: nat) returns (r: Result<Command>)
    ensures r == Probe(kinds, data, at)
  {
    var j := 0;
    while j < |kinds|
      invariant 0 <= j <= |kinds|
      invariant ProbeFrom(kinds, data, at, 0) == ProbeFrom(kinds, data, at, j)
      decreases |kinds| - j
    {
      var p := ParseAs(kinds[j], data, at);
      if p != Failure(Unparsed) {
        return p;
      }
      j := j + 1;
    }
    return Failure(Corrupted);
  }

  // ---------------------------------------------------------------------------
  // The segment objects

  /**
   * `SegDCD` and `SegCSF`, which differ in their tag, the classes they accept and
   * the default parameter. The header is kept as its parameter and its length.
   */
  class CmdSegment {
    const tag: byte
    const kinds: seq<Kind>
    var param: byte
    var length: int
    var enabled: bool
    var padding: int
    var commands: seq<Command>

    /** The header length counts the header and every command's size. */
    predicate InSync()
      reads this
    {
      length == H.SIZE + SizeSum(commands)
    }

    function Header(): H.Header
      reads this
    {
      H.Header(tag, param, length)
    }

    /** `SegDCD(param, enabled)`: no commands, a header of its own size. */
    constructor DCD(param: byte, enabled: bool)
      ensures tag == H.TAG_DCD && kinds == DCD_KINDS && this.param == param && this.enabled == enabled
      ensures commands == [] && length == H.SIZE && padding == 0 && InSync()
    {
      tag := H.TAG_DCD;
      kinds := DCD_KINDS;
      this.param := param;
      length := H.SIZE;
      this.enabled := enabled;
      padding := 0;
      commands := [];
    }

    /** `SegCSF(param, enabled)`. */
    constructor CSF(param: byte, enabled: bool)
      ensures tag == H.TAG_CSF && kinds == CSF_KINDS && this.param == param && this.enabled == enabled
      ensures commands == [] && length == H.SIZE && padding == 0 && InSync()
    {
      tag := H.TAG_CSF;
      kinds := CSF_KINDS;
      this.param := param;
      length := H.SIZE;
      this.enabled := enabled;
      padding := 0;
      commands := [];
    }

    /** `size`: the header length when enabled, else 0. */
    function Size(): (r: int)
      reads this
      ensures enabled ==> r == length
      ensures !enabled ==> r == 0
    {
      if enabled then length else 0
    }

    /** `space`: size plus padding when enabled, else 0. */
    function Space(): (r: int)
      reads this
      ensures enabled ==> r == length + padding
      ensures !enabled ==> r == 0
    {
      if enabled then Size() + padding else 0
    }

    /** `append(cmd)`: asserts the class is accepted, then the length grows by the command's size. */
    method Append(cmd: Command) returns (o: Outcome)
      modifies this
      ensures o.Pass? <==> KindOf(cmd) in kinds
      ensures o.Pass? ==> commands == old(commands) + [cmd] && length == old(length) + ImgCommands.Size(cmd)
      ensures o.Fail? ==> o.error == AssertErr && commands == old(commands) && length == old(length)
      ensures param == old(param) && enabled == old(enabled) && padding == old(padding)
      ensures old(InSync()) ==> InSync()
    {
      if KindOf(cmd) !in kinds {
        return Fail(AssertErr);
      }
      SizeSumAppend(commands, cmd);
      commands := commands + [cmd];
      length := length + ImgCommands.Size(cmd);
      return Pass;
    }

    /** `pop(index)`: asserts the index is in range, removes the command and takes its size off the length. */
    method Pop(index: int) returns (r: Result<Command>)
      modifies this
      ensures r.Success? <==> 0 <= index < |old(commands)|
      ensures r.Success? ==> r.value == old(commands)[index]
      ensures r.Success? ==> commands == old(commands)[..index] + old(commands)[index + 1..]
      ensures r.Success? ==> length == old(length) - ImgCommands.Size(r.value)
      ensures r.Failure? ==> r.error == AssertErr && commands == old(commands) && length == old(length)
      ensures param == old(param) && enabled == old(enabled) && padding == old(padding)
      ensures old(InSync()) ==> InSync()
    {
      if !(0 <= index < |commands|) {
        return Failure(AssertErr);
      }
      var c := commands[index];
      SizeSumRemove(commands, index);
      commands := commands[..index] + commands[index + 1..];
      length := length - ImgCommands.Size(c);
      return Success(c);
    }

    /** `clear()`: no commands, the length back to the header size. */
    method Clear()
      modifies this
      ensures commands == [] && length == H.SIZE && InSync()
      ensures param == old(param) && enabled == old(enabled) && padding == old(padding)
    {
      commands := [];
      length := H.SIZE;
    }

    /**
     * `seg[key] = cmd`: asserts the class is accepted and replaces the command,
     * a negative key counting from the end, without touching the header length; a
     * key out of range raises IndexError from the list assignment.
     */
    method SetItem(key: int, cmd: Command) returns (o: Outcome)
      modifies this
      ensures o.Pass? <==> KindOf(cmd) in kinds && -|old(commands)| <= key < |old(commands)|
      ensures o.Pass? ==> commands == old(commands)[(if key < 0 then key + |old(commands)| else key) := cmd]
      ensures o.Fail? ==> o.error == (if KindOf(cmd) !in kinds then AssertErr else IndexErr)
      ensures o.Fail? ==> commands == old(commands)
      ensures length == old(length) && param == old(param) && enabled == old(enabled) && padding == old(padding)
    {
      if KindOf(cmd) !in kinds {
        return Fail(AssertErr);
      }
      if !(-|commands| <= key < |commands|) {
        return Fail(IndexErr);
      }
      var k := if key < 0 then key + |commands| else key;
      commands := commands[k := cmd];
      return Pass;
    }

    /** `export(padding)`: the header, then every command's export, then the padding. */
    method Export(pad: bool) returns (r: Result<bytes>)
      ensures r == ExportSegment(enabled, Header(), commands, pad, padding)
    {
      if !enabled {
        return Success([]);
      }
      var hd := H.Export(Header());
      if hd.Failure? {
        return Failure(hd.error);
      }
      var body := ExportBody(commands);
      if body.Failure? {
        return Failure(body.error);
      }
      return Success(S.Padded(hd.value + body.value, pad, padding));
    }
  }

  /** The loop of `export` over the commands, one export appended at a time. */
  method ExportBody(cs: seq<Command>) returns (r: Result<bytes>)
    ensures r == ExportCommands(cs)
  {
    var body := [];
    var i := 0;
    while i < |cs|
      invariant 0 <= i <= |cs|
      invariant ExportCommands(cs[..i]) == Success(body)
      decreases |cs| - i
    {
      var e := ImgCommands.Export(cs[i]);
      if e.Failure? {
        ExportCommandsFailsAt(cs, i);
        return Failure(e.error);
      }
      ExportCommandsAppend(cs[..i], cs[i]);
      assert cs[..i + 1] == cs[..i] + [cs[i]];
      body := body + e.value;
      i := i + 1;
    }
    assert cs[..i] == cs;
    return Success(body);
  }

  /** When the commands before `i` export and command `i` does not, the whole list fails. */
  lemma {:induction false} ExportCommandsFailsAt(cs: seq<Command>, i: nat)
    requires i < |cs| && ExportCommands(cs[..i]).Success? && Export(cs[i]).Failure?
    ensures ExportCommands(cs).Failure?
  {
    if i > 0 {
      assert cs[1..][..i - 1] == cs[..i][1..];
      ExportCommandsFailsAt(cs[1..], i - 1);
    }
  }

  /** The header, then the commands up to `header.length`, of a segment with tag `tag`. */
  function ParseSegment(tag: byte, kinds: seq<Kind>, data: bytes, offset: nat): (r: Result<(byte, seq<Command>)>)
    ensures r == Failure(Unparsed) <==> offset + H.SIZE <= |data| && data[offset] != tag
  {
    var h :- H.Parse(data, offset, Some(tag));
    var cs :- ParseCommands(kinds, data, offset, H.SIZE, h.length);
    Success((h.param, cs))
  }

  // ---------------------------------------------------------------------------
  // Round trip

  /** Command `i` is valid and of a class the segment accepts. */
  predicate AcceptedAt(kinds: seq<Kind>, cs: seq<Command>, i: nat)
    requires i < |cs|
  {
    Valid(cs[i]) && KindOf(cs[i]) in kinds
  }

  /** Every command is valid and of a class the segment accepts. */
  predicate Accepted(kinds: seq<Kind>, cs: seq<Command>)
  {
    forall i :: 0 <= i < |cs| ==> AcceptedAt(kinds, cs, i)
  }

  /**
   * A valid command exported at `at` is found by the probe from class `j` on when
   * its class is among those: every class tried before its own sees another tag and
   * raises UnparsedException, and its own class parses it back.
   */
  lemma {:induction false} ProbeFromExported(kinds: seq<Kind>, c: Command, data: bytes, at: nat, j: nat)
    requires Valid(c) && Export(c).Success? && j <= |kinds| && KindOf(c) in kinds[j..]
    requires at + |Export(c).value| <= |data| && data[at..at + |Export(c).value|] == Export(c).value
    ensures ProbeFrom(kinds, data, at, j) == Success(c)
    decreases |kinds| - j
  {
    var e := Export(c).value;
    assert data[at] == e[0];
    if kinds[j] == KindOf(c) {
      RoundTrip(c, data, at);
    } else {
      assert TagOfKind(kinds[j]) != Tag(c);
      assert KindOf(c) in kinds[j + 1..] by {
        var i :| 0 <= i < |kinds[j..]| && kinds[j..][i] == KindOf(c);
        assert i > 0 && kinds[j + 1..][i - 1] == KindOf(c);
      }
      ProbeFromExported(kinds, c, data, at, j + 1);
    }
  }

  /** A probe that finds the first command of `cs` followed by a loop that reads the others reads `cs`. */
  lemma {:induction false} ParseCommandsCons(kinds: seq<Kind>, data: bytes, offset: nat, index: nat, length: int, cs: seq<Command>)
    requires |cs| > 0 && index < length && Probe(kinds, data, offset + index) == Success(cs[0])
    requires ParseCommands(kinds, data, offset, index + Size(cs[0]), length) == Success(cs[1..])
    ensures ParseCommands(kinds, data, offset, index, length) == Success(cs)
  {
    ParseCommandsUnfold(kinds, data, offset, index, length);
    PrependHead(cs, ParseCommands(kinds, data, offset, index + Size(cs[0]), length));
  }

  /** The head of an accepted list: its first command is accepted, the rest are, and the sizes add up. */
  lemma {:induction false} AcceptedFirst(kinds: seq<Kind>, cs: seq<Command>)
    requires |cs| > 0 && Accepted(kinds, cs) && ExportCommands(cs).Success?
    ensures Valid(cs[0]) && KindOf(cs[0]) in kinds && Accepted(kinds, cs[1..])
    ensures ExportCommands(cs[1..]).Success? && SizeSum(cs) == Size(cs[0]) + SizeSum(cs[1..]) && SizeSum(cs[1..]) >= 0
    ensures Export(cs[0]).Success? && |Export(cs[0]).value| == Size(cs[0]) >= H.SIZE
  {
    var rest := cs[1..];
    assert AcceptedAt(kinds, cs, 0);
    forall i | 0 <= i < |rest|
      ensures AcceptedAt(kinds, rest, i) && Valid(rest[i])
    {
      assert rest[i] == cs[i + 1] && AcceptedAt(kinds, cs, i + 1);
    }
    ExportLengthIsSize(cs[0]);
    ExportCommandsLength(rest);
  }

  /**
   * The exports of accepted commands, laid out one after another from where the
   * loop starts to where the declared length ends, parse back to the same commands.
   */
  lemma {:induction false} ParseCommandsOfExport(kinds: seq<Kind>, cs: seq<Command>, data: bytes, offset: nat, index: nat, length: int)
    requires Accepted(kinds, cs) && ExportCommands(cs).Success? && length == index + SizeSum(cs)
    requires offset + index + |ExportCommands(cs).value| <= |data|
    requires data[offset + index..offset + index + |ExportCommands(cs).value|] == ExportCommands(cs).value
    ensures ParseCommands(kinds, data, offset, index, length) == Success(cs)
  {
    FoundOfExport(kinds, cs, data, offset, index, length);
    ParseCommandsOfFound(kinds, cs, data, offset, index, length);
  }

  /**
   * The probes of the parse loop find `cs` one after another from `index` on, and
   * the declared length ends right after the last of them.
   */
  predicate Found(kinds: seq<Kind>, cs: seq<Command>, data: bytes, offset: nat, index: nat, length: int)
    decreases |cs|
  {
    if |cs| == 0 then index == length
    else
      && index < length
      && Probe(kinds, data, offset + index) == Success(cs[0])
      && Found(kinds, cs[1..], data, offset, index + Size(cs[0]), length)
  }

  /** When the probes find `cs` in turn, the parse loop reads `cs`. */
  lemma {:induction false} ParseCommandsOfFound(kinds: seq<Kind>, cs: seq<Command>, data: bytes, offset: nat, index: nat, length: int)
    requires Found(kinds, cs, data, offset, index, length)
    ensures ParseCommands(kinds, data, offset, index, length) == Success(cs)
    decreases |cs|
  {
    if |cs| > 0 {
      ParseCommandsOfFound(kinds, cs[1..], data, offset, index + Size(cs[0]), length);
      ParseCommandsCons(kinds, data, offset, index, length, cs);
    }
  }

  /** `cs` is a list of accepted commands whose export sits in `data` at `offset + index`. */
  predicate ExportedList(kinds: seq<Kind>, cs: seq<Command>, data: bytes, offset: nat, index: nat)
  {
    && Accepted(kinds, cs) && ExportCommands(cs).Success?
    && offset + index + |ExportCommands(cs).value| <= |data|
    && data[offset + index..offset + index + |ExportCommands(cs).value|] == ExportCommands(cs).value
  }

  /** The probes find the commands of an export in turn. */
  lemma {:induction false} FoundOfExport(kinds: seq<Kind>, cs: seq<Command>, data: bytes, offset: nat, index: nat, length: int)
    requires ExportedList(kinds, cs, data, offset, index) && length == index + SizeSum(cs)
    ensures Found(kinds, cs, data, offset, index, length)
    decreases |cs|
  {
    if |cs| == 0 {
      assert SizeSum(cs) == 0;
    } else {
      ExportedTail(kinds, cs, data, offset, index);
      FoundOfExport(kinds, cs[1..], data, offset, index + Size(cs[0]), length);
      ExportedHead(kinds, cs, data, offset, index, length);
      FoundCons(kinds, cs, data, offset, index, length);
    }
  }

  /** The probes find `cs` once they find its first command and then the rest after it. */
  lemma {:induction false} FoundCons(kinds: seq<Kind>, cs: seq<Command>, data: bytes, offset: nat, index: nat, length: int)
    requires |cs| > 0 && index < length && Probe(kinds, data, offset + index) == Success(cs[0])
    requires Found(kinds, cs[1..], data, offset, index + Size(cs[0]), length)
    ensures Found(kinds, cs, data, offset, index, length)
  {
  }

  /** What the loop finds after the first command of an exported list: the rest, exported right after it. */
  lemma {:induction false} ExportedTail(kinds: seq<Kind>, cs: seq<Command>, data: bytes, offset: nat, index: nat)
    requires |cs| > 0 && ExportedList(kinds, cs, data, offset, index)
    ensures Size(cs[0]) >= H.SIZE && SizeSum(cs) == Size(cs[0]) + SizeSum(cs[1..])
    ensures ExportedList(kinds, cs[1..], data, offset, index + Size(cs[0]))
  {
    AcceptedFirst(kinds, cs);
    ExportedRest(cs, data, offset, index);
  }

  /** The export of all commands but the first sits right after the first command's export. */
  lemma {:induction false} ExportedRest(cs: seq<Command>, data: bytes, offset: nat, index: nat)
    requires |cs| > 0 && ExportCommands(cs).Success? && Export(cs[0]).Success? && |Export(cs[0]).value| == Size(cs[0])
    requires offset + index + |ExportCommands(cs).value| <= |data|
    requires data[offset + index..offset + index + |ExportCommands(cs).value|] == ExportCommands(cs).value
    ensures ExportCommands(cs[1..]).Success?
    ensures offset + (index + Size(cs[0])) + |ExportCommands(cs[1..]).value| <= |data|
    ensures data[offset + (index + Size(cs[0]))..offset + (index + Size(cs[0])) + |ExportCommands(cs[1..]).value|]
            == ExportCommands(cs[1..]).value
  {
    ExportCommandsSplit(cs);
    SplitAfter(data, offset, index, ExportCommands(cs).value, Export(cs[0]).value, ExportCommands(cs[1..]).value, Size(cs[0]));
  }

  /** The first command of an exported list is found by the probe, before the declared length ends. */
  lemma {:induction false} ExportedHead(kinds: seq<Kind>, cs: seq<Command>, data: bytes, offset: nat, index: nat, length: int)
    requires |cs| > 0 && ExportedList(kinds, cs, data, offset, index) && length == index + SizeSum(cs)
    ensures index < length && Probe(kinds, data, offset + index) == Success(cs[0])
  {
    AcceptedFirst(kinds, cs);
    ExportCommandsSplit(cs);
    SplitAfter(data, offset, index, ExportCommands(cs).value, Export(cs[0]).value, ExportCommands(cs[1..]).value, Size(cs[0]));
    ExportedProbe(kinds, cs[0], data, offset + index);
  }

  /** The probe at an exported command of an accepted class finds that command. */
  lemma {:induction false} ExportedProbe(kinds: seq<Kind>, c: Command, data: bytes, at: nat)
    requires Valid(c) && KindOf(c) in kinds && Export(c).Success?
    requires at + |Export(c).value| <= |data| && data[at..at + |Export(c).value|] == Export(c).value
    ensures Probe(kinds, data, at) == Success(c)
  {
    assert kinds[0..] == kinds;
    ProbeFromExported(kinds, c, data, at, 0);
  }

  /** The export of an enabled segment holds the header bytes at its start and the command bytes after them. */
  lemma {:induction false} SegmentParts(h: H.Header, cs: seq<Command>, pad: bool, padding: int, data: bytes, offset: nat)
    requires ExportSegment(true, h, cs, pad, padding).Success?
    requires var e := ExportSegment(true, h, cs, pad, padding).value;
      offset + |e| <= |data| && data[offset..offset + |e|] == e
    ensures H.Export(h).Success? && ExportCommands(cs).Success?
    ensures offset + H.SIZE <= |data| && data[offset..offset + H.SIZE] == H.Export(h).value
    ensures var body := ExportCommands(cs).value;
      offset + H.SIZE + |body| <= |data| && data[offset + H.SIZE..offset + H.SIZE + |body|] == body
  {
    HeadAndNext(data, offset, ExportSegment(true, h, cs, pad, padding).value, H.Export(h).value, ExportCommands(cs).value);
  }

  /** ParseSegment in terms of the header it reads and the commands after it. */
  lemma {:induction false} ParseSegmentOf(tag: byte, kinds: seq<Kind>, data: bytes, offset: nat, h: H.Header, cs: seq<Command>)
    requires H.Parse(data, offset, Some(tag)) == Success(h)
    requires ParseCommands(kinds, data, offset, H.SIZE, h.length) == Success(cs)
    ensures ParseSegment(tag, kinds, data, offset) == Success((h.param, cs))
  {
  }

  /**
   * An enabled segment whose header length counts its accepted commands parses
   * back from its export: the same parameter and the same commands, wherever the
   * export sits in a buffer and whatever padding follows it.
   */
  lemma {:induction false} SegmentRoundTrip(tag: byte, kinds: seq<Kind>, param: byte, cs: seq<Command>, pad: bool, padding: int,
                                            data: bytes, offset: nat)
    requires Accepted(kinds, cs)
    requires ExportSegment(true, H.Header(tag, param, H.SIZE + SizeSum(cs)), cs, pad, padding).Success?
    requires var e := ExportSegment(true, H.Header(tag, param, H.SIZE + SizeSum(cs)), cs, pad, padding).value;
      offset + |e| <= |data| && data[offset..offset + |e|] == e
    ensures ParseSegment(tag, kinds, data, offset) == Success((param, cs))
  {
    var h := H.Header(tag, param, H.SIZE + SizeSum(cs));
    SegmentParts(h, cs, pad, padding, data, offset);
    SegmentOfParts(kinds, h, cs, data, offset);
  }

  /** The same, from a header and the commands' export laid out after it. */
  lemma {:induction false} SegmentOfParts(kinds: seq<Kind>, h: H.Header, cs: seq<Command>, data: bytes, offset: nat)
    requires Accepted(kinds, cs) && h.length == H.SIZE + SizeSum(cs)
    requires H.Export(h).Success? && ExportCommands(cs).Success?
    requires offset + H.SIZE <= |data| && data[offset..offset + H.SIZE] == H.Export(h).value
    requires var body := ExportCommands(cs).value;
      offset + H.SIZE + |body| <= |data| && data[offset + H.SIZE..offset + H.SIZE + |body|] == body
    ensures ParseSegment(h.tag, kinds, data, offset) == Success((h.param, cs))
  {
    H.ParseExport(h, data, offset, Some(h.tag));
    ParseCommandsOfExport(kinds, cs, data, offset, H.SIZE, h.length);
    ParseSegmentOf(h.tag, kinds, data, offset, h, cs);
  }

  /**
   * The parse loop of `SegDCD.parse` and `SegCSF.parse`, appending each command
   * to the segment as it is found.
   */
  method ParseInto(seg: CmdSegment, data: bytes, offset: nat, length: int) returns (o: Outcome)
    requires seg.commands == [] && seg.InSync()
    modifies seg
    ensures o.Pass? <==> ParseCommands(seg.kinds, data, offset, H.SIZE, length).Success?
    ensures o.Fail? ==> o.error == ParseCommands(seg.kinds, data, offset, H.SIZE, length).error
    ensures o.Pass? ==> seg.commands == ParseCommands(seg.kinds, data, offset, H.SIZE, length).value
    ensures seg.InSync() && seg.param == old(seg.param) && seg.enabled == old(seg.enabled) && seg.padding == old(seg.padding)
  {
    var index: nat := H.SIZE;
    var kinds := seg.kinds;
    ghost var spec := ParseCommands(kinds, data, offset, H.SIZE, length);
    PrependNothing(spec);
    while index < length
      invariant seg.InSync() && seg.param == old(seg.param) && seg.enabled == old(seg.enabled) && seg.padding == old(seg.padding)
      invariant Prepend(seg.commands, ParseCommands(kinds, data, offset, index, length)) == spec
      decreases length - index
    {
      var stop, next := ParseRound(seg, data, offset, index, length);
      if stop.Fail? {
        return stop;
      }
      index := next;
    }
    PrependNothing(Success(seg.commands));
    return Pass;
  }

  /**
   * One round of that loop: the probe at `offset + index`, then either the
   * exception it raised or the command appended and the index moved past it.
   */
  method ParseRound(seg: CmdSegment, data: bytes, offset: nat, index: nat, length: int) returns (stop: Outcome, next: nat)
    requires seg.InSync() && index < length
    modifies seg
    ensures seg.InSync() && seg.param == old(seg.param) && seg.enabled == old(seg.enabled) && seg.padding == old(seg.padding)
    ensures stop.Fail? ==> Prepend(old(seg.commands), ParseCommands(seg.kinds, data, offset, index, length)) == Failure(stop.error)
    ensures stop.Pass? ==> next > index && Prepend(old(seg.commands), ParseCommands(seg.kinds, data, offset, index, length))
                                           == Prepend(seg.commands, ParseCommands(seg.kinds, data, offset, next, length))
  {
    var c := ProbeCmd(seg.kinds, data, offset + index);
    if c.Failure? {
      ParseCommandsStops(seg.kinds, data, offset, index, length, seg.commands);
      return Fail(c.error), index;
    }
    ghost var acc := seg.commands;
    next := index + Size(c.value);
    ParseCommandsStep(seg.kinds, data, offset, index, length, acc);
    var appended := seg.Append(c.value);
    assert seg.commands == acc + [c.value];
    stop := Pass;
  }

  /** `SegDCD.parse(data)`: the header at the start of the data, then its commands. */
  method ParseDCD(data: bytes) returns (r: Result<CmdSegment>)
    ensures r.Failure? <==> ParseSegment(H.TAG_DCD, DCD_KINDS, data, 0).Failure?
    ensures r.Failure? ==> r.error == ParseSegment(H.TAG_DCD, DCD_KINDS, data, 0).error
    ensures r.Success? ==> fresh(r.value) && r.value.tag == H.TAG_DCD && r.value.kinds == DCD_KINDS
    ensures r.Success? ==> (r.value.param, r.value.commands) == ParseSegment(H.TAG_DCD, DCD_KINDS, data, 0).value
    ensures r.Success? ==> r.value.enabled && r.value.padding == 0 && r.value.InSync()
  {
    var h := H.Parse(data, 0, Some(H.TAG_DCD));
    if h.Failure? {
      return Failure(h.error);
    }
    var seg := new CmdSegment.DCD(h.value.param, true);
    var o := ParseInto(seg, data, 0, h.value.length);
    if o.Fail? {
      return Failure(o.error);
    }
    return Success(seg);
  }

  /** `SegCSF.parse(data, offset)`. */
  method ParseCSF(data: bytes, offset: nat) returns (r: Result<CmdSegment>)
    ensures r.Failure? <==> ParseSegment(H.TAG_CSF, CSF_KINDS, data, offset).Failure?
    ensures r.Failure? ==> r.error == ParseSegment(H.TAG_CSF, CSF_KINDS, data, offset).error
    ensures r.Success? ==> fresh(r.value) && r.value.tag == H.TAG_CSF && r.value.kinds == CSF_KINDS
    ensures r.Success? ==> (r.value.param, r.value.commands) == ParseSegment(H.TAG_CSF, CSF_KINDS, data, offset).value
    ensures r.Success? ==> r.value.enabled && r.value.padding == 0 && r.value.InSync()
  {
    var h := H.Parse(data, offset, Some(H.TAG_CSF));
    if h.Failure? {
      return Failure(h.error);
    }
    var seg := new CmdSegment.CSF(h.value.param, true);
    var o := ParseInto(seg, data, offset, h.value.length);
    if o.Fail? {
      return Failure(o.error);
    }
    return Success(seg);
  }
}
