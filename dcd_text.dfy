// The DCD text format of imx/img/segments.py: `SegDCD.export_txt`, one line per
// write pair or check and a blank line after every command, and `SegDCD.parse_txt`,
// the line loop that reads it back, merging consecutive write lines of one kind.
module ImgDcdText {
  import opened Base
  import opened Pack
  import opened PyText
  import opened ImgCommands
  import CS = ImgCmdSegments
  import H = ImgHeader

  /** `write_ops`: the keyword of each write operation, indexed by its `ops` value. */
  const WRITE_NAMES: seq<string> := ["WriteValue", "WriteValue1", "ClearBitMask", "SetBitMask"]

  /** `check_ops`: the keyword of each check operation, indexed by its `ops` value. */
  const CHECK_NAMES: seq<string> := ["CheckAllClear", "CheckAllSet", "CheckAnyClear", "CheckAnySet"]

  /** The parameter `parse_txt` gives a new DCD segment (`cls(enabled=True)`). */
  const TXT_PARAM: byte := 0x41

  // ---------------------------------------------------------------------------
  // Export

  /** The words of the line one write pair becomes: operation, width, address, value. */
  function WriteWords(param: byte, p: Pair): seq<string>
  {
    [WRITE_NAMES[OpsOf(param)], DecimalOf(Width(param)), Hex32(p.first), Hex32(p.second)]
  }

  function WriteLine(param: byte, p: Pair): string
  {
    JoinWords(WriteWords(param, p))
  }

  /** One line per address/value pair of a write command. */
  function WriteLines(param: byte, ps: seq<Pair>): (r: seq<string>)
    ensures |r| == |ps|
    decreases |ps|
  {
    if |ps| == 0 then [] else [WriteLine(param, ps[0])] + WriteLines(param, ps[1..])
  }

  lemma {:induction false} WriteLinesSnoc(param: byte, ps: seq<Pair>, p: Pair)
    ensures WriteLines(param, ps + [p]) == WriteLines(param, ps) + [WriteLine(param, p)]
    decreases |ps|
  {
    if |ps| == 0 {
      assert ps + [p] == [p];
    } else {
      assert (ps + [p])[1..] == ps[1..] + [p];
      WriteLinesSnoc(param, ps[1..], p);
    }
  }

  /**
   * The words of a check line. The count, when set and non-zero, follows the mask:
   * `glued` writes it straight after the mask's digits, as the source does; otherwise
   * it is a word of its own.
   */
  function CheckWords(c: Command, glued: bool): (r: seq<string>)
    requires c.CheckData?
    ensures |r| >= 4 && r[0] == CHECK_NAMES[OpsOf(c.param)]
  {
    var head := [CHECK_NAMES[OpsOf(c.param)], DecimalOf(Width(c.param)), Hex32(c.address)];
    if c.count.Some? && c.count.value != 0 then
      if glued then head + [Hex32(c.mask) + DecimalOf(c.count.value)]
      else head + [Hex32(c.mask), DecimalOf(c.count.value)]
    else head + [Hex32(c.mask)]
  }

  /**
   * The lines one command contributes, the blank separator line included: a write
   * gives a line per pair, a check one line, and every other class "Nop". Unlock is
   * handled by the caller (it raises).
   */
  function CommandLines(c: Command, glued: bool): seq<string>
  {
    match c
    case WriteData(p, ps) => WriteLines(p, ps) + [""]
    case CheckData(_, _, _, _) => [JoinWords(CheckWords(c, glued)), ""]
    case _ => ["Nop", ""]
  }

  function Lines(cs: seq<Command>, glued: bool): seq<string>
    decreases |cs|
  {
    if |cs| == 0 then [] else CommandLines(cs[0], glued) + Lines(cs[1..], glued)
  }

  /**
   * `export_txt(txt_data)` with the count written as `glued` says: the text appended
   * to `prefix`, or TypeError when a command is an Unlock (which the loop tries to
   * iterate).
   */
  function ExportTxtWith(cs: seq<Command>, prefix: string, glued: bool): (r: Result<string>)
    ensures r.Success? <==> NoUnlock(cs)
    ensures r.Failure? ==> r.error == TypeErr
    ensures r.Success? ==> r.value == prefix + Terminated(Lines(cs, glued))
  {
    if NoUnlock(cs) then Success(prefix + Terminated(Lines(cs, glued)))
    else Failure(TypeErr)
  }

  /** `export_txt` as written: a check's count is glued to its mask. */
  function ExportTxtAsWritten(cs: seq<Command>, prefix: string): (r: Result<string>)
    ensures r == ExportTxtWith(cs, prefix, true)
  {
    ExportTxtWith(cs, prefix, true)
  }

  /** `export_txt` with a space before a check's count, the form `parse_txt` reads a count in. */
  function ExportTxt(cs: seq<Command>, prefix: string): (r: Result<string>)
    ensures r == ExportTxtWith(cs, prefix, false)
  {
    ExportTxtWith(cs, prefix, false)
  }

  lemma {:induction false} LinesSnoc(cs: seq<Command>, c: Command, glued: bool)
    ensures Lines(cs + [c], glued) == Lines(cs, glued) + CommandLines(c, glued)
    decreases |cs|
  {
    if |cs| == 0 {
      assert [] + [c] == [c];
      assert Lines([c], glued) == CommandLines(c, glued) + Lines([], glued);
    } else {
      assert (cs + [c])[1..] == cs[1..] + [c];
      LinesSnoc(cs[1..], c, glued);
    }
  }

  /** Adding one more write line to the text built so far. */
  method AppendWriteLines(txt: string, param: byte, ps: seq<Pair>) returns (out: string)
    ensures out == txt + Terminated(WriteLines(param, ps))
  {
    out := txt;
    for j := 0 to |ps|
      invariant out == txt + Terminated(WriteLines(param, ps[..j]))
    {
      WriteLinesStep(txt, out, param, ps, j);
      out := out + (WriteLine(param, ps[j]) + "\n");
    }
    assert ps[..|ps|] == ps;
  }

  /** The text of one more write line is the text so far and that line. */
  lemma {:induction false} WriteLinesStep(txt: string, out: string, param: byte, ps: seq<Pair>, j: nat)
    requires j < |ps| && out == txt + Terminated(WriteLines(param, ps[..j]))
    ensures out + (WriteLine(param, ps[j]) + "\n") == txt + Terminated(WriteLines(param, ps[..j + 1]))
  {
    var front, p := ps[..j], ps[j];
    assert ps[..j + 1] == front + [p];
    WriteLinesSnoc(param, front, p);
    AppendLine(txt, out, WriteLines(param, front), WriteLine(param, p), WriteLines(param, ps[..j + 1]));
  }

  lemma {:induction false} TextPrefixStep(cs: seq<Command>, i: nat)
    requires i < |cs|
    ensures Terminated(Lines(cs[..i + 1], false)) == Terminated(Lines(cs[..i], false)) + Terminated(CommandLines(cs[i], false))
  {
    LinesSnoc(cs[..i], cs[i], false);
    assert cs[..i + 1] == cs[..i] + [cs[i]];
    TerminatedConcat(Lines(cs[..i], false), CommandLines(cs[i], false));
  }

  lemma {:induction false} TerminatedPair(line: string)
    ensures Terminated([line, ""]) == line + "\n" + "\n"
  {
    assert [line, ""][1..] == [""];
    assert Terminated([""]) == "\n";
  }

  /** The text one command adds, its blank separator line included; an Unlock raises. */
  method CommandText(c: Command) returns (r: Result<string>)
    ensures c.Unlock? ==> r == Failure(TypeErr)
    ensures !c.Unlock? ==> r == Success(Terminated(CommandLines(c, false)))
  {
    if c.WriteData? {
      var txt := AppendWriteLines("", c.param, c.pairs);
      assert txt == Terminated(WriteLines(c.param, c.pairs));
      TerminatedConcat(WriteLines(c.param, c.pairs), [""]);
      assert CommandLines(c, false) == WriteLines(c.param, c.pairs) + [""];
      assert Terminated([""]) == "\n";
      return Success(txt + "\n");
    } else if c.CheckData? {
      var line := JoinWords(CheckWords(c, false));
      TerminatedPair(line);
      return Success(line + "\n" + "\n");
    } else if c.Unlock? {
      return Failure(TypeErr);
    }
    assert CommandLines(c, false) == ["Nop", ""];
    TerminatedPair("Nop");
    return Success("Nop" + "\n" + "\n");
  }

  /** No command of the list is an Unlock. */
  predicate NoUnlock(cs: seq<Command>)
  {
    forall c :: c in cs ==> !c.Unlock?
  }

  /** The text of every command in turn, or TypeError at the first Unlock. */
  method CommandsText(cs: seq<Command>) returns (r: Result<string>)
    ensures r.Success? ==> NoUnlock(cs) && r.value == Terminated(Lines(cs, false))
    ensures r.Failure? ==> !NoUnlock(cs) && r.error == TypeErr
  {
    var txt := "";
    for i := 0 to |cs|
      invariant NoUnlock(cs[..i])
      invariant txt == Terminated(Lines(cs[..i], false))
    {
      var t := CommandText(cs[i]);
      if t.Failure? {
        assert cs[i] in cs;
        return t;
      }
      assert cs[..i + 1] == cs[..i] + [cs[i]];
      TextPrefixStep(cs, i);
      txt := txt + t.value;
    }
    assert cs[..|cs|] == cs;
    return Success(txt);
  }

  /** `SegDCD.export_txt(txt_data)`: the loop over the segment's commands, appended to `txt_data`. */
  method ExportText(seg: CS.CmdSegment, txtData: Option<string>) returns (r: Result<string>)
    ensures r == ExportTxt(seg.commands, if txtData.Some? then txtData.value else "")
  {
    var prefix := if txtData.None? then "" else txtData.value;
    var body := CommandsText(seg.commands);
    if body.Failure? {
      return body;
    }
    return Success(prefix + body.value);
  }

  // ---------------------------------------------------------------------------
  // Parse

  /** The keywords of the `cmds` table; every other first word makes a line ignored. */
  datatype Keyword = KwWrite(ops: nat) | KwCheck(ops: nat) | KwUnlock | KwNop

  function Lookup(w: string): (r: Option<Keyword>)
    ensures r.Some? && r.value.KwWrite? ==> r.value.ops in WRITE_OPS
    ensures r.Some? && r.value.KwCheck? ==> r.value.ops in CHECK_OPS
  {
    if w == WRITE_NAMES[0] then Some(KwWrite(0))
    else if w == WRITE_NAMES[1] then Some(KwWrite(1))
    else if w == WRITE_NAMES[2] then Some(KwWrite(2))
    else if w == WRITE_NAMES[3] then Some(KwWrite(3))
    else if w == CHECK_NAMES[0] then Some(KwCheck(0))
    else if w == CHECK_NAMES[1] then Some(KwCheck(1))
    else if w == CHECK_NAMES[2] then Some(KwCheck(2))
    else if w == CHECK_NAMES[3] then Some(KwCheck(3))
    else if w == "Unlock" then Some(KwUnlock)
    else if w == "Nop" then Some(KwNop)
    else None
  }

  /**
   * The loop's variables between lines: the commands appended so far, the pending
   * `cmd_write`, `cmd_mline`, and the words of a command continued with a backslash
   * (empty when none is).
   */
  datatype TxtState = TxtState(out: seq<Command>, pending: Option<Command>, mline: bool, cmd: seq<string>)

  const START: TxtState := TxtState([], None, false, [])

  /** Appending a pending write, if there is one. */
  function Flush(pending: Option<Command>): seq<Command>
  {
    if pending.Some? then [pending.value] else []
  }

  /** The pending write a line may extend: a write command the text could have produced. */
  predicate PendingOk(pending: Option<Command>)
  {
    pending.None? || (pending.value.WriteData? && Width(pending.value.param) in WIDTHS && HighBits(pending.value.param) == 0)
  }

  /** The count word of a check line, when there is one. */
  function CountWord(cmd: seq<string>): (r: Result<Option<int>>)
    ensures r.Failure? ==> |cmd| > 4 && r.error == ValueErr
    ensures |cmd| <= 4 ==> r == Success(None)
  {
    if |cmd| > 4 then
      var n :- IntAuto(cmd[4]);
      Success(Some(n))
    else Success(None)
  }

  /**
   * The pair of a parsed write line: a pending write of another kind is appended first,
   * then the pair goes into the pending write (a new one unless the kind matches).
   * Address and value must fit 32 bits.
   */
  function AddPair(out: seq<Command>, pending: Option<Command>, ops: nat, width: int, address: int, value: int): (r: Result<(seq<Command>, Option<Command>)>)
    requires ops in WRITE_OPS && PendingOk(pending)
    ensures r.Success? ==> r.value.0 == out || r.value.0 == out + Flush(pending)
    ensures r.Success? ==> PendingOk(r.value.1) && r.value.1.Some? && OpsOf(r.value.1.value.param) == ops
    ensures r.Success? ==> |r.value.1.value.pairs| > 0
    ensures r.Success? ==> var last := r.value.1.value.pairs[|r.value.1.value.pairs| - 1];
      last.first as int == address && last.second as int == value
  {
    var keep := pending.Some? && OpsOf(pending.value.param) == ops && Width(pending.value.param) == width;
    var flushed := if pending.Some? && !keep then out + [pending.value] else out;
    var w :- if keep then Success(pending.value) else NewWriteData(width, ops);
    if !(0 <= address < 0x1_0000_0000 && 0 <= value < 0x1_0000_0000) then Failure(AssertErr)
    else Success((flushed, Some(WriteData(w.param, w.pairs + [Pair(address, value)]))))
  }

  /** A write line: at least four words, the width in decimal, address and value in any base. */
  function ExecWrite(out: seq<Command>, pending: Option<Command>, ops: nat, cmd: seq<string>): (r: Result<(seq<Command>, Option<Command>)>)
    requires ops in WRITE_OPS && PendingOk(pending)
    ensures |cmd| < 4 ==> r == Failure(SyntaxErr)
    ensures r.Success? ==> r.value.0 == out || r.value.0 == out + Flush(pending)
    ensures r.Success? ==> PendingOk(r.value.1) && r.value.1.Some? && OpsOf(r.value.1.value.param) == ops
    ensures r.Success? ==> IntAuto(cmd[2]).Success? && IntAuto(cmd[3]).Success?
    ensures r.Success? ==> |r.value.1.value.pairs| > 0 && r.value.1.value.pairs[|r.value.1.value.pairs| - 1].first as int == IntAuto(cmd[2]).value
    ensures r.Success? ==> r.value.1.value.pairs[|r.value.1.value.pairs| - 1].second as int == IntAuto(cmd[3]).value
  {
    if |cmd| < 4 then Failure(SyntaxErr)
    else
      var width :- IntDecimal(cmd[1]);
      var address :- IntAuto(cmd[2]);
      var value :- IntAuto(cmd[3]);
      AddPair(out, pending, ops, width, address, value)
  }

  /**
   * A check line: at least four words, an optional count word; the pending write is
   * appended first. A width outside 1, 2, 4 fails the constructor's assertion.
   */
  function ExecCheck(out: seq<Command>, pending: Option<Command>, ops: nat, cmd: seq<string>): (r: Result<(seq<Command>, Option<Command>)>)
    requires ops in CHECK_OPS
    ensures |cmd| < 4 ==> r == Failure(SyntaxErr)
    ensures r.Success? ==> r.value.1.None? && |r.value.0| == |out + Flush(pending)| + 1
    ensures r.Success? ==> r.value.0[..|out + Flush(pending)|] == out + Flush(pending)
    ensures r.Success? ==> var c := r.value.0[|out + Flush(pending)|];
      c.CheckData? && OpsOf(c.param) == ops && IntAuto(cmd[2]) == Success(c.address as int)
      && IntAuto(cmd[3]) == Success(c.mask as int) && (c.count.Some? <==> |cmd| > 4)
  {
    if |cmd| < 4 then Failure(SyntaxErr)
    else
      var width :- IntDecimal(cmd[1]);
      var address :- IntAuto(cmd[2]);
      var mask :- IntAuto(cmd[3]);
      var count :- CountWord(cmd);
      if width !in WIDTHS then Failure(AssertErr)
      else if !(0 <= address < 0x1_0000_0000 && 0 <= mask < 0x1_0000_0000) then Failure(NotModelled)
      else if count.Some? && !(0 <= count.value < 0x1_0000_0000) then Failure(NotModelled)
      else
        var n: Option<u32> := if count.Some? then Some(count.value) else None;
        Success((out + Flush(pending) + [CheckData(MakeParam(width, ops), address, mask, n)], None))
  }

  /**
   * One complete command line, by its first word: Nop appends a Nop after the pending
   * write; Unlock is not modelled; write and check lines as above. A first word not in
   * the table (possible only for a continued line) is a lookup error.
   */
  function Exec(out: seq<Command>, pending: Option<Command>, cmd: seq<string>): (r: Result<(seq<Command>, Option<Command>)>)
    requires |cmd| > 0 && PendingOk(pending)
    ensures r.Success? ==> PendingOk(r.value.1)
    ensures r.Success? ==> |out| <= |r.value.0| && r.value.0[..|out|] == out
  {
    match Lookup(cmd[0])
    case None => Failure(IndexErr)
    case Some(KwNop) => Success((out + Flush(pending) + [Nop(0)], None))
    case Some(KwUnlock) => if |cmd| < 2 then Failure(IndexErr) else Failure(NotModelled)
    case Some(KwWrite(ops)) => ExecWrite(out, pending, ops, cmd)
    case Some(KwCheck(ops)) => ExecCheck(out, pending, ops, cmd)
  }

  /** A command's words: a trailing backslash continues it on the next line, otherwise it runs. */
  function Dispatch(out: seq<Command>, pending: Option<Command>, cmd: seq<string>): (r: Result<TxtState>)
    requires PendingOk(pending)
    ensures r.Success? ==> PendingOk(r.value.pending) && (!r.value.mline ==> r.value.cmd == [])
  {
    if |cmd| == 0 then Failure(IndexErr)
    else if cmd[|cmd| - 1] == "\\" then Success(TxtState(out, pending, true, cmd[..|cmd| - 1]))
    else
      var done :- Exec(out, pending, cmd);
      Success(TxtState(done.0, done.1, false, []))
  }

  /**
   * One pass of `parse_txt`'s loop: strip trailing NULs; skip an empty or comment line;
   * add the words to a continued command, or start one (a blank line of spaces has no
   * first word; an unknown first word skips the line).
   */
  function Step(st: TxtState, raw: string): (r: Result<TxtState>)
    requires PendingOk(st.pending)
    ensures r.Success? ==> PendingOk(r.value.pending)
    ensures r.Success? && !st.mline && st.cmd == [] ==> !r.value.mline ==> r.value.cmd == []
  {
    var line := RStripNul(raw);
    if |line| == 0 || line[0] == '#' then Success(st)
    else
      var words := Words(line);
      if st.mline then Dispatch(st.out, st.pending, st.cmd + words)
      else if |words| == 0 then Failure(IndexErr)
      else if Lookup(words[0]).None? then Success(st)
      else Dispatch(st.out, st.pending, words)
  }

  function Run(lines: seq<string>, st: TxtState): (r: Result<TxtState>)
    requires PendingOk(st.pending)
    ensures r.Success? ==> PendingOk(r.value.pending)
    decreases |lines|
  {
    if |lines| == 0 then Success(st)
    else
      var next :- Step(st, lines[0]);
      Run(lines[1..], next)
  }

  /** `parse_txt(text)`'s commands: the loop over `text.split('\n')`, then the last pending write. */
  function Parsed(text: string): (r: Result<seq<Command>>)
  {
    var st :- Run(SplitLines(text), START);
    Success(st.out + Flush(st.pending))
  }

  lemma {:induction false} RunFrom(lines: seq<string>, i: nat, st: TxtState)
    requires i < |lines| && PendingOk(st.pending)
    ensures Step(st, lines[i]).Failure? ==> Run(lines[i..], st) == Failure(Step(st, lines[i]).error)
    ensures Step(st, lines[i]).Success? ==> Run(lines[i..], st) == Run(lines[i + 1..], Step(st, lines[i]).value)
  {
    assert lines[i..][0] == lines[i] && lines[i..][1..] == lines[i + 1..];
  }

  /** `dcd_obj.append(cmd)` for a class a DCD accepts. */
  method AppendTo(seg: CS.CmdSegment, c: Command)
    requires seg.kinds == CS.DCD_KINDS && (c.WriteData? || c.CheckData? || c.Nop?)
    modifies seg
    ensures seg.commands == old(seg.commands) + [c]
    ensures seg.param == old(seg.param) && seg.enabled == old(seg.enabled) && seg.padding == old(seg.padding)
    ensures old(seg.InSync()) ==> seg.InSync()
  {
    var o := seg.Append(c);
    assert KindOf(c) in CS.DCD_KINDS;
    assert o.Pass?;
  }

  /** Appending the pending write, if any. */
  method FlushInto(seg: CS.CmdSegment, pending: Option<Command>)
    requires seg.kinds == CS.DCD_KINDS && PendingOk(pending)
    modifies seg
    ensures seg.commands == old(seg.commands) + Flush(pending)
    ensures seg.param == old(seg.param) && seg.enabled == old(seg.enabled) && seg.padding == old(seg.padding)
    ensures old(seg.InSync()) ==> seg.InSync()
  {
    if pending.Some? {
      AppendTo(seg, pending.value);
    }
  }

  /** A write line run against the segment, as `ExecWrite` describes. */
  method WriteLineInto(seg: CS.CmdSegment, pending: Option<Command>, ops: nat, cmd: seq<string>) returns (r: Result<Option<Command>>)
    requires ops in WRITE_OPS && PendingOk(pending) && seg.kinds == CS.DCD_KINDS
    modifies seg
    ensures var e := ExecWrite(old(seg.commands), pending, ops, cmd);
      && (r.Success? <==> e.Success?) && (r.Failure? ==> r.error == e.error)
      && (r.Success? ==> seg.commands == e.value.0 && r.value == e.value.1)
    ensures seg.param == old(seg.param) && seg.enabled == old(seg.enabled) && seg.padding == old(seg.padding)
    ensures old(seg.InSync()) ==> seg.InSync()
  {
    if |cmd| < 4 {
      return Failure(SyntaxErr);
    }
    var width := IntDecimal(cmd[1]);
    if width.Failure? {
      return Failure(width.error);
    }
    var address := IntAuto(cmd[2]);
    if address.Failure? {
      return Failure(address.error);
    }
    var value := IntAuto(cmd[3]);
    if value.Failure? {
      return Failure(value.error);
    }
    r := AddPairInto(seg, pending, ops, width.value, address.value, value.value);
  }

  /** The pair of a parsed write line added against the segment, as `AddPair` describes. */
  method AddPairInto(seg: CS.CmdSegment, pending: Option<Command>, ops: nat, width: int, address: int, value: int) returns (r: Result<Option<Command>>)
    requires ops in WRITE_OPS && PendingOk(pending) && seg.kinds == CS.DCD_KINDS
    modifies seg
    ensures var e := AddPair(old(seg.commands), pending, ops, width, address, value);
      && (r.Success? <==> e.Success?) && (r.Failure? ==> r.error == e.error)
      && (r.Success? ==> seg.commands == e.value.0 && r.value == e.value.1)
    ensures seg.param == old(seg.param) && seg.enabled == old(seg.enabled) && seg.padding == old(seg.padding)
    ensures old(seg.InSync()) ==> seg.InSync()
  {
    var keep := pending.Some? && OpsOf(pending.value.param) == ops && Width(pending.value.param) == width;
    var w: Command;
    if keep {
      w := pending.value;
    } else {
      FlushInto(seg, pending);
      var made := NewWriteData(width, ops);
      if made.Failure? {
        return Failure(made.error);
      }
      w := made.value;
    }
    if !(0 <= address < 0x1_0000_0000 && 0 <= value < 0x1_0000_0000) {
      return Failure(AssertErr);
    }
    return Success(Some(WriteData(w.param, w.pairs + [Pair(address, value)])));
  }

  /** A check line run against the segment, as `ExecCheck` describes. */
  method CheckLineInto(seg: CS.CmdSegment, pending: Option<Command>, ops: nat, cmd: seq<string>) returns (r: Result<Option<Command>>)
    requires ops in CHECK_OPS && PendingOk(pending) && seg.kinds == CS.DCD_KINDS
    modifies seg
    ensures var e := ExecCheck(old(seg.commands), pending, ops, cmd);
      && (r.Success? <==> e.Success?) && (r.Failure? ==> r.error == e.error)
      && (r.Success? ==> seg.commands == e.value.0 && r.value == e.value.1)
    ensures seg.param == old(seg.param) && seg.enabled == old(seg.enabled) && seg.padding == old(seg.padding)
    ensures old(seg.InSync()) ==> seg.InSync()
  {
    if |cmd| < 4 {
      return Failure(SyntaxErr);
    }
    FlushInto(seg, pending);
    var width := IntDecimal(cmd[1]);
    if width.Failure? {
      return Failure(width.error);
    }
    var address := IntAuto(cmd[2]);
    if address.Failure? {
      return Failure(address.error);
    }
    var mask := IntAuto(cmd[3]);
    if mask.Failure? {
      return Failure(mask.error);
    }
    var count := CountWord(cmd);
    if count.Failure? {
      return Failure(count.error);
    }
    if width.value !in WIDTHS {
      return Failure(AssertErr);
    }
    if !(0 <= address.value < 0x1_0000_0000 && 0 <= mask.value < 0x1_0000_0000) {
      return Failure(NotModelled);
    }
    if count.value.Some? && !(0 <= count.value.value < 0x1_0000_0000) {
      return Failure(NotModelled);
    }
    var n: Option<u32> := if count.value.Some? then Some(count.value.value) else None;
    AppendTo(seg, CheckData(MakeParam(width.value, ops), address.value, mask.value, n));
    return Success(None);
  }

  /** One complete command line run against the segment, as `Exec` describes. */
  method ExecLine(seg: CS.CmdSegment, pending: Option<Command>, cmd: seq<string>) returns (r: Result<Option<Command>>)
    requires |cmd| > 0 && PendingOk(pending) && seg.kinds == CS.DCD_KINDS
    modifies seg
    ensures var e := Exec(old(seg.commands), pending, cmd);
      && (r.Success? <==> e.Success?) && (r.Failure? ==> r.error == e.error)
      && (r.Success? ==> seg.commands == e.value.0 && r.value == e.value.1)
    ensures seg.param == old(seg.param) && seg.enabled == old(seg.enabled) && seg.padding == old(seg.padding)
    ensures old(seg.InSync()) ==> seg.InSync()
  {
    var kw := Lookup(cmd[0]);
    if kw.None? {
      return Failure(IndexErr);
    }
    match kw.value
    case KwNop =>
      FlushInto(seg, pending);
      AppendTo(seg, Nop(0));
      return Success(None);
    case KwUnlock =>
      FlushInto(seg, pending);
      if |cmd| < 2 {
        return Failure(IndexErr);
      }
      return Failure(NotModelled);
    case KwWrite(ops) =>
      r := WriteLineInto(seg, pending, ops, cmd);
    case KwCheck(ops) =>
      r := CheckLineInto(seg, pending, ops, cmd);
  }

  /** One pass of the line loop against the segment and the loop's variables, as `Step` describes. */
  method LineInto(seg: CS.CmdSegment, pending: Option<Command>, mline: bool, cmd: seq<string>, raw: string)
    returns (o: Outcome, pending': Option<Command>, mline': bool, cmd': seq<string>)
    requires PendingOk(pending) && seg.kinds == CS.DCD_KINDS
    modifies seg
    ensures var e := Step(TxtState(old(seg.commands), pending, mline, if mline then cmd else []), raw);
      && (o.Pass? <==> e.Success?) && (o.Fail? ==> o.error == e.error)
      && (o.Pass? ==> e.value == TxtState(seg.commands, pending', mline', if mline' then cmd' else []))
    ensures PendingOk(pending')
    ensures seg.param == old(seg.param) && seg.enabled == old(seg.enabled) && seg.padding == old(seg.padding)
    ensures old(seg.InSync()) ==> seg.InSync()
  {
    pending', mline', cmd' := pending, mline, cmd;
    var line := RStripNul(raw);
    if |line| == 0 || line[0] == '#' {
      return Pass, pending', mline', cmd';
    }
    var words := Words(line);
    if mline {
      cmd' := cmd + words;
      mline' := false;
    } else {
      if |words| == 0 {
        return Fail(IndexErr), pending', mline', cmd';
      }
      cmd' := words;
      if Lookup(cmd'[0]).None? {
        return Pass, pending', mline', cmd';
      }
    }
    if |cmd'| == 0 {
      return Fail(IndexErr), pending', mline', cmd';
    }
    if cmd'[|cmd'| - 1] == "\\" {
      cmd' := cmd'[..|cmd'| - 1];
      mline' := true;
      return Pass, pending', mline', cmd';
    }
    var done := ExecLine(seg, pending, cmd');
    if done.Failure? {
      return Fail(done.error), pending', mline', cmd';
    }
    pending' := done.value;
    return Pass, pending', mline', cmd';
  }

  /**
   * `SegDCD.parse_txt(text)`: an enabled DCD segment with parameter 0x41 holding the
   * commands the lines describe, in order, write lines of one kind in a row merged
   * into one command.
   */
  method ParseTxt(text: string) returns (r: Result<CS.CmdSegment>)
    ensures r.Success? <==> Parsed(text).Success?
    ensures r.Failure? ==> r.error == Parsed(text).error
    ensures r.Success? ==> fresh(r.value) && r.value.tag == H.TAG_DCD && r.value.kinds == CS.DCD_KINDS
    ensures r.Success? ==> r.value.param == TXT_PARAM && r.value.enabled && r.value.InSync()
    ensures r.Success? ==> r.value.commands == Parsed(text).value
  {
    var seg := new CS.CmdSegment.DCD(TXT_PARAM, true);
    var lines := SplitLines(text);
    var pending: Option<Command> := None;
    var mline := false;
    var cmd: seq<string> := [];
    for i := 0 to |lines|
      invariant fresh(seg) && seg.tag == H.TAG_DCD && seg.kinds == CS.DCD_KINDS
      invariant seg.param == TXT_PARAM && seg.enabled && seg.InSync()
      invariant PendingOk(pending)
      invariant Run(lines, START) == Run(lines[i..], TxtState(seg.commands, pending, mline, if mline then cmd else []))
    {
      RunFrom(lines, i, TxtState(seg.commands, pending, mline, if mline then cmd else []));
      var o;
      o, pending, mline, cmd := LineInto(seg, pending, mline, cmd, lines[i]);
      if o.Fail? {
        return Failure(o.error);
      }
    }
    assert lines[|lines|..] == [];
    FlushInto(seg, pending);
    return Success(seg);
  }

  // ---------------------------------------------------------------------------
  // Reading the exported text back

  /**
   * The mask a check line written with its count glued to the mask reads back as:
   * the mask's hex digits followed by the count's decimal digits, read in base 16.
   */
  function GluedMask(c: Command): Result<int>
    requires c.CheckData? && c.count.Some?
  {
    IntAuto(Hex32(c.mask) + DecimalOf(c.count.value))
  }

  /** Whether the check line of `c` carries a count (written after the mask). */
  predicate HasCount(c: Command)
    requires c.CheckData?
  {
    c.count.Some? && c.count.value != 0
  }

  /**
   * A command `export_txt` writes in a form `parse_txt` reads: no Unlock, and a write's
   * or check's parameter holds nothing beyond its width (1, 2 or 4) and operation. With
   * the count glued to the mask, the digits read as one number must fit 32 bits.
   */
  predicate TextExportable(c: Command, glued: bool)
  {
    match c
    case WriteData(p, _) => Width(p) in WIDTHS && HighBits(p) == 0
    case CheckData(p, _, _, n) =>
      Width(p) in WIDTHS && HighBits(p) == 0
      && (glued && HasCount(c) ==> GluedMask(c).Success? && 0 <= GluedMask(c).value < 0x1_0000_0000)
    case Unlock(_, _, _) => false
    case _ => true
  }

  /**
   * What the parser holds after reading the lines of one exported command: a write
   * with pairs extends a pending write with the same parameter or replaces it (after
   * appending it); an empty write leaves no line; a check's zero count, which is not
   * written, reads back as none, and a glued count as part of the mask; every other
   * class reads back as a Nop.
   */
  function NormStep(out: seq<Command>, pending: Option<Command>, c: Command, glued: bool): (seq<Command>, Option<Command>)
    requires TextExportable(c, glued)
  {
    match c
    case WriteData(p, ps) =>
      if |ps| == 0 then (out, pending)
      else if pending.Some? && pending.value.WriteData? && pending.value.param == p then
        (out, Some(WriteData(p, pending.value.pairs + ps)))
      else (out + Flush(pending), Some(c))
    case CheckData(p, a, m, n) =>
      var read :=
        if !HasCount(c) then CheckData(p, a, m, None)
        else if glued then CheckData(p, a, GluedMask(c).value as u32, None)
        else c;
      (out + Flush(pending) + [read], None)
    case _ => (out + Flush(pending) + [Nop(0)], None)
  }

  function ReplayFrom(out: seq<Command>, pending: Option<Command>, cs: seq<Command>, glued: bool): (seq<Command>, Option<Command>)
    requires forall c :: c in cs ==> TextExportable(c, glued)
    decreases |cs|
  {
    if |cs| == 0 then (out, pending)
    else
      assert cs[0] in cs;
      var next := NormStep(out, pending, cs[0], glued);
      ReplayFrom(next.0, next.1, cs[1..], glued)
  }

  /** The commands `parse_txt` makes of the exported text of `cs`. */
  function Replay(cs: seq<Command>, glued: bool): seq<Command>
    requires forall c :: c in cs ==> TextExportable(c, glued)
  {
    var last := ReplayFrom([], None, cs, glued);
    last.0 + Flush(last.1)
  }

  /** The words of a line the parser dispatches in one step. */
  predicate LineShape(words: seq<string>)
  {
    && |words| > 0
    && (forall i :: 0 <= i < |words| ==> IsWord(words[i]))
    && words[0][0] != '#' && Lookup(words[0]).Some?
    && words[|words| - 1] != "\\"
    && words[|words| - 1][|words[|words| - 1]| - 1] != '\0'
  }

  lemma {:induction false} NamesShape(k: nat)
    requires k < 4
    ensures IsWord(WRITE_NAMES[k]) && WRITE_NAMES[k][0] != '#' && Lookup(WRITE_NAMES[k]) == Some(KwWrite(k))
    ensures IsWord(CHECK_NAMES[k]) && CHECK_NAMES[k][0] != '#' && Lookup(CHECK_NAMES[k]) == Some(KwCheck(k))
    ensures IsWord("Nop") && Lookup("Nop") == Some(KwNop)
  {
  }

  lemma {:induction false} WordNoNewline(w: string)
    requires IsWord(w)
    ensures '\n' !in w
  {
    forall i | 0 <= i < |w|
      ensures w[i] != '\n'
    {
      assert !IsSpace(w[i]);
    }
  }

  lemma {:induction false} WordConcat(a: string, b: string)
    requires IsWord(a) && IsWord(b)
    ensures IsWord(a + b)
  {
    var c := a + b;
    forall i | 0 <= i < |c|
      ensures !IsSpace(c[i])
    {
      if i < |a| {
        assert c[i] == a[i];
      } else {
        assert c[i] == b[i - |a|];
      }
    }
  }

  /** The joined words start with the first word's first character, end with the last word's last, and hold no newline. */
  lemma {:induction false} JoinWordsEnds(words: seq<string>)
    requires |words| > 0 && forall i :: 0 <= i < |words| ==> IsWord(words[i])
    ensures IsWord(words[0]) && IsWord(words[|words| - 1])
    ensures var s := JoinWords(words); var last := words[|words| - 1];
      |s| > 0 && s[0] == words[0][0] && s[|s| - 1] == last[|last| - 1] && '\n' !in s
    decreases |words|
  {
    WordNoNewline(words[0]);
    if |words| > 1 {
      JoinWordsEnds(words[1..]);
      var rest := JoinWords(words[1..]);
      assert JoinWords(words) == words[0] + " " + rest;
      assert words[1..][|words[1..]| - 1] == words[|words| - 1];
    }
  }

  lemma {:induction false} SplitOneLine(s: string)
    requires '\n' !in s
    ensures SplitLines(s) == [s]
    decreases |s|
  {
    if |s| > 0 {
      SplitOneLine(s[1..]);
      assert [s[0]] + s[1..] == s;
    }
  }

  /** A well-shaped line, outside a continued command, runs its words at once. */
  lemma {:induction false} StepWords(st: TxtState, words: seq<string>)
    requires LineShape(words) && PendingOk(st.pending) && !st.mline
    ensures var e := Exec(st.out, st.pending, words);
      Step(st, JoinWords(words)) == if e.Success? then Success(TxtState(e.value.0, e.value.1, false, [])) else Failure(e.error)
  {
    var s := JoinWords(words);
    JoinWordsEnds(words);
    assert RStripNul(s) == s;
    WordsJoin(words);
  }

  lemma {:induction false} StepBlank(st: TxtState)
    requires PendingOk(st.pending)
    ensures Step(st, "") == Success(st)
  {
  }

  lemma {:induction false} WriteWordsShape(p: byte, pr: Pair)
    ensures LineShape(WriteWords(p, pr)) && Lookup(WriteWords(p, pr)[0]) == Some(KwWrite(OpsOf(p)))
  {
    var words := WriteWords(p, pr);
    OpsInRange(p);
    NamesShape(OpsOf(p));
    DecimalOfIsWord(Width(p));
    Hex32IsWord(pr.first);
    Hex32IsWord(pr.second);
    assert words[3] == Hex32(pr.second);
  }

  /** The pair a write line's numbers give joins the pending write or starts a new one. */
  lemma {:induction false} ExecWriteOk(out: seq<Command>, pending: Option<Command>, p: byte, pr: Pair, cmd: seq<string>)
    requires PendingOk(pending) && Width(p) in WIDTHS && HighBits(p) == 0 && |cmd| == 4
    requires IntDecimal(cmd[1]) == Success(Width(p))
    requires IntAuto(cmd[2]) == Success(pr.first as int) && IntAuto(cmd[3]) == Success(pr.second as int)
    ensures var keep := pending.Some? && pending.value.param == p;
      ExecWrite(out, pending, OpsOf(p), cmd) ==
        Success((if keep then out else out + Flush(pending),
                 Some(WriteData(p, (if keep then pending.value.pairs else []) + [pr]))))
  {
    OpsInRange(p);
    var keep := pending.Some? && pending.value.param == p;
    if pending.Some? {
      SameParam(pending.value.param, p);
    }
    assert keep <==> pending.Some? && OpsOf(pending.value.param) == OpsOf(p) && Width(pending.value.param) == Width(p);
    var w := Width(p);
    var a := pr.first as int;
    var v := pr.second as int;
    assert 0 <= a < 0x1_0000_0000 && 0 <= v < 0x1_0000_0000;
    if keep {
      assert ExecWrite(out, pending, OpsOf(p), cmd) == Success((out, Some(WriteData(p, pending.value.pairs + [pr]))));
    } else {
      ParamDeterminedByFields(p);
      assert NewWriteData(w, OpsOf(p)) == Success(WriteData(p, []));
      var flushed := if pending.Some? && !keep then out + [pending.value] else out;
      assert flushed == out + Flush(pending);
      assert Pair(a, v) == pr;
      assert ExecWrite(out, pending, OpsOf(p), cmd) == Success((flushed, Some(WriteData(p, [] + [Pair(a, v)]))));
    }
  }

  /** Two parameters the text can write are equal exactly when their widths and operations are. */
  lemma {:induction false} SameParam(p: byte, q: byte)
    requires Width(p) in WIDTHS && HighBits(p) == 0 && Width(q) in WIDTHS && HighBits(q) == 0
    ensures p == q <==> OpsOf(p) == OpsOf(q) && Width(p) == Width(q)
  {
    ParamDeterminedByFields(p);
    ParamDeterminedByFields(q);
  }

  /** A write line joins the pending write when its kind matches, else replaces it after appending it. */
  lemma {:induction false} StepWriteLine(out: seq<Command>, pending: Option<Command>, p: byte, pr: Pair)
    requires PendingOk(pending) && Width(p) in WIDTHS && HighBits(p) == 0
    ensures var keep := pending.Some? && pending.value.param == p;
      Step(TxtState(out, pending, false, []), WriteLine(p, pr)) ==
        Success(TxtState(if keep then out else out + Flush(pending),
                         Some(WriteData(p, (if keep then pending.value.pairs else []) + [pr])), false, []))
  {
    var words := WriteWords(p, pr);
    WriteWordsShape(p, pr);
    StepWords(TxtState(out, pending, false, []), words);
    IntDecimalOf(Width(p));
    IntAutoHex32(pr.first);
    IntAutoHex32(pr.second);
    ExecWriteOk(out, pending, p, pr, words);
  }

  lemma {:induction false} RunConcat(a: seq<string>, b: seq<string>, st: TxtState)
    requires PendingOk(st.pending) && Run(a, st).Success?
    ensures Run(a + b, st) == Run(b, Run(a, st).value)
    decreases |a|
  {
    if |a| == 0 {
      assert a + b == b;
    } else {
      assert (a + b)[0] == a[0] && (a + b)[1..] == a[1..] + b;
      RunConcat(a[1..], b, Step(st, a[0]).value);
    }
  }

  /** Lines each of which takes the parser from one listed state to the next run through all of them. */
  lemma {:induction false} RunSteps(lines: seq<string>, sts: seq<TxtState>)
    requires |sts| == |lines| + 1 && PendingOk(sts[0].pending)
    requires forall i :: 0 <= i < |lines| ==> PendingOk(sts[i].pending) && Step(sts[i], lines[i]) == Success(sts[i + 1])
    ensures Run(lines, sts[0]) == Success(sts[|lines|])
    decreases |lines|
  {
    if |lines| > 0 {
      assert Step(sts[0], lines[0]) == Success(sts[1]);
      RunSteps(lines[1..], sts[1..]);
    }
  }

  lemma {:induction false} WriteLinesAt(p: byte, ps: seq<Pair>, i: nat)
    requires i < |ps|
    ensures WriteLines(p, ps)[i] == WriteLine(p, ps[i])
    decreases i
  {
    if i > 0 {
      WriteLinesAt(p, ps[1..], i - 1);
    }
  }

  lemma {:induction false} SnocSlice<T>(base: seq<T>, ps: seq<T>, i: nat)
    requires i < |ps|
    ensures base + ps[..i] + [ps[i]] == base + ps[..i + 1]
  {
    assert ps[..i + 1] == ps[..i] + [ps[i]];
  }

  /**
   * The state after the first `i` lines of a write's text: the pairs read so far
   * joined to the pending write of the same kind or, otherwise, after appending it.
   */
  function WriteState(out: seq<Command>, pending: Option<Command>, p: byte, ps: seq<Pair>, i: nat): TxtState
    requires PendingOk(pending)
  {
    var keep := pending.Some? && pending.value.param == p;
    if i == 0 then TxtState(out, pending, false, [])
    else
      TxtState(if keep then out else out + Flush(pending),
               Some(WriteData(p, (if keep then pending.value.pairs else []) + ps[..if i < |ps| then i else |ps|])), false, [])
  }

  lemma {:induction false} WriteStepFirst(out: seq<Command>, pending: Option<Command>, p: byte, ps: seq<Pair>)
    requires PendingOk(pending) && Width(p) in WIDTHS && HighBits(p) == 0 && |ps| > 0
    ensures Step(WriteState(out, pending, p, ps, 0), WriteLine(p, ps[0])) == Success(WriteState(out, pending, p, ps, 1))
  {
    var keep := pending.Some? && pending.value.param == p;
    var out1 := if keep then out else out + Flush(pending);
    var base := if keep then pending.value.pairs else [];
    assert ps[..1] == [ps[0]];
    assert WriteState(out, pending, p, ps, 1) == TxtState(out1, Some(WriteData(p, base + [ps[0]])), false, []);
    StepWriteLine(out, pending, p, ps[0]);
  }

  lemma {:induction false} WriteStepNext(out: seq<Command>, pending: Option<Command>, p: byte, ps: seq<Pair>, i: nat)
    requires PendingOk(pending) && Width(p) in WIDTHS && HighBits(p) == 0 && 0 < i < |ps|
    ensures PendingOk(WriteState(out, pending, p, ps, i).pending)
    ensures Step(WriteState(out, pending, p, ps, i), WriteLine(p, ps[i])) == Success(WriteState(out, pending, p, ps, i + 1))
  {
    var keep := pending.Some? && pending.value.param == p;
    var out1 := if keep then out else out + Flush(pending);
    var base := if keep then pending.value.pairs else [];
    assert WriteState(out, pending, p, ps, i) == TxtState(out1, Some(WriteData(p, base + ps[..i])), false, []);
    StepWriteLine(out1, Some(WriteData(p, base + ps[..i])), p, ps[i]);
    SnocSlice(base, ps, i);
  }

  lemma {:induction false} WriteStepLast(out: seq<Command>, pending: Option<Command>, p: byte, ps: seq<Pair>, glued: bool)
    requires PendingOk(pending) && Width(p) in WIDTHS && HighBits(p) == 0 && |ps| > 0
    ensures PendingOk(WriteState(out, pending, p, ps, |ps|).pending)
    ensures Step(WriteState(out, pending, p, ps, |ps|), "") == Success(WriteState(out, pending, p, ps, |ps| + 1))
    ensures WriteState(out, pending, p, ps, |ps| + 1) == (var next := NormStep(out, pending, WriteData(p, ps), glued); TxtState(next.0, next.1, false, []))
  {
    assert ps[..|ps|] == ps;
    assert [] + ps == ps;
    StepBlank(WriteState(out, pending, p, ps, |ps|));
  }

  lemma {:induction false} RunWrite(out: seq<Command>, pending: Option<Command>, p: byte, ps: seq<Pair>, glued: bool)
    requires PendingOk(pending) && Width(p) in WIDTHS && HighBits(p) == 0
    ensures var next := NormStep(out, pending, WriteData(p, ps), glued);
      Run(WriteLines(p, ps) + [""], TxtState(out, pending, false, [])) == Success(TxtState(next.0, next.1, false, []))
  {
    var st := TxtState(out, pending, false, []);
    var lines := WriteLines(p, ps) + [""];
    if |ps| == 0 {
      StepBlank(st);
      RunSteps(lines, [st, st]);
    } else {
      var sts := seq(|ps| + 2, i requires 0 <= i < |ps| + 2 => WriteState(out, pending, p, ps, i));
      forall i | 0 <= i < |lines|
        ensures PendingOk(sts[i].pending) && Step(sts[i], lines[i]) == Success(sts[i + 1])
      {
        if i == 0 {
          WriteLinesAt(p, ps, 0);
          WriteStepFirst(out, pending, p, ps);
        } else if i < |ps| {
          WriteLinesAt(p, ps, i);
          WriteStepNext(out, pending, p, ps, i);
        } else {
          WriteStepLast(out, pending, p, ps, glued);
        }
      }
      RunSteps(lines, sts);
      WriteStepLast(out, pending, p, ps, glued);
    }
  }

  lemma {:induction false} CheckWordsShape(c: Command, glued: bool)
    requires c.CheckData? && TextExportable(c, glued)
    ensures LineShape(CheckWords(c, glued)) && Lookup(CheckWords(c, glued)[0]) == Some(KwCheck(OpsOf(c.param)))
  {
    if glued && HasCount(c) {
      GluedWordsShape(c);
    } else {
      var words := CheckWords(c, glued);
      OpsInRange(c.param);
      NamesShape(OpsOf(c.param));
      DecimalOfIsWord(Width(c.param));
      Hex32IsWord(c.address);
      Hex32IsWord(c.mask);
      if HasCount(c) {
        DecimalOfIsWord(c.count.value);
        var d := DecimalOf(c.count.value);
        assert d[|d| - 1] in DECIMAL;
        assert words[4] == d;
      } else {
        assert words[3] == Hex32(c.mask);
      }
    }
  }

  /** A check line whose numbers give `c`'s fields appends `c` after the pending write. */
  lemma {:induction false} ExecCheckOk(out: seq<Command>, pending: Option<Command>, c: Command, cmd: seq<string>)
    requires c.CheckData? && Width(c.param) in WIDTHS && HighBits(c.param) == 0
    requires |cmd| == 4 || |cmd| == 5
    requires IntDecimal(cmd[1]) == Success(Width(c.param))
    requires IntAuto(cmd[2]) == Success(c.address as int) && IntAuto(cmd[3]) == Success(c.mask as int)
    requires |cmd| == 5 <==> c.count.Some?
    requires |cmd| == 5 ==> IntAuto(cmd[4]) == Success(c.count.value as int)
    ensures ExecCheck(out, pending, OpsOf(c.param), cmd) == Success((out + Flush(pending) + [c], None))
  {
    OpsInRange(c.param);
    ParamDeterminedByFields(c.param);
    var count := CountWord(cmd);
    assert count.Success?;
    assert count.value.Some? ==> count.value.value == c.count.value as int;
    var n: Option<u32> := if count.value.Some? then Some(count.value.value) else None;
    assert n == c.count;
    assert CheckData(MakeParam(Width(c.param), OpsOf(c.param)), c.address, c.mask, n) == c;
  }

  lemma {:induction false} ExecCheckWords(out: seq<Command>, pending: Option<Command>, c: Command, glued: bool)
    requires PendingOk(pending) && c.CheckData? && TextExportable(c, glued)
    ensures Exec(out, pending, CheckWords(c, glued)) == Success(NormStep(out, pending, c, glued))
  {
    var words := CheckWords(c, glued);
    CheckWordsShape(c, glued);
    IntDecimalOf(Width(c.param));
    IntAutoHex32(c.address);
    if glued && HasCount(c) {
      GluedWordsShape(c);
      ExecCheckOk(out, pending, CheckData(c.param, c.address, GluedMask(c).value as u32, None), words);
    } else {
      IntAutoHex32(c.mask);
      if HasCount(c) {
        IntAutoDecimalOf(c.count.value);
        assert words[4] == DecimalOf(c.count.value);
        ExecCheckOk(out, pending, c, words);
      } else {
        ExecCheckOk(out, pending, CheckData(c.param, c.address, c.mask, None), words);
      }
    }
  }

  lemma {:induction false} RunCheck(out: seq<Command>, pending: Option<Command>, c: Command, glued: bool)
    requires PendingOk(pending) && c.CheckData? && TextExportable(c, glued)
    ensures var next := NormStep(out, pending, c, glued);
      Run(CommandLines(c, glued), TxtState(out, pending, false, [])) == Success(TxtState(next.0, next.1, false, []))
  {
    var st := TxtState(out, pending, false, []);
    var words := CheckWords(c, glued);
    CheckWordsShape(c, glued);
    StepWords(st, words);
    ExecCheckWords(out, pending, c, glued);
    var next := NormStep(out, pending, c, glued);
    var st1 := TxtState(next.0, next.1, false, []);
    StepBlank(st1);
    RunSteps([JoinWords(words), ""], [st, st1, st1]);
  }

  lemma {:induction false} RunOther(out: seq<Command>, pending: Option<Command>, c: Command, glued: bool)
    requires PendingOk(pending) && !c.WriteData? && !c.CheckData? && !c.Unlock?
    ensures var next := NormStep(out, pending, c, glued);
      Run(CommandLines(c, glued), TxtState(out, pending, false, [])) == Success(TxtState(next.0, next.1, false, []))
  {
    var st := TxtState(out, pending, false, []);
    NamesShape(0);
    assert JoinWords(["Nop"]) == "Nop";
    assert LineShape(["Nop"]);
    StepWords(st, ["Nop"]);
    var next := NormStep(out, pending, c, glued);
    var st1 := TxtState(next.0, next.1, false, []);
    StepBlank(st1);
    RunSteps(["Nop", ""], [st, st1, st1]);
  }

  lemma {:induction false} RunCommand(out: seq<Command>, pending: Option<Command>, c: Command, glued: bool)
    requires PendingOk(pending) && TextExportable(c, glued)
    ensures PendingOk(NormStep(out, pending, c, glued).1)
    ensures var next := NormStep(out, pending, c, glued);
      Run(CommandLines(c, glued), TxtState(out, pending, false, [])) == Success(TxtState(next.0, next.1, false, []))
  {
    match c
    case WriteData(p, ps) =>
      RunWrite(out, pending, p, ps, glued);
      assert CommandLines(c, glued) == WriteLines(p, ps) + [""];
    case CheckData(_, _, _, _) =>
      RunCheck(out, pending, c, glued);
    case _ =>
      RunOther(out, pending, c, glued);
  }

  /** The lines of exportable commands take the parser through the states `ReplayFrom` lists. */
  lemma {:induction false} RunLines(out: seq<Command>, pending: Option<Command>, cs: seq<Command>, glued: bool)
    requires PendingOk(pending) && forall c :: c in cs ==> TextExportable(c, glued)
    ensures var last := ReplayFrom(out, pending, cs, glued);
      Run(Lines(cs, glued), TxtState(out, pending, false, [])) == Success(TxtState(last.0, last.1, false, []))
    decreases |cs|
  {
    var st := TxtState(out, pending, false, []);
    if |cs| == 0 {
    } else {
      assert cs[0] in cs;
      RunCommand(out, pending, cs[0], glued);
      var next := NormStep(out, pending, cs[0], glued);
      assert forall c :: c in cs[1..] ==> c in cs;
      RunLines(next.0, next.1, cs[1..], glued);
      RunConcat(CommandLines(cs[0], glued), Lines(cs[1..], glued), st);
    }
  }

  lemma {:induction false} WriteLinesNoNewline(p: byte, ps: seq<Pair>)
    ensures forall l :: l in WriteLines(p, ps) ==> '\n' !in l
    decreases |ps|
  {
    if |ps| > 0 {
      WriteWordsShape(p, ps[0]);
      JoinWordsEnds(WriteWords(p, ps[0]));
      WriteLinesNoNewline(p, ps[1..]);
    }
  }

  lemma {:induction false} LinesNoNewline(cs: seq<Command>, glued: bool)
    requires forall c :: c in cs ==> TextExportable(c, glued)
    ensures forall l :: l in Lines(cs, glued) ==> '\n' !in l
    decreases |cs|
  {
    if |cs| > 0 {
      var c := cs[0];
      assert c in cs;
      assert forall d :: d in cs[1..] ==> d in cs;
      LinesNoNewline(cs[1..], glued);
      match c
      case WriteData(p, ps) =>
        WriteLinesNoNewline(p, ps);
      case CheckData(_, _, _, _) =>
        CheckWordsShape(c, glued);
        JoinWordsEnds(CheckWords(c, glued));
      case _ =>
    }
  }

  /** Reading back what `export_txt` wrote (count written as `glued` says) gives `Replay`. */
  lemma {:induction false} RoundTripWith(cs: seq<Command>, glued: bool)
    requires forall c :: c in cs ==> TextExportable(c, glued)
    ensures ExportTxtWith(cs, "", glued).Success?
    ensures Parsed(ExportTxtWith(cs, "", glued).value) == Success(Replay(cs, glued))
  {
    var ls := Lines(cs, glued);
    var text := ExportTxtWith(cs, "", glued).value;
    assert text == Terminated(ls);
    LinesNoNewline(cs, glued);
    SplitTerminated(ls, "");
    assert Terminated(ls) + "" == text;
    assert SplitLines(text) == ls + [""];
    RunLines([], None, cs, glued);
    RunConcat(ls, [""], START);
    var last := ReplayFrom([], None, cs, glued);
    StepBlank(TxtState(last.0, last.1, false, []));
  }

  /** A command list exactly as `parse_txt` would rebuild it. */
  predicate CanonicalOne(c: Command)
  {
    match c
    case WriteData(p, ps) => Width(p) in WIDTHS && HighBits(p) == 0 && |ps| > 0
    case CheckData(p, _, _, n) => Width(p) in WIDTHS && HighBits(p) == 0 && n != Some(0)
    case Nop(p) => p == 0
    case _ => false
  }

  /** Canonical: every command canonical and no two writes in a row with one parameter. */
  predicate Canonical(cs: seq<Command>)
    decreases |cs|
  {
    |cs| == 0 ||
    (CanonicalOne(cs[0])
     && (|cs| > 1 && cs[0].WriteData? && cs[1].WriteData? ==> cs[0].param != cs[1].param)
     && Canonical(cs[1..]))
  }

  lemma {:induction false} CanonicalExportable(cs: seq<Command>)
    requires Canonical(cs)
    ensures forall c :: c in cs ==> TextExportable(c, false)
    decreases |cs|
  {
    if |cs| > 0 {
      CanonicalExportable(cs[1..]);
      assert cs == [cs[0]] + cs[1..];
    }
  }

  /** Reading back one canonical command appends exactly that command. */
  lemma {:induction false} CanonicalStep(out: seq<Command>, pending: Option<Command>, c: Command)
    requires CanonicalOne(c) && PendingOk(pending) && TextExportable(c, false)
    requires pending.Some? && c.WriteData? ==> c.param != pending.value.param
    ensures var next := NormStep(out, pending, c, false);
      next.0 + Flush(next.1) == out + Flush(pending) + [c] && PendingOk(next.1) && (next.1.Some? ==> next.1 == Some(c))
  {
    if c.CheckData? {
      assert NormStep(out, pending, c, false) == (out + Flush(pending) + [c], None);
    }
  }

  lemma {:induction false} CanonicalReplay(out: seq<Command>, pending: Option<Command>, cs: seq<Command>)
    requires Canonical(cs) && PendingOk(pending) && forall c :: c in cs ==> TextExportable(c, false)
    requires pending.Some? && |cs| > 0 && cs[0].WriteData? ==> cs[0].param != pending.value.param
    ensures var last := ReplayFrom(out, pending, cs, false); last.0 + Flush(last.1) == out + Flush(pending) + cs
    decreases |cs|
  {
    if |cs| > 0 {
      assert cs[0] in cs;
      assert forall c :: c in cs[1..] ==> c in cs;
      var next := NormStep(out, pending, cs[0], false);
      CanonicalStep(out, pending, cs[0]);
      CanonicalReplay(next.0, next.1, cs[1..]);
      assert out + Flush(pending) + [cs[0]] + cs[1..] == out + Flush(pending) + cs;
    }
  }

  /**
   * The text round trip: `parse_txt(export_txt())` rebuilds a canonical command list
   * exactly, counts included, once the count is written as a word of its own.
   */
  lemma {:induction false} TextRoundTrip(cs: seq<Command>)
    requires Canonical(cs)
    ensures ExportTxt(cs, "").Success? && Parsed(ExportTxt(cs, "").value) == Success(cs)
  {
    CanonicalExportable(cs);
    RoundTripWith(cs, false);
    CanonicalReplay([], None, cs);
    assert [] + Flush(None) + cs == cs;
  }

  /** Two exported writes of one kind in a row come back as one write holding both pair lists. */
  lemma {:induction false} ParseTxtMergesWrites(p: byte, a: seq<Pair>, b: seq<Pair>)
    requires Width(p) in WIDTHS && HighBits(p) == 0 && |a| > 0 && |b| > 0
    ensures Parsed(ExportTxt([WriteData(p, a), WriteData(p, b)], "").value) == Success([WriteData(p, a + b)])
  {
    var cs := [WriteData(p, a), WriteData(p, b)];
    assert forall c :: c in cs ==> TextExportable(c, false);
    RoundTripWith(cs, false);
    var c0 := WriteData(p, a);
    var c1 := WriteData(p, b);
    assert Flush(None) == [] && [] + Flush(None) == [];
    assert NormStep([], None, c0, false) == ([], Some(c0));
    assert NormStep([], Some(c0), c1, false) == ([], Some(WriteData(p, a + b)));
    assert cs[0] == c0 && cs[1..][0] == c1 && cs[1..][1..] == [];
    assert ReplayFrom([], Some(c0), cs[1..], false) == ([], Some(WriteData(p, a + b)));
    assert ReplayFrom([], None, cs, false) == ([], Some(WriteData(p, a + b)));
    assert Replay(cs, false) == [WriteData(p, a + b)];
  }

  lemma {:induction false} GluedWordsShape(c: Command)
    requires c.CheckData? && Width(c.param) in WIDTHS && HighBits(c.param) == 0
    requires c.count.Some? && c.count.value != 0
    ensures var words := CheckWords(c, true);
      LineShape(words) && Lookup(words[0]) == Some(KwCheck(OpsOf(c.param))) && |words| == 4
      && words[1] == DecimalOf(Width(c.param)) && words[2] == Hex32(c.address)
      && words[3] == Hex32(c.mask) + DecimalOf(c.count.value)
  {
    var words := CheckWords(c, true);
    var d := DecimalOf(c.count.value);
    OpsInRange(c.param);
    NamesShape(OpsOf(c.param));
    DecimalOfIsWord(Width(c.param));
    Hex32IsWord(c.address);
    Hex32IsWord(c.mask);
    DecimalOfIsWord(c.count.value);
    WordConcat(Hex32(c.mask), d);
    assert d[|d| - 1] in DECIMAL;
    assert (Hex32(c.mask) + d)[|Hex32(c.mask) + d| - 1] == d[|d| - 1];
  }

  /**
   * `export_txt` as written glues a check's count to its mask: such a check reads back
   * with no count and with the glued digits as its mask, so never as itself.
   */
  lemma {:induction false} GluedCountLost(c: Command)
    requires c.CheckData? && TextExportable(c, true) && HasCount(c)
    ensures Parsed(ExportTxtAsWritten([c], "").value) == Success([CheckData(c.param, c.address, GluedMask(c).value as u32, None)])
    ensures Parsed(ExportTxtAsWritten([c], "").value) != Success([c])
  {
    assert forall d :: d in [c] ==> d == c;
    RoundTripWith([c], true);
    var read := CheckData(c.param, c.address, GluedMask(c).value as u32, None);
    assert NormStep([], None, c, true) == ([] + Flush(None) + [read], None);
    assert [] + Flush(None) + [read] == [read];
    assert [c][0] == c && [c][1..] == [];
    assert ReplayFrom([], None, [c], true) == ReplayFrom([read], None, [], true);
    assert ReplayFrom([], None, [c], true) == ([read], None);
    assert Replay([c], true) == [read] + Flush(None);
    assert [read] + Flush(None) == [read];
  }

  /** The smallest case: a check with mask 0 and count 5 reads back as mask 5 and no count. */
  lemma {:induction false} GluedCountReadsAsMask(c: Command)
    requires c == CheckData(MakeParam(4, 1), 0, 0, Some(5))
    ensures Parsed(ExportTxtAsWritten([c], "").value) == Success([CheckData(c.param, c.address, 5, None)])
  {
    GluedMaskValue();
    assert GluedMask(c) == Success(5);
    GluedCountLost(c);
  }

  lemma {:induction false} GluedMaskValue()
    ensures DecimalOf(5) == "5" && IntAuto(Hex32(0) + DecimalOf(5)) == Success(5)
  {
    var s := Hex32(0) + DecimalOf(5);
    var h := HexDigits(0, 8);
    assert DecimalOf(5) == "5";
    assert s[2..] == h + "5" && s[0] == '0' && s[1] == 'x';
    assert ValueOf(h, 16) == 0 && forall i :: 0 <= i < 8 ==> DigitValue(h[i]) < 16 by {
      Pow16Eight();
      HexDigitsValue(0, 8);
    }
    assert ValueOf(h + "5", 16) == 5 by {
      ValueOfSnoc(h, '5', 16);
    }
    assert DigitsIn(h + "5", 16) by {
      assert forall i :: 0 <= i < 9 ==> DigitValue((h + "5")[i]) < 16;
    }
    assert Unsigned(s) == (s, false);
  }

  /** With the count as a word of its own the same check reads back unchanged. */
  lemma {:induction false} SpacedCountReadsBack()
    ensures var c := CheckData(MakeParam(4, 1), 0, 0, Some(5));
      Parsed(ExportTxt([c], "").value) == Success([c])
  {
    var c := CheckData(MakeParam(4, 1), 0, 0, Some(5));
    assert Canonical([c]);
    TextRoundTrip([c]);
  }

  /**
   * A write or check line of fewer than four words raises SyntaxError; this is the only
   * line of the text.
   */
  lemma {:induction false} ShortLineRaises(words: seq<string>)
    requires LineShape(words) && |words| < 4
    requires Lookup(words[0]).value.KwWrite? || Lookup(words[0]).value.KwCheck?
    ensures Parsed(JoinWords(words)) == Failure(SyntaxErr)
  {
    JoinWordsEnds(words);
    SplitOneLine(JoinWords(words));
    StepWords(START, words);
  }
}
