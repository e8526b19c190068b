// The mutable side of imx/img/commands.py: the command objects whose setters and
// list operations change them in place, and the element loops of the parsers.
module ImgCommandObjects {
  import opened Base
  import opened Pack
  import H = ImgHeader
  import opened ImgCommands

  /** `CmdWriteData`: the header parameter holds width and ops; each pair adds 8 to the header length. */
  class WriteDataCmd {
    var param: byte
    var pairs: seq<Pair>

    function Value(): Command
      reads this
    {
      WriteData(param, pairs)
    }

    /** `CmdWriteData(bytes, ops)`; the assertions of the source become the precondition. */
    constructor (width: int, ops: int)
      requires width in WIDTHS && ops in WRITE_OPS
      ensures Value() == NewWriteData(width, ops).value
      ensures Valid(Value())
    {
      param := MakeParam(width, ops);
      pairs := [];
    }

    /** The `bytes` setter. */
    method SetWidth(v: int) returns (o: Outcome)
      modifies this
      ensures o.Pass? <==> v in WIDTHS
      ensures o.Pass? ==> param == WithWidth(old(param), v)
      ensures o.Fail? ==> o.error == AssertErr && param == old(param)
      ensures pairs == old(pairs)
      ensures Valid(old(Value())) ==> Valid(Value())
    {
      if v !in WIDTHS {
        return Fail(AssertErr);
      }
      param := WithWidth(param, v);
      return Pass;
    }

    /** The `ops` setter. */
    method SetOps(v: int) returns (o: Outcome)
      modifies this
      ensures o.Pass? <==> v in WRITE_OPS
      ensures o.Pass? ==> param == WithOps(old(param), v)
      ensures o.Fail? ==> o.error == AssertErr && param == old(param)
      ensures pairs == old(pairs)
      ensures Valid(old(Value())) ==> Valid(Value())
    {
      if v !in WRITE_OPS {
        return Fail(AssertErr);
      }
      param := WithOps(param, v);
      return Pass;
    }

    /** `append(address, value)`: both must fit 32 bits; the size grows by 8. */
    method Append(address: int, value: int) returns (o: Outcome)
      modifies this
      ensures o.Pass? <==> 0 <= address <= 0xFFFF_FFFF && 0 <= value <= 0xFFFF_FFFF
      ensures o.Pass? ==> pairs == old(pairs) + [Pair(address, value)]
      ensures o.Pass? ==> Size(Value()) == Size(old(Value())) + 8
      ensures o.Fail? ==> o.error == AssertErr && pairs == old(pairs)
      ensures param == old(param)
    {
      if !(0 <= address <= 0xFFFF_FFFF && 0 <= value <= 0xFFFF_FFFF) {
        return Fail(AssertErr);
      }
      pairs := pairs + [Pair(address, value)];
      return Pass;
    }

    /** `pop(index)`: removes and returns one pair; the size shrinks by 8. */
    method Pop(index: int) returns (r: Result<Pair>)
      modifies this
      ensures r.Success? <==> 0 <= index < |old(pairs)|
      ensures r.Success? ==> r.value == old(pairs)[index] && pairs == old(pairs)[..index] + old(pairs)[index + 1..]
      ensures r.Success? ==> Size(Value()) == Size(old(Value())) - 8
      ensures r.Failure? ==> r.error == AssertErr && pairs == old(pairs)
      ensures param == old(param)
    {
      if !(0 <= index < |pairs|) {
        return Failure(AssertErr);
      }
      r := Success(pairs[index]);
      pairs := pairs[..index] + pairs[index + 1..];
    }

    /** `clear()`: no pairs, the size back to the header's. */
    method Clear()
      modifies this
      ensures pairs == [] && param == old(param)
      ensures Size(Value()) == H.SIZE
    {
      pairs := [];
    }
  }

  /** `CmdCheckData`: the width and ops setters act on the header parameter. */
  class CheckDataCmd {
    var param: byte
    var address: u32
    var mask: u32
    var count: Option<u32>

    function Value(): Command
      reads this
    {
      CheckData(param, address, mask, count)
    }

    constructor (width: int, ops: int, address: u32, mask: u32, count: Option<u32>)
      requires width in WIDTHS && ops in CHECK_OPS
      ensures Value() == NewCheckData(width, ops, address, mask, count).value
      ensures Valid(Value())
    {
      param := MakeParam(width, ops);
      this.address := address;
      this.mask := mask;
      this.count := count;
    }

    method SetWidth(v: int) returns (o: Outcome)
      modifies this
      ensures o.Pass? <==> v in WIDTHS
      ensures o.Pass? ==> param == WithWidth(old(param), v)
      ensures o.Fail? ==> o.error == AssertErr && param == old(param)
      ensures address == old(address) && mask == old(mask) && count == old(count)
    {
      if v !in WIDTHS {
        return Fail(AssertErr);
      }
      param := WithWidth(param, v);
      return Pass;
    }

    method SetOps(v: int) returns (o: Outcome)
      modifies this
      ensures o.Pass? <==> v in CHECK_OPS
      ensures o.Pass? ==> param == WithOps(old(param), v)
      ensures o.Fail? ==> o.error == AssertErr && param == old(param)
      ensures address == old(address) && mask == old(mask) && count == old(count)
    {
      if v !in CHECK_OPS {
        return Fail(AssertErr);
      }
      param := WithOps(param, v);
      return Pass;
    }
  }

  /** `CmdInitialize`: the header length is kept as a field; each appended word adds 4 to it. */
  class InitializeCmd {
    var engine: byte
    var length: int
    var words: seq<u32>

    function Value(): Command
      reads this
    {
      Initialize(engine, length, words)
    }

    constructor (engine: int)
      requires engine in ENGINES
      ensures Value() == NewInitialize(engine).value
      ensures Valid(Value())
    {
      this.engine := engine;
      length := H.SIZE;
      words := [];
    }

    /** `append(value)`: the value must lie below 0xFFFFFFFF; the length grows by 4. */
    method Append(value: int) returns (o: Outcome)
      modifies this
      ensures o.Pass? <==> 0 <= value < 0xFFFF_FFFF
      ensures o.Pass? ==> words == old(words) + [value] && length == old(length) + 4
      ensures o.Fail? ==> o.error == AssertErr && words == old(words) && length == old(length)
      ensures engine == old(engine)
      ensures Valid(old(Value())) ==> Valid(Value())
    {
      if !(0 <= value < 0xFFFF_FFFF) {
        return Fail(AssertErr);
      }
      words := words + [value];
      length := length + 4;
      return Pass;
    }

    method Pop(index: int) returns (r: Result<u32>)
      modifies this
      ensures r.Success? <==> 0 <= index < |old(words)|
      ensures r.Success? ==> r.value == old(words)[index] && words == old(words)[..index] + old(words)[index + 1..]
      ensures r.Success? ==> length == old(length) - 4
      ensures r.Failure? ==> r.error == AssertErr && words == old(words) && length == old(length)
      ensures engine == old(engine)
      ensures Valid(old(Value())) ==> Valid(Value())
    {
      if !(0 <= index < |words|) {
        return Failure(AssertErr);
      }
      r := Success(words[index]);
      ghost var w := words;
      words := words[..index] + words[index + 1..];
      length := length - 4;
      assert forall i :: 0 <= i < |words| ==> words[i] == (if i < index then w[i] else w[i + 1]);
    }

    method Clear()
      modifies this
      ensures words == [] && length == H.SIZE && engine == old(engine)
    {
      words := [];
      length := H.SIZE;
    }
  }

  /** `CmdAuthData`: each block adds 8 to the header length, which starts at 12. */
  class AuthDataCmd {
    var flags: byte
    var keyIndex: byte
    var sigFormat: byte
    var engine: byte
    var engineCfg: byte
    var location: u32
    var blocks: seq<Pair>

    function Value(): Command
      reads this
    {
      AuthData(flags, keyIndex, sigFormat, engine, engineCfg, location, blocks)
    }

    constructor (flags: byte, keyIndex: int, engine: int, engineCfg: byte, location: u32)
      requires keyIndex in KEY_INDEXES && engine in ENGINES
      ensures Value() == NewAuthData(flags, keyIndex, engine, engineCfg, location).value
      ensures Valid(Value())
    {
      this.flags := flags;
      this.keyIndex := keyIndex;
      sigFormat := SIG_FORMAT_CMS;
      this.engine := engine;
      this.engineCfg := engineCfg;
      this.location := location;
      blocks := [];
    }

    /** `append(start_address, size)`: no check of its own. */
    method Append(start: u32, size: u32)
      modifies this
      ensures blocks == old(blocks) + [Pair(start, size)]
      ensures Size(Value()) == Size(old(Value())) + 8
      ensures flags == old(flags) && keyIndex == old(keyIndex) && sigFormat == old(sigFormat)
      ensures engine == old(engine) && engineCfg == old(engineCfg) && location == old(location)
    {
      blocks := blocks + [Pair(start, size)];
    }

    method Pop(index: int) returns (r: Result<Pair>)
      modifies this
      ensures r.Success? <==> 0 <= index < |old(blocks)|
      ensures r.Success? ==> r.value == old(blocks)[index] && blocks == old(blocks)[..index] + old(blocks)[index + 1..]
      ensures r.Failure? ==> r.error == AssertErr && blocks == old(blocks)
      ensures flags == old(flags) && keyIndex == old(keyIndex) && sigFormat == old(sigFormat)
      ensures engine == old(engine) && engineCfg == old(engineCfg) && location == old(location)
    {
      if !(0 <= index < |blocks|) {
        return Failure(AssertErr);
      }
      r := Success(blocks[index]);
      blocks := blocks[..index] + blocks[index + 1..];
    }

    method Clear()
      modifies this
      ensures blocks == [] && Size(Value()) == H.SIZE + 8
      ensures flags == old(flags) && keyIndex == old(keyIndex) && sigFormat == old(sigFormat)
      ensures engine == old(engine) && engineCfg == old(engineCfg) && location == old(location)
    {
      blocks := [];
    }
  }

  // ---------------------------------------------------------------------------
  // Parse loops

  /** The `while index < header.length` loop shared by Write Data and Authenticate Data. */
  method ReadPairs(data: bytes, offset: nat, start: nat, length: int) returns (r: Result<seq<Pair>>)
    ensures r == ParsePairs(data, offset, start, length)
  {
    var pairs: seq<Pair> := [];
    var index: nat := start;
    PrependNothing(ParsePairs(data, offset, start, length));
    while index < length
      invariant Prepend(pairs, ParsePairs(data, offset, index, length)) == ParsePairs(data, offset, start, length)
      decreases length - index
    {
      var a := UnpackBE32(data, offset + index);
      if a.Failure? {
        return Failure(a.error);
      }
      var v := UnpackBE32(data, offset + index + 4);
      if v.Failure? {
        return Failure(v.error);
      }
      ghost var tail := ParsePairs(data, offset, index + 8, length);
      if tail.Success? {
        assert pairs + ([Pair(a.value, v.value)] + tail.value) == (pairs + [Pair(a.value, v.value)]) + tail.value;
      }
      pairs := pairs + [Pair(a.value, v.value)];
      index := index + 8;
    }
    PrependNothing(Success(pairs));
    return Success(pairs);
  }

  /** `CmdWriteData.parse`. */
  method ParseWriteDataCmd(data: bytes, offset: nat) returns (r: Result<Command>)
    ensures r == ParseWriteData(data, offset)
  {
    var h := H.Parse(data, offset, Some(H.CMD_WRT_DAT));
    if h.Failure? {
      return Failure(h.error);
    }
    var c := NewWriteData(Width(h.value.param), OpsOf(h.value.param));
    if c.Failure? {
      return Failure(c.error);
    }
    var ps := ReadPairs(data, offset, H.SIZE, h.value.length);
    if ps.Failure? {
      return Failure(ps.error);
    }
    return Success(c.value.(pairs := ps.value));
  }

  /** `CmdInitialize.parse`: each step asserts the offset lies inside the data before unpacking. */
  method ParseInitializeCmd(data: bytes, offset: nat) returns (r: Result<Command>)
    ensures r == ParseInitialize(data, offset)
  {
    var h := H.Parse(data, offset, Some(H.CMD_INIT));
    if h.Failure? {
      return Failure(h.error);
    }
    var c := NewInitialize(h.value.param);
    if c.Failure? {
      return Failure(c.error);
    }
    var length := h.value.length;
    var words: seq<u32> := [];
    var index: nat := H.SIZE;
    PrependNothing(ParseWords(data, offset, H.SIZE, length));
    while index < length
      invariant Prepend(words, ParseWords(data, offset, index, length)) == ParseWords(data, offset, H.SIZE, length)
      decreases length - index
    {
      if offset + index >= |data| {
        return Failure(AssertErr);
      }
      var w := UnpackBE32(data, offset + index);
      if w.Failure? {
        return Failure(w.error);
      }
      if w.value >= 0xFFFF_FFFF {
        return Failure(AssertErr);
      }
      ghost var tail := ParseWords(data, offset, index + 4, length);
      if tail.Success? {
        assert words + ([w.value] + tail.value) == (words + [w.value]) + tail.value;
      }
      words := words + [w.value];
      index := index + 4;
    }
    PrependNothing(Success(words));
    return Success(Initialize(h.value.param, H.SIZE + 4 * |words|, words));
  }

  /** `CmdAuthData.parse`. */
  method ParseAuthDataCmd(data: bytes, offset: nat) returns (r: Result<Command>)
    ensures r == ParseAuthData(data, offset)
  {
    var h := H.Parse(data, offset, Some(H.CMD_AUT_DAT));
    if h.Failure? {
      return Failure(h.error);
    }
    if |data| < offset + 12 {
      return Failure(StructErr);
    }
    var location := UnpackBE32(data, offset + 8).value;
    var c := NewAuthData(h.value.param, data[offset + 4], data[offset + 6], data[offset + 7], location);
    if c.Failure? {
      return Failure(c.error);
    }
    var bs := ReadPairs(data, offset, H.SIZE + 8, h.value.length);
    if bs.Failure? {
      return Failure(bs.error);
    }
    return Success(c.value.(sigFormat := data[offset + 5], blocks := bs.value));
  }
}
