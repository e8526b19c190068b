// The command objects of the older codec copy (src/imx/im/commands.py). Each keeps
// its header as a `LegacyHeader.Header` object and its list as a field; `parse`
// overwrites both in place, `append`, `pop` and `clear` move the header length in
// step with the list. Each object's state is the LegacyCommands value `Value()`,
// and every method is proved against the function that specifies it there.
module LegacyCommandObjects {
  import opened Base
  import opened Pack
  import H = ImgHeader
  import LH = LegacyHeader
  import C = ImgCommands
  import L = LegacyCommands

  /** `CmdWriteData`: address/value pairs, eight bytes each. */
  class WriteDataCmd {
    const header: LH.Header
    var pairs: seq<C.Pair>

    function Value(): L.Cmd
      reads this, header
    {
      L.WriteData(header.param, header.length, pairs)
    }

    /** `CmdWriteData(bytes, ops)`; its assertions on the arguments become the precondition. */
    constructor (width: int, ops: int)
      requires width in C.WIDTHS && ops in C.WRITE_OPS
      ensures fresh(header) && header.tag == H.CMD_WRT_DAT
      ensures Value() == L.WriteData(C.MakeParam(width, ops), H.SIZE, []) && L.Consistent(Value())
    {
      header := new LH.Header(H.CMD_WRT_DAT, C.MakeParam(width, ops));
      pairs := [];
    }

    /** The `bytes` setter: replaces the low three bits of the parameter. */
    method SetWidth(v: int) returns (o: Outcome)
      modifies header
      ensures o.Pass? <==> v in C.WIDTHS
      ensures o.Pass? ==> header.param == C.WithWidth(old(header.param), v)
      ensures o.Fail? ==> o.error == AssertErr && header.param == old(header.param)
      ensures header.length == old(header.length)
    {
      if v !in C.WIDTHS {
        return Fail(AssertErr);
      }
      header.param := C.WithWidth(header.param, v);
      return Pass;
    }

    /** The `ops` setter: replaces bits 3 and 4 of the parameter. */
    method SetOps(v: int) returns (o: Outcome)
      modifies header
      ensures o.Pass? <==> v in C.WRITE_OPS
      ensures o.Pass? ==> header.param == C.WithOps(old(header.param), v)
      ensures o.Fail? ==> o.error == AssertErr && header.param == old(header.param)
      ensures header.length == old(header.length)
    {
      if v !in C.WRITE_OPS {
        return Fail(AssertErr);
      }
      header.param := C.WithOps(header.param, v);
      return Pass;
    }

    /** `append(address, value)`: both must fit 32 bits; the header length grows by 8. */
    method Append(address: int, value: int) returns (o: Outcome)
      modifies this, header
      ensures o.Pass? <==> 0 <= address <= 0xFFFF_FFFF && 0 <= value <= 0xFFFF_FFFF
      ensures o.Pass? ==> pairs == old(pairs) + [C.Pair(address, value)] && header.length == old(header.length) + 8
      ensures o.Fail? ==> o.error == AssertErr && pairs == old(pairs) && header.length == old(header.length)
      ensures header.param == old(header.param)
      ensures L.Consistent(old(Value())) ==> L.Consistent(Value())
    {
      if !(0 <= address <= 0xFFFF_FFFF && 0 <= value <= 0xFFFF_FFFF) {
        return Fail(AssertErr);
      }
      pairs := pairs + [C.Pair(address, value)];
      header.length := header.length + 8;
      return Pass;
    }

    /** `pop(index)`: removes and returns one pair; the header length shrinks by 8. */
    method Pop(index: int) returns (r: Result<C.Pair>)
      modifies this, header
      ensures r.Success? <==> 0 <= index < |old(pairs)|
      ensures r.Success? ==> r.value == old(pairs)[index] && pairs == old(pairs)[..index] + old(pairs)[index + 1..]
      ensures r.Success? ==> header.length == old(header.length) - 8
      ensures r.Failure? ==> r.error == AssertErr && pairs == old(pairs) && header.length == old(header.length)
      ensures header.param == old(header.param)
      ensures L.Consistent(old(Value())) ==> L.Consistent(Value())
    {
      if !(0 <= index < |pairs|) {
        return Failure(AssertErr);
      }
      r := Success(pairs[index]);
      pairs := pairs[..index] + pairs[index + 1..];
      header.length := header.length - 8;
    }

    /** `clear()`: no pairs, and the header length back to the header's own size. */
    method Clear()
      modifies this, header
      ensures pairs == [] && header.length == H.SIZE && header.param == old(header.param)
      ensures L.Consistent(Value())
    {
      pairs := [];
      header.length := H.SIZE;
    }

    /** `parse(data, offset)`: the header, then `>LL` pairs appended while the index is below its length. */
    method Parse(data: bytes, offset: nat) returns (o: Outcome)
      requires header.tag == H.CMD_WRT_DAT
      modifies this, header
      ensures (Value(), o) == L.ParseInto(old(Value()), data, offset)
    {
      ghost var c0 := Value();
      o := header.Parse(data, offset);
      if o.Fail? {
        return;
      }
      var length := header.length;
      ghost var whole := L.ReadPairs(data, offset, H.SIZE, length, true);
      ghost var before := pairs;
      AfterNothing(whole);
      var index: nat := H.SIZE;
      while index < length
        modifies this
        invariant After(pairs, L.ReadPairs(data, offset, index, length, true)) == After(before, whole)
        decreases length - index
      {
        if offset + index >= |data| {
          AfterStop(pairs, before, whole, Fail(AssertErr));
          return Fail(AssertErr);
        }
        if offset + index + 8 > |data| {
          AfterStop(pairs, before, whole, Fail(StructErr));
          return Fail(StructErr);
        }
        var p := C.Pair(L.Word(data, offset + index), L.Word(data, offset + index + 4));
        AfterSnoc(pairs, p, L.ReadPairs(data, offset, index + 8, length, true));
        pairs := pairs + [p];
        index := index + 8;
      }
      AfterStop(pairs, before, whole, Pass);
    }
  }

  /** `CmdCheckData`: address, mask and an optional count; its size follows the count. */
  class CheckDataCmd {
    const header: LH.Header
    var address: u32
    var mask: u32
    var count: Option<u32>

    function Value(): L.Cmd
      reads this, header
    {
      L.CheckData(header.param, address, mask, count)
    }

    /** `CmdCheckData(bytes, ops, address, mask, count)`. */
    constructor (width: int, ops: int, address: u32, mask: u32, count: Option<u32>)
      requires width in C.WIDTHS && ops in C.CHECK_OPS
      ensures fresh(header) && header.tag == H.CMD_CHK_DAT
      ensures Value() == L.CheckData(C.MakeParam(width, ops), address, mask, count) && L.Consistent(Value())
    {
      header := new LH.Header(H.CMD_CHK_DAT, C.MakeParam(width, ops));
      this.address := address;
      this.mask := mask;
      this.count := count;
    }

    /** The `bytes` setter. */
    method SetWidth(v: int) returns (o: Outcome)
      modifies header
      ensures o.Pass? <==> v in C.WIDTHS
      ensures o.Pass? ==> header.param == C.WithWidth(old(header.param), v)
      ensures o.Fail? ==> o.error == AssertErr && header.param == old(header.param)
      ensures header.length == old(header.length)
    {
      if v !in C.WIDTHS {
        return Fail(AssertErr);
      }
      header.param := C.WithWidth(header.param, v);
      return Pass;
    }

    /** The `ops` setter. */
    method SetOps(v: int) returns (o: Outcome)
      modifies header
      ensures o.Pass? <==> v in C.CHECK_OPS
      ensures o.Pass? ==> header.param == C.WithOps(old(header.param), v)
      ensures o.Fail? ==> o.error == AssertErr && header.param == old(header.param)
      ensures header.length == old(header.length)
    {
      if v !in C.CHECK_OPS {
        return Fail(AssertErr);
      }
      header.param := C.WithOps(header.param, v);
      return Pass;
    }

    /** `parse(data, offset)`: a count is read only when the header length exceeds 12. */
    method Parse(data: bytes, offset: nat) returns (o: Outcome)
      requires header.tag == H.CMD_CHK_DAT
      modifies this, header
      ensures (Value(), o) == L.ParseInto(old(Value()), data, offset)
    {
      o := header.Parse(data, offset);
      if o.Fail? {
        return;
      }
      var at := offset + H.SIZE;
      if header.length - H.SIZE > 8 {
        if |data| < at + 12 {
          return Fail(StructErr);
        }
        address, mask, count := L.Word(data, at), L.Word(data, at + 4), Some(L.Word(data, at + 8));
      } else {
        if |data| < at + 8 {
          return Fail(StructErr);
        }
        address, mask, count := L.Word(data, at), L.Word(data, at + 4), None;
      }
    }

    /** `export()`: first sets the header length to the size, then writes header and fields. */
    method Export() returns (r: Result<bytes>)
      modifies header
      ensures header.length == L.Size(Value()) && header.param == old(header.param)
      ensures r == L.Export(Value()) && r.Success?
    {
      header.length := L.Size(Value());
      r := L.Export(Value());
    }
  }

  /** `CmdNop`: a header only, whose length `parse` takes from the wire. */
  class NopCmd {
    const header: LH.Header

    function Value(): L.Cmd
      reads header
    {
      L.Nop(header.param, header.length)
    }

    constructor (param: byte)
      ensures fresh(header) && header.tag == H.CMD_NOP
      ensures Value() == L.Nop(param, H.SIZE) && L.Consistent(Value())
    {
      header := new LH.Header(H.CMD_NOP, param);
    }

    method Parse(data: bytes, offset: nat) returns (o: Outcome)
      requires header.tag == H.CMD_NOP
      modifies header
      ensures (Value(), o) == L.ParseInto(old(Value()), data, offset)
    {
      o := header.Parse(data, offset);
    }
  }

  /** `CmdSet`: configuration entries of four bytes, the first of which is written as zero. */
  class SetCmd {
    const header: LH.Header
    var entries: seq<L.Entry>

    function Value(): L.Cmd
      reads this, header
    {
      L.Set(header.param, header.length, entries)
    }

    /**
     * `CmdSet(itm, data)`: the entries passed in are kept but the header length stays
     * 4, so the object agrees with its export only when there are none.
     */
    constructor (itm: byte, entries: seq<L.Entry>)
      requires itm in C.ITMS
      ensures fresh(header) && header.tag == H.CMD_SET
      ensures Value() == L.Set(itm, H.SIZE, entries)
      ensures L.Consistent(Value()) <==> entries == []
    {
      header := new LH.Header(H.CMD_SET, itm);
      this.entries := entries;
    }

    /** The `itm` setter. */
    method SetItm(v: int) returns (o: Outcome)
      modifies header
      ensures o.Pass? <==> v in C.ITMS
      ensures o.Pass? ==> header.param == v
      ensures o.Fail? ==> o.error == AssertErr && header.param == old(header.param)
      ensures header.length == old(header.length)
    {
      if v !in C.ITMS {
        return Fail(AssertErr);
      }
      header.param := v;
      return Pass;
    }

    /** `append(alg, eng, cfg)`: a known algorithm and engine and a byte; the length grows by 4. */
    method Append(alg: int, eng: int, cfg: int) returns (o: Outcome)
      modifies this, header
      ensures o.Pass? <==> alg in C.ALGORITHMS && eng in C.ENGINES && 0 <= cfg < 256
      ensures o.Pass? ==> entries == old(entries) + [L.Entry(alg, eng, cfg)] && header.length == old(header.length) + 4
      ensures o.Fail? ==> o.error == AssertErr && entries == old(entries) && header.length == old(header.length)
      ensures header.param == old(header.param)
      ensures L.Consistent(old(Value())) ==> L.Consistent(Value())
    {
      if !(alg in C.ALGORITHMS && eng in C.ENGINES && 0 <= cfg < 256) {
        return Fail(AssertErr);
      }
      entries := entries + [L.Entry(alg, eng, cfg)];
      header.length := header.length + 4;
      return Pass;
    }

    /** `pop(index)`: the length shrinks by 4. */
    method Pop(index: int) returns (r: Result<L.Entry>)
      modifies this, header
      ensures r.Success? <==> 0 <= index < |old(entries)|
      ensures r.Success? ==> r.value == old(entries)[index] && entries == old(entries)[..index] + old(entries)[index + 1..]
      ensures r.Success? ==> header.length == old(header.length) - 4
      ensures r.Failure? ==> r.error == AssertErr && entries == old(entries) && header.length == old(header.length)
      ensures header.param == old(header.param)
      ensures L.Consistent(old(Value())) ==> L.Consistent(Value())
    {
      if !(0 <= index < |entries|) {
        return Failure(AssertErr);
      }
      r := Success(entries[index]);
      entries := entries[..index] + entries[index + 1..];
      header.length := header.length - 4;
    }

    /** `clear()`. */
    method Clear()
      modifies this, header
      ensures entries == [] && header.length == H.SIZE && header.param == old(header.param)
      ensures L.Consistent(Value())
    {
      entries := [];
      header.length := H.SIZE;
    }

    /** `parse(data, offset)`: the header, then `4B` entries appended while the index is below its length. */
    method Parse(data: bytes, offset: nat) returns (o: Outcome)
      requires header.tag == H.CMD_SET
      modifies this, header
      ensures (Value(), o) == L.ParseInto(old(Value()), data, offset)
    {
      o := header.Parse(data, offset);
      if o.Fail? {
        return;
      }
      var length := header.length;
      ghost var whole := L.ReadEntries(data, offset, H.SIZE, length);
      ghost var before := entries;
      AfterNothing(whole);
      var index: nat := H.SIZE;
      while index < length
        modifies this
        invariant After(entries, L.ReadEntries(data, offset, index, length)) == After(before, whole)
        decreases length - index
      {
        if offset + index >= |data| {
          AfterStop(entries, before, whole, Fail(AssertErr));
          return Fail(AssertErr);
        }
        if offset + index + 4 > |data| {
          AfterStop(entries, before, whole, Fail(StructErr));
          return Fail(StructErr);
        }
        var p := offset + index;
        var e := L.Entry(data[p + 1], data[p + 2], data[p + 3]);
        AfterSnoc(entries, e, L.ReadEntries(data, offset, index + 4, length));
        entries := entries + [e];
        index := index + 4;
      }
      AfterStop(entries, before, whole, Pass);
    }
  }

  /** `CmdInitialize`: big-endian words, four bytes each. */
  class InitializeCmd {
    const header: LH.Header
    var words: seq<u32>

    function Value(): L.Cmd
      reads this, header
    {
      L.Initialize(header.param, header.length, words)
    }

    /** `CmdInitialize(engine, data)`: like Set, the words passed in are not counted in the length. */
    constructor (engine: byte, words: seq<u32>)
      requires engine in C.ENGINES
      ensures fresh(header) && header.tag == H.CMD_INIT
      ensures Value() == L.Initialize(engine, H.SIZE, words)
      ensures L.Consistent(Value()) <==> words == []
    {
      header := new LH.Header(H.CMD_INIT, engine);
      this.words := words;
    }

    /** The `engine` setter. */
    method SetEngine(v: int) returns (o: Outcome)
      modifies header
      ensures o.Pass? <==> v in C.ENGINES
      ensures o.Pass? ==> header.param == v
      ensures o.Fail? ==> o.error == AssertErr && header.param == old(header.param)
      ensures header.length == old(header.length)
    {
      if v !in C.ENGINES {
        return Fail(AssertErr);
      }
      header.param := v;
      return Pass;
    }

    /** `append(value)`: the bound is strict, so 0xFFFFFFFF is refused; the length grows by 4. */
    method Append(value: int) returns (o: Outcome)
      modifies this, header
      ensures o.Pass? <==> 0 <= value < 0xFFFF_FFFF
      ensures o.Pass? ==> words == old(words) + [value] && header.length == old(header.length) + 4
      ensures o.Fail? ==> o.error == AssertErr && words == old(words) && header.length == old(header.length)
      ensures header.param == old(header.param)
      ensures L.Consistent(old(Value())) ==> L.Consistent(Value())
    {
      if !(0 <= value < 0xFFFF_FFFF) {
        return Fail(AssertErr);
      }
      words := words + [value];
      header.length := header.length + 4;
      return Pass;
    }

    /** `pop(index)`: the length shrinks by 4. */
    method Pop(index: int) returns (r: Result<u32>)
      modifies this, header
      ensures r.Success? <==> 0 <= index < |old(words)|
      ensures r.Success? ==> r.value == old(words)[index] && words == old(words)[..index] + old(words)[index + 1..]
      ensures r.Success? ==> header.length == old(header.length) - 4
      ensures r.Failure? ==> r.error == AssertErr && words == old(words) && header.length == old(header.length)
      ensures header.param == old(header.param)
      ensures L.Consistent(old(Value())) ==> L.Consistent(Value())
    {
      if !(0 <= index < |words|) {
        return Failure(AssertErr);
      }
      r := Success(words[index]);
      words := words[..index] + words[index + 1..];
      header.length := header.length - 4;
    }

    /** `clear()`. */
    method Clear()
      modifies this, header
      ensures words == [] && header.length == H.SIZE && header.param == old(header.param)
      ensures L.Consistent(Value())
    {
      words := [];
      header.length := H.SIZE;
    }

    /** `parse(data, offset)`: the header, then `>L` words appended while the index is below its length. */
    method Parse(data: bytes, offset: nat) returns (o: Outcome)
      requires header.tag == H.CMD_INIT
      modifies this, header
      ensures (Value(), o) == L.ParseInto(old(Value()), data, offset)
    {
      o := header.Parse(data, offset);
      if o.Fail? {
        return;
      }
      var length := header.length;
      ghost var whole := L.ReadWords(data, offset, H.SIZE, length);
      ghost var before := words;
      AfterNothing(whole);
      var index: nat := H.SIZE;
      while index < length
        modifies this
        invariant After(words, L.ReadWords(data, offset, index, length)) == After(before, whole)
        decreases length - index
      {
        if offset + index >= |data| {
          AfterStop(words, before, whole, Fail(AssertErr));
          return Fail(AssertErr);
        }
        if offset + index + 4 > |data| {
          AfterStop(words, before, whole, Fail(StructErr));
          return Fail(StructErr);
        }
        var w := L.Word(data, offset + index);
        AfterSnoc(words, w, L.ReadWords(data, offset, index + 4, length));
        words := words + [w];
        index := index + 4;
      }
      AfterStop(words, before, whole, Pass);
    }
  }

  /**
   * `CmdUnlock`: big-endian words whose count alone gives the size; `append`, `pop`
   * and `clear` leave the header length alone and `export` overwrites it.
   */
  class UnlockCmd {
    const header: LH.Header
    var words: seq<u32>

    function Value(): L.Cmd
      reads this, header
    {
      L.Unlock(header.param, words)
    }

    /** `CmdUnlock(engine, data)`. */
    constructor (engine: byte, words: seq<u32>)
      requires engine in C.ENGINES
      ensures fresh(header) && header.tag == H.CMD_UNLK
      ensures Value() == L.Unlock(engine, words) && L.Consistent(Value())
    {
      header := new LH.Header(H.CMD_UNLK, engine);
      this.words := words;
    }

    /** The `engine` setter. */
    method SetEngine(v: int) returns (o: Outcome)
      modifies header
      ensures o.Pass? <==> v in C.ENGINES
      ensures o.Pass? ==> header.param == v
      ensures o.Fail? ==> o.error == AssertErr && header.param == old(header.param)
      ensures header.length == old(header.length)
    {
      if v !in C.ENGINES {
        return Fail(AssertErr);
      }
      header.param := v;
      return Pass;
    }

    /** `append(value)`: the same strict bound as Initialize. */
    method Append(value: int) returns (o: Outcome)
      modifies this
      ensures o.Pass? <==> 0 <= value < 0xFFFF_FFFF
      ensures o.Pass? ==> words == old(words) + [value] && L.Size(Value()) == L.Size(old(Value())) + 4
      ensures o.Fail? ==> o.error == AssertErr && words == old(words)
      ensures L.Consistent(Value())
    {
      if !(0 <= value < 0xFFFF_FFFF) {
        return Fail(AssertErr);
      }
      words := words + [value];
      return Pass;
    }

    /** `pop(index)`. */
    method Pop(index: int) returns (r: Result<u32>)
      modifies this
      ensures r.Success? <==> 0 <= index < |old(words)|
      ensures r.Success? ==> r.value == old(words)[index] && words == old(words)[..index] + old(words)[index + 1..]
      ensures r.Failure? ==> r.error == AssertErr && words == old(words)
      ensures L.Consistent(Value())
    {
      if !(0 <= index < |words|) {
        return Failure(AssertErr);
      }
      r := Success(words[index]);
      words := words[..index] + words[index + 1..];
    }

    /** `clear()`. */
    method Clear()
      modifies this
      ensures words == [] && L.Size(Value()) == H.SIZE
    {
      words := [];
    }

    /** `parse(data, offset)`: the header, then `>L` words appended while the index is below its length. */
    method Parse(data: bytes, offset: nat) returns (o: Outcome)
      requires header.tag == H.CMD_UNLK
      modifies this, header
      ensures (Value(), o) == L.ParseInto(old(Value()), data, offset)
    {
      o := header.Parse(data, offset);
      if o.Fail? {
        return;
      }
      var length := header.length;
      ghost var whole := L.ReadWords(data, offset, H.SIZE, length);
      ghost var before := words;
      AfterNothing(whole);
      var index: nat := H.SIZE;
      while index < length
        modifies this
        invariant After(words, L.ReadWords(data, offset, index, length)) == After(before, whole)
        decreases length - index
      {
        if offset + index >= |data| {
          AfterStop(words, before, whole, Fail(AssertErr));
          return Fail(AssertErr);
        }
        if offset + index + 4 > |data| {
          AfterStop(words, before, whole, Fail(StructErr));
          return Fail(StructErr);
        }
        var w := L.Word(data, offset + index);
        AfterSnoc(words, w, L.ReadWords(data, offset, index + 4, length));
        words := words + [w];
        index := index + 4;
      }
      AfterStop(words, before, whole, Pass);
    }

    /** `export()`: sets the header length to the size first. */
    method Export() returns (r: Result<bytes>)
      modifies header
      ensures header.length == L.Size(Value()) && header.param == old(header.param)
      ensures r == L.Export(Value())
      ensures r.Success? <==> Fits(H.SIZE + 4 * |words|, 2)
    {
      header.length := L.Size(Value());
      r := L.Export(Value());
    }
  }

  /** `CmdInstallKey`: protocol, algorithm, key indexes and key address, then hash words. */
  class InstallKeyCmd {
    const header: LH.Header
    var pcl: byte
    var alg: byte
    var src: byte
    var tgt: byte
    var keydat: u32
    var hash: seq<u32>

    function Value(): L.Cmd
      reads this, header
    {
      L.InstallKey(header.param, header.length, pcl, alg, src, tgt, keydat, hash)
    }

    /**
     * `CmdInstallKey(param, pcl, alg, src, tgt, keydat)`: protocol and algorithm go
     * through their asserting setters; the header length stays 4 although `export`
     * writes eight more bytes.
     */
    constructor (param: byte, pcl: byte, alg: byte, src: byte, tgt: byte, keydat: u32)
      requires pcl in C.CERT_FORMATS && alg in C.ALGORITHMS
      ensures fresh(header) && header.tag == H.CMD_INS_KEY
      ensures Value() == L.InstallKey(param, H.SIZE, pcl, alg, src, tgt, keydat, []) && L.Valid(Value())
    {
      header := new LH.Header(H.CMD_INS_KEY, param);
      this.pcl, this.alg, this.src, this.tgt, this.keydat := pcl, alg, src, tgt, keydat;
      hash := [];
    }

    /** The `param` setter: one of the Install Key flags. */
    method SetParam(v: int) returns (o: Outcome)
      modifies header
      ensures o.Pass? <==> v in L.INS_KEY_FLAGS
      ensures o.Pass? ==> header.param == v
      ensures o.Fail? ==> o.error == AssertErr && header.param == old(header.param)
      ensures header.length == old(header.length)
    {
      if v !in L.INS_KEY_FLAGS {
        return Fail(AssertErr);
      }
      header.param := v;
      return Pass;
    }

    /** The `pcl` setter. */
    method SetPcl(v: int) returns (o: Outcome)
      modifies this
      ensures o.Pass? <==> v in C.CERT_FORMATS
      ensures pcl == (if o.Pass? then v else old(pcl)) && (o.Fail? ==> o.error == AssertErr)
      ensures alg == old(alg) && src == old(src) && tgt == old(tgt) && keydat == old(keydat) && hash == old(hash)
    {
      if v !in C.CERT_FORMATS {
        return Fail(AssertErr);
      }
      pcl := v;
      return Pass;
    }

    /** The `alg` setter. */
    method SetAlg(v: int) returns (o: Outcome)
      modifies this
      ensures o.Pass? <==> v in C.ALGORITHMS
      ensures alg == (if o.Pass? then v else old(alg)) && (o.Fail? ==> o.error == AssertErr)
      ensures pcl == old(pcl) && src == old(src) && tgt == old(tgt) && keydat == old(keydat) && hash == old(hash)
    {
      if v !in C.ALGORITHMS {
        return Fail(AssertErr);
      }
      alg := v;
      return Pass;
    }

    /**
     * `parse(data, offset)`: the header, the `>BBBBL` fields assigned one by one (the
     * protocol and algorithm setters may raise half way), then hash words appended
     * from index 12 while the index is below the header length.
     */
    method Parse(data: bytes, offset: nat) returns (o: Outcome)
      requires header.tag == H.CMD_INS_KEY
      modifies this, header
      ensures (Value(), o) == L.ParseInto(old(Value()), data, offset)
    {
      o := header.Parse(data, offset);
      if o.Fail? {
        return;
      }
      var at := offset + H.SIZE;
      if |data| < at + 8 {
        return Fail(StructErr);
      }
      if data[at] !in C.CERT_FORMATS {
        return Fail(AssertErr);
      }
      pcl := data[at];
      if data[at + 1] !in C.ALGORITHMS {
        return Fail(AssertErr);
      }
      alg, src, tgt, keydat := data[at + 1], data[at + 2], data[at + 3], L.Word(data, at + 4);
      o := ReadHash(data, offset, header.length);
    }

    /** The hash loop of `parse`: `>L` words appended from index 12 while the index is below `length`. */
    method ReadHash(data: bytes, offset: nat, length: int) returns (o: Outcome)
      modifies this
      ensures var rd := L.ReadWords(data, offset, H.SIZE + 8, length); hash == old(hash) + rd.items && o == rd.end
      ensures pcl == old(pcl) && alg == old(alg) && src == old(src) && tgt == old(tgt) && keydat == old(keydat)
    {
      ghost var whole := L.ReadWords(data, offset, H.SIZE + 8, length);
      ghost var before := hash;
      AfterNothing(whole);
      var index: nat := H.SIZE + 8;
      while index < length
        modifies this
        invariant pcl == old(pcl) && alg == old(alg) && src == old(src) && tgt == old(tgt) && keydat == old(keydat)
        invariant After(hash, L.ReadWords(data, offset, index, length)) == After(before, whole)
        decreases length - index
      {
        if offset + index >= |data| {
          AfterStop(hash, before, whole, Fail(AssertErr));
          return Fail(AssertErr);
        }
        if offset + index + 4 > |data| {
          AfterStop(hash, before, whole, Fail(StructErr));
          return Fail(StructErr);
        }
        var w := L.Word(data, offset + index);
        AfterSnoc(hash, w, L.ReadWords(data, offset, index + 4, length));
        hash := hash + [w];
        index := index + 4;
      }
      AfterStop(hash, before, whole, Pass);
      return Pass;
    }
  }

  /** `CmdAuthData`: key index, protocol, engine, configuration and start address, then blocks. */
  class AuthDataCmd {
    const header: LH.Header
    var key: byte
    var pcl: byte
    var eng: byte
    var cfg: byte
    var authStart: u32
    var blocks: seq<C.Pair>

    function Value(): L.Cmd
      reads this, header
    {
      L.AuthData(header.param, header.length, key, pcl, eng, cfg, authStart, blocks)
    }

    /**
     * `CmdAuthData(flag, key, pcl, eng, cfg, auth_start)`: protocol and engine go
     * through their asserting setters and the header length stays 4.
     */
    constructor (flag: byte, key: byte, pcl: byte, eng: byte, cfg: byte, authStart: u32)
      requires pcl in C.CERT_FORMATS && eng in C.ENGINES
      ensures fresh(header) && header.tag == H.CMD_AUT_DAT
      ensures Value() == L.NewAuthData(flag, key, pcl, eng, cfg, authStart, []) && L.Valid(Value())
    {
      header := new LH.Header(H.CMD_AUT_DAT, flag);
      this.key, this.pcl, this.eng, this.cfg, this.authStart := key, pcl, eng, cfg, authStart;
      blocks := [];
    }

    /** The `flag` setter. */
    method SetFlag(v: int) returns (o: Outcome)
      modifies header
      ensures o.Pass? <==> v in L.AUTH_FLAGS
      ensures o.Pass? ==> header.param == v
      ensures o.Fail? ==> o.error == AssertErr && header.param == old(header.param)
      ensures header.length == old(header.length)
    {
      if v !in L.AUTH_FLAGS {
        return Fail(AssertErr);
      }
      header.param := v;
      return Pass;
    }

    /** The `pcl` setter. */
    method SetPcl(v: int) returns (o: Outcome)
      modifies this
      ensures o.Pass? <==> v in C.CERT_FORMATS
      ensures pcl == (if o.Pass? then v else old(pcl)) && (o.Fail? ==> o.error == AssertErr)
      ensures key == old(key) && eng == old(eng) && cfg == old(cfg) && authStart == old(authStart) && blocks == old(blocks)
    {
      if v !in C.CERT_FORMATS {
        return Fail(AssertErr);
      }
      pcl := v;
      return Pass;
    }

    /** The `eng` setter. */
    method SetEng(v: int) returns (o: Outcome)
      modifies this
      ensures o.Pass? <==> v in C.ENGINES
      ensures eng == (if o.Pass? then v else old(eng)) && (o.Fail? ==> o.error == AssertErr)
      ensures key == old(key) && pcl == old(pcl) && cfg == old(cfg) && authStart == old(authStart) && blocks == old(blocks)
    {
      if v !in C.ENGINES {
        return Fail(AssertErr);
      }
      eng := v;
      return Pass;
    }

    /**
     * `append(start_address, size)`: no check on either value; the length grows by 8.
     * After the constructor and a run of appends the object holds exactly `NewAuthData`.
     */
    method Append(start: u32, size: u32)
      modifies this, header
      ensures blocks == old(blocks) + [C.Pair(start, size)] && header.length == old(header.length) + 8
      ensures header.param == old(header.param)
      ensures old(Value()) == L.NewAuthData(header.param, key, pcl, eng, cfg, authStart, old(blocks))
          ==> Value() == L.NewAuthData(header.param, key, pcl, eng, cfg, authStart, blocks)
      ensures L.Consistent(old(Value())) ==> L.Consistent(Value())
    {
      blocks := blocks + [C.Pair(start, size)];
      header.length := header.length + 8;
    }

    /** `pop(index)`: the length shrinks by 8. */
    method Pop(index: int) returns (r: Result<C.Pair>)
      modifies this, header
      ensures r.Success? <==> 0 <= index < |old(blocks)|
      ensures r.Success? ==> r.value == old(blocks)[index] && blocks == old(blocks)[..index] + old(blocks)[index + 1..]
      ensures r.Success? ==> header.length == old(header.length) - 8
      ensures r.Failure? ==> r.error == AssertErr && blocks == old(blocks) && header.length == old(header.length)
      ensures header.param == old(header.param)
      ensures L.Consistent(old(Value())) ==> L.Consistent(Value())
    {
      if !(0 <= index < |blocks|) {
        return Failure(AssertErr);
      }
      r := Success(blocks[index]);
      blocks := blocks[..index] + blocks[index + 1..];
      header.length := header.length - 8;
    }

    /** `clear()`: back to the header's own size, as the constructor left it. */
    method Clear()
      modifies this, header
      ensures blocks == [] && header.length == H.SIZE && header.param == old(header.param)
      ensures Value() == L.NewAuthData(header.param, key, pcl, eng, cfg, authStart, [])
    {
      blocks := [];
      header.length := H.SIZE;
    }

    /**
     * `parse(data, offset)`: the header, the `>BBBBL` fields assigned one by one (the
     * protocol and engine setters may raise half way), then `>2L` blocks appended from
     * index 12, with no check that the index is inside the data.
     */
    method Parse(data: bytes, offset: nat) returns (o: Outcome)
      requires header.tag == H.CMD_AUT_DAT
      modifies this, header
      ensures (Value(), o) == L.ParseInto(old(Value()), data, offset)
    {
      o := header.Parse(data, offset);
      if o.Fail? {
        return;
      }
      var at := offset + H.SIZE;
      if |data| < at + 8 {
        return Fail(StructErr);
      }
      key := data[at];
      if data[at + 1] !in C.CERT_FORMATS {
        return Fail(AssertErr);
      }
      pcl := data[at + 1];
      if data[at + 2] !in C.ENGINES {
        return Fail(AssertErr);
      }
      eng, cfg, authStart := data[at + 2], data[at + 3], L.Word(data, at + 4);
      o := ReadBlocks(data, offset, header.length);
    }

    /** The block loop of `parse`: `>2L` pairs appended from index 12 while the index is below `length`. */
    method ReadBlocks(data: bytes, offset: nat, length: int) returns (o: Outcome)
      modifies this
      ensures var rd := L.ReadPairs(data, offset, H.SIZE + 8, length, false); blocks == old(blocks) + rd.items && o == rd.end
      ensures key == old(key) && pcl == old(pcl) && eng == old(eng) && cfg == old(cfg) && authStart == old(authStart)
    {
      ghost var whole := L.ReadPairs(data, offset, H.SIZE + 8, length, false);
      ghost var before := blocks;
      AfterNothing(whole);
      var index: nat := H.SIZE + 8;
      while index < length
        modifies this
        invariant key == old(key) && pcl == old(pcl) && eng == old(eng) && cfg == old(cfg) && authStart == old(authStart)
        invariant After(blocks, L.ReadPairs(data, offset, index, length, false)) == After(before, whole)
        decreases length - index
      {
        if offset + index + 8 > |data| {
          AfterStop(blocks, before, whole, Fail(StructErr));
          return Fail(StructErr);
        }
        var p := C.Pair(L.Word(data, offset + index), L.Word(data, offset + index + 4));
        AfterSnoc(blocks, p, L.ReadPairs(data, offset, index + 8, length, false));
        blocks := blocks + [p];
        index := index + 8;
      }
      AfterStop(blocks, before, whole, Pass);
      return Pass;
    }
  }
}
