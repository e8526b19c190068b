// Bounded reads from an in-memory stream (imx/img/misc.py): `read_raw_data` seeks,
// checks and reads exactly the requested number of bytes, and `read_raw_segment`
// reads one header-prefixed segment.
module ImgMisc {
  import opened Base
  import opened Pack
  import H = ImgHeader

  /**
   * The result of a read and the cursor position it leaves behind.
   * `read_raw_data(stream, length, index)`:
   *  - a negative index raises ValueError before anything moves;
   *  - an index that differs from the position moves the cursor there;
   *  - a negative length then raises ValueError;
   *  - otherwise the stream reads up to `length` bytes, and fewer than `length`
   *    raises "Could not read enough bytes" with the cursor already advanced.
   */
  function ReadAt(data: bytes, pos: nat, length: int, index: Option<int>): (r: (Result<bytes>, nat))
    ensures index.Some? && index.value < 0 ==> r == (Failure(ValueErr), pos)
    ensures var start := if index.Some? && index.value >= 0 then index.value else pos;
      !(index.Some? && index.value < 0) ==>
        && (length < 0 ==> r == (Failure(ValueErr), start))
        && (length >= 0 ==> (r.0.Success? <==> length == 0 || start + length <= |data|))
        && (r.0.Success? ==> |r.0.value| == length && r.1 == start + length)
        && (r.0.Success? && length > 0 ==> start + length <= |data| && r.0.value == data[start..start + length])
        && (r.0.Failure? && length >= 0 ==> r.0 == Failure(Raised("Could not read enough bytes")) && r.1 == Max(start, |data|))
  {
    if index.Some? && index.value < 0 then (Failure(ValueErr), pos)
    else
      var start: nat := if index.Some? then index.value else pos;
      if length < 0 then (Failure(ValueErr), start)
      else
        var got := Slice(data, start, start + length);
        var next := start + |got|;
        if |got| != length then (Failure(Raised("Could not read enough bytes")), next)
        else (Success(got), next)
  }

  /** Two successful reads in a row read what one read of their total length reads. */
  lemma {:induction false} ReadAtConsecutive(data: bytes, pos: nat, a: nat, b: nat)
    requires ReadAt(data, pos, a, None).0.Success?
    requires ReadAt(data, ReadAt(data, pos, a, None).1, b, None).0.Success?
    ensures var first := ReadAt(data, pos, a, None);
      var second := ReadAt(data, first.1, b, None);
      ReadAt(data, pos, a + b, None) == (Success(first.0.value + second.0.value), second.1)
  {
    if a > 0 && b > 0 {
      assert data[pos..pos + a + b] == data[pos..pos + a] + data[pos + a..pos + a + b];
    } else if a == 0 {
      assert [] + ReadAt(data, pos, b, None).0.value == ReadAt(data, pos, b, None).0.value;
    } else {
      assert ReadAt(data, pos, a, None).0.value + [] == ReadAt(data, pos, a, None).0.value;
    }
  }

  /** A `BytesIO` over fixed contents with a movable cursor. */
  class Stream {
    const data: bytes
    var pos: nat

    constructor (data: bytes)
      ensures this.data == data && pos == 0
    {
      this.data := data;
      pos := 0;
    }

    /** `seek(index, 0)`: a cursor may sit past the end. */
    method Seek(index: nat)
      modifies this
      ensures pos == index
    {
      pos := index;
    }

    /** `read(n)`: up to `n` bytes from the cursor, which advances by what was read. */
    method Read(n: nat) returns (got: bytes)
      modifies this
      ensures got == Slice(data, old(pos), old(pos) + n)
      ensures pos == old(pos) + |got|
    {
      got := Slice(data, pos, pos + n);
      pos := pos + |got|;
    }
  }

  /** `read_raw_data`: the stream steps as `ReadAt` describes. */
  method ReadRawData(stream: Stream, length: int, index: Option<int>) returns (r: Result<bytes>)
    modifies stream
    ensures (r, stream.pos) == ReadAt(stream.data, old(stream.pos), length, index)
  {
    if index.Some? {
      if index.value < 0 {
        return Failure(ValueErr);
      }
      if index.value != stream.pos {
        stream.Seek(index.value);
      }
    }
    if length < 0 {
      return Failure(ValueErr);
    }
    var got := stream.Read(length);
    if |got| != length {
      return Failure(Raised("Could not read enough bytes"));
    }
    r := Success(got);
  }

  /**
   * `read_raw_segment`: a four-byte header checked against `tag`, then `length - 4`
   * further bytes; a length below 4 makes the second read raise ValueError.
   */
  function SegmentAt(data: bytes, pos: nat, tag: byte, index: Option<int>): (r: (Result<bytes>, nat))
    ensures r.0.Success? ==> |r.0.value| >= H.SIZE
    ensures r.0.Success? ==>
      var h := H.Parse(r.0.value, 0, Some(tag));
      h.Success? && h.value.tag == tag && |r.0.value| == h.value.length
    ensures var hr := ReadAt(data, pos, H.SIZE, index);
      hr.0.Success? ==>
        (r.0 == Failure(Unparsed) <==> hr.0.value[0] != tag)
    ensures var start := if index.Some? then index.value else pos;
      r.0.Success? ==> 0 <= start && start + |r.0.value| <= |data| && r.0.value == data[start..start + |r.0.value|] && r.1 == start + |r.0.value|
  {
    var hr := ReadAt(data, pos, H.SIZE, index);
    if hr.0.Failure? then (Failure(hr.0.error), hr.1)
    else
      var h := H.Parse(hr.0.value, 0, Some(tag));
      if h.Failure? then (Failure(h.error), hr.1)
      else
        var rest := ReadAt(data, hr.1, h.value.length - H.SIZE, None);
        if rest.0.Failure? then (Failure(rest.0.error), rest.1)
        else
          var r := hr.0.value + rest.0.value;
          assert r[1..3] == hr.0.value[1..3];
          assert rest.0.value == data[hr.1..hr.1 + |rest.0.value|];
          (Success(r), rest.1)
  }

  /** A segment exported in place is read back, exactly, from the stream. */
  lemma {:induction false} SegmentAtExport(data: bytes, at: nat, seg: bytes, tag: byte)
    requires |seg| >= H.SIZE && seg[0] == tag && FromBE(seg[1..3]) == |seg|
    requires at + |seg| <= |data| && data[at..at + |seg|] == seg
    ensures SegmentAt(data, 0, tag, Some(at)) == (Success(seg), at + |seg|)
  {
    var hr := ReadAt(data, 0, H.SIZE, Some(at));
    assert hr.0.value == data[at..at + H.SIZE] == seg[..H.SIZE];
    assert hr.0.value[1..3] == seg[1..3];
    assert UnpackBE(hr.0.value, 1, 2) == Success(FromBE(seg[1..3]));
    var rest := ReadAt(data, at + H.SIZE, |seg| - H.SIZE, None);
    assert rest.0.value == data[at + H.SIZE..at + |seg|];
    assert seg == seg[..H.SIZE] + seg[H.SIZE..];
    assert data[at..at + |seg|][H.SIZE..] == data[at + H.SIZE..at + |seg|];
  }

  /** `read_raw_segment`: the stream steps as `SegmentAt` describes. */
  method ReadRawSegment(stream: Stream, tag: byte, index: Option<int>) returns (r: Result<bytes>)
    modifies stream
    ensures (r, stream.pos) == SegmentAt(stream.data, old(stream.pos), tag, index)
  {
    var hrdata := ReadRawData(stream, H.SIZE, index);
    if hrdata.Failure? {
      return Failure(hrdata.error);
    }
    var h := H.Parse(hrdata.value, 0, Some(tag));
    if h.Failure? {
      return Failure(h.error);
    }
    var rest := ReadRawData(stream, h.value.length - H.SIZE, None);
    if rest.Failure? {
      return Failure(rest.error);
    }
    r := Success(hrdata.value + rest.value);
  }
}
