// The top-level `parse` of imx/img/images.py: a probe every `step` bytes that
// recognises the first IVT header of a known generation and hands the buffer from
// there to that generation's own `parse`.
module ImgParse {
  import opened Base
  import H = ImgHeader
  import M = ImgMisc
  import P = Pack
  import I = ImgImages
  import B = ImgBootImg3
  import B3 = ImgBootImg3b

  /** The image classes the top-level `parse` returns. */
  datatype BootImage =
    | Image2(v2: I.BootImg2)
    | Image3a(v3a: B.BootImg3a)
    | Image3b(v3b: B3.BootImg3b)
  {
    /** The image object a parse result holds. */
    function Image(): object
    {
      match this
      case Image2(img) => img
      case Image3a(img) => img
      case Image3b(img) => img
    }

    /** The image object and the command segments it holds. */
    function Repr(): set<object>
      reads Image()
    {
      match this
      case Image2(img) => {img, img.dcd, img.csf}
      case Image3a(img) => {img, img.dcd, img.csf}
      case Image3b(img) => {img, img.dcd, img.csf}
    }
  }

  /** The step each generation's own `parse` uses when it is called with its default. */
  const DEFAULT_STEP: nat := 0x100

  /**
   * The first probed position at or after `pos` whose four header bytes the dispatch
   * recognises, and what it recognises there; the loop runs while `pos < len - 4`.
   */
  function Locate(data: bytes, pos: nat, step: nat): (r: Option<(nat, I.Kind)>)
    requires step > 0
    ensures r.Some? ==> pos <= r.value.0 && r.value.0 + H.SIZE < |data|
    ensures r.Some? ==> I.Classify(data[r.value.0..r.value.0 + H.SIZE]) == Some(r.value.1)
    decreases |data| - pos
  {
    if pos + H.SIZE >= |data| then None
    else
      match I.Classify(data[pos..pos + H.SIZE])
      case Some(k) => Some((pos, k))
      case None => Locate(data, pos + step, step)
  }

  /** No position the probe visits before the one it stops at is recognised. */
  lemma {:induction false} LocateFirst(data: bytes, pos: nat, step: nat, k: nat)
    requires step > 0 && pos + k * step + H.SIZE < |data|
    requires Locate(data, pos, step).None? || pos + k * step < Locate(data, pos, step).value.0
    ensures I.Classify(data[pos + k * step..pos + k * step + H.SIZE]).None?
    decreases k
  {
    assert pos + H.SIZE < |data| by {
      assert pos <= pos + k * step;
    }
    if k == 0 {
      assert pos + k * step == pos;
    } else {
      assert I.Classify(data[pos..pos + H.SIZE]).None?;
      assert pos + k * step == (pos + step) + (k - 1) * step;
      LocateFirst(data, pos + step, step, k - 1);
    }
  }

  /**
   * Every header a generation's own probe accepts is one the top-level dispatch sends
   * to that generation, so the top-level probe never skips an image its class would
   * have found at the same position.
   */
  lemma {:induction false} AcceptedIsClassified(data: bytes, pos: nat, kind: I.Kind)
    requires pos + H.SIZE < |data| && I.Accepts(kind, I.HeaderAt(data, pos))
    ensures I.Classify(data[pos..pos + H.SIZE]) == Some(kind)
  {
    var hdr := data[pos..pos + H.SIZE];
    var h := I.HeaderAt(data, pos);
    var len := hdr[1..3];
    assert len[..1][..0] == [];
    assert P.FromBE(len) == hdr[1] as int * 256 + hdr[2] as int;
    assert h.length == P.FromBE(len);
  }

  /**
   * What a successful parse returns: the class the first recognised header names,
   * built by that class's own `parse` in the buffer from that header on.
   */
  ghost predicate Dispatched(data: bytes, step: nat, img: BootImage)
    requires step > 0
    reads img.Image(), img.Repr()
  {
    match Locate(data, 0, step)
    case None => false
    case Some((p, kind)) => DispatchedAt(data, p, kind, img)
  }

  /**
   * The error the hand-over to a header of `kind` at `p` raises, or `None` when it
   * succeeds: a v4 header is not modelled; otherwise the class's own probe, entered
   * at `p` and bounded by the buffer's size from `p` less four, finds no header and
   * raises "Not an i.MX Boot Image", or the class's reads from the header it finds
   * raise, or they succeed.
   */
  ghost function HandOverError(data: bytes, p: nat, kind: I.Kind): Option<Error>
    requires p <= |data|
  {
    match kind
    case V4 => Some(NotModelled)
    case V2 =>
      var found := I.Find(I.V2, data, p, DEFAULT_STEP, |data| - p);
      if found.None? then Some(Raised(I.NOT_IMX))
      else
        var rd := I.ReadV2(data, found.value, |data| - p);
        if rd.Failure? then Some(rd.error) else None
    case V3a =>
      var found := I.Find(I.V3a, data, p, DEFAULT_STEP, |data| - p);
      if found.None? then Some(Raised(I.NOT_IMX))
      else
        var rd := B.ReadV3a(data, found.value);
        if rd.Failure? then Some(rd.error) else None
    case V3b =>
      var found := I.Find(I.V3b, data, p, DEFAULT_STEP, |data| - p);
      if found.None? then Some(Raised(I.NOT_IMX))
      else
        var rd := B3.ReadV3b(data, found.value);
        if rd.Failure? then Some(rd.error) else None
  }

  /**
   * The image a header of `kind` at `p` hands over to: that class, whose probe finds
   * a header and whose reads from it succeed, built from those reads exactly as the
   * class's own `parse` builds it.
   */
  ghost predicate DispatchedAt(data: bytes, p: nat, kind: I.Kind, img: BootImage)
    requires p <= |data|
    reads img.Image(), img.Repr()
  {
    match img
    case Image2(v) =>
      && kind == I.V2
      && var found := I.Find(I.V2, data, p, DEFAULT_STEP, |data| - p);
      && found.Some?
      && var rd := I.ReadV2(data, found.value, |data| - p);
      && rd.Success? && v.BuiltFrom(rd.value)
    case Image3a(v) =>
      && kind == I.V3a
      && var found := I.Find(I.V3a, data, p, DEFAULT_STEP, |data| - p);
      && found.Some?
      && var rd := B.ReadV3a(data, found.value);
      && rd.Success? && v.BuiltFrom(rd.value)
    case Image3b(v) =>
      && kind == I.V3b
      && var found := I.Find(I.V3b, data, p, DEFAULT_STEP, |data| - p);
      && found.Some?
      && var rd := B3.ReadV3b(data, found.value);
      && rd.Success? && v.BuiltFrom(rd.value)
  }

  /**
   * `parse(buffer, step)`: probe every `step` bytes; at the first recognised header
   * hand the rest of the buffer to BootImg2, BootImg3b or BootImg3a `parse`, whose
   * result or error is the whole's; a v4 header raises, as BootImg4 is not part of
   * this model; nothing recognised raises "Not an i.MX Boot Image".
   */
  method ParseImage(data: bytes, step: nat) returns (r: Result<BootImage>)
    requires step > 0
    ensures Locate(data, 0, step).None? ==> r == Failure(Raised(I.NOT_IMX))
    ensures Locate(data, 0, step).Some? ==>
      var e := HandOverError(data, Locate(data, 0, step).value.0, Locate(data, 0, step).value.1);
      && (r.Success? <==> e.None?)
      && (e.Some? ==> r == Failure(e.value))
    ensures r.Success? ==> Locate(data, 0, step).Some? && fresh(r.value.Image())
    ensures r.Success? ==> Dispatched(data, step, r.value)
  {
    var stream := new M.Stream(data);
    while stream.pos + H.SIZE < |stream.data|
      invariant stream.data == data
      invariant Locate(data, stream.pos, step) == Locate(data, 0, step)
      decreases |stream.data| - stream.pos
    {
      var p := stream.pos;
      var kind := ClassifyAt(stream);
      if kind.Some? {
        r := Dispatch(data, p, kind.value);
        return;
      }
      stream.Seek(stream.pos + step);
    }
    return Failure(Raised(I.NOT_IMX));
  }

  /** The four header bytes at the cursor, classified, with the cursor stepped back over them. */
  method ClassifyAt(stream: M.Stream) returns (kind: Option<I.Kind>)
    requires stream.pos + H.SIZE < |stream.data|
    modifies stream
    ensures stream.pos == old(stream.pos)
    ensures kind == I.Classify(stream.data[stream.pos..stream.pos + H.SIZE])
  {
    ghost var at := stream.pos;
    var hrd := M.ReadRawData(stream, H.SIZE, None);
    assert hrd == Success(stream.data[at..at + H.SIZE]);
    stream.Seek(stream.pos - H.SIZE);
    kind := I.Classify(hrd.value);
  }

  /**
   * The hand-over at a recognised header: the stream, positioned at the header, goes
   * to that generation's `parse`, whose probe bound is the size of the buffer from `p`
   * on while its cursor counts from the buffer's start; so a header at or past the
   * buffer's middle is never found again and the parse raises.
   */
  method Dispatch(data: bytes, p: nat, kind: I.Kind) returns (r: Result<BootImage>)
    requires p <= |data|
    ensures kind != I.V4 && p + H.SIZE >= |data| - p ==> r == Failure(Raised(I.NOT_IMX))
    ensures r.Success? <==> HandOverError(data, p, kind).None?
    ensures r.Failure? ==> r.error == HandOverError(data, p, kind).value
    ensures r.Success? ==> fresh(r.value.Image()) && DispatchedAt(data, p, kind, r.value)
  {
    if kind == I.V2 {
      var img := I.BootImg2.Parse(data, p, DEFAULT_STEP);
      if img.Failure? {
        return Failure(img.error);
      }
      return Success(Image2(img.value));
    } else if kind == I.V3b {
      var img := B3.BootImg3b.Parse(data, p, DEFAULT_STEP);
      if img.Failure? {
        return Failure(img.error);
      }
      return Success(Image3b(img.value));
    } else if kind == I.V3a {
      var img := B.BootImg3a.Parse(data, p, DEFAULT_STEP);
      if img.Failure? {
        return Failure(img.error);
      }
      return Success(Image3a(img.value));
    } else {
      return Failure(NotModelled);
    }
  }
}
