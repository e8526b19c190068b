// The certificate and signature records of the older codec copy
// (src/imx/im/secret.py). Its key blob is the same code as the newer codec's and is
// modelled once, by ImgSecret. What differs here is the header: an object whose
// `parse` overwrites its length and parameter, so a parsed record keeps the length
// it read and slices its payload with it.
module LegacySecret {
  import opened Base
  import opened Pack
  import H = ImgHeader
  import LH = LegacyHeader
  import ImgSecret

  /** `Certificate(param, data)` (tag 0xD7) and `Signature(param, data)` (tag 0xD8). */
  class Record {
    const header: LH.Header
    var data: Option<bytes>

    constructor Certificate(param: byte, data: Option<bytes>)
      ensures fresh(header) && header.Value() == H.Header(H.TAG_CRT, param, H.SIZE) && this.data == data
    {
      header := new LH.Header(H.TAG_CRT, param);
      this.data := data;
    }

    constructor Signature(param: byte, data: Option<bytes>)
      ensures fresh(header) && header.Value() == H.Header(H.TAG_SIG, param, H.SIZE) && this.data == data
    {
      header := new LH.Header(H.TAG_SIG, param);
      this.data := data;
    }

    /** `size`: the header's length field, however long the payload is. */
    function Size(): (n: int)
      reads this, header
      ensures n == header.Value().length
    {
      header.length
    }

    /**
     * `export()`: the header bytes, then the payload; a length outside 16 bits raises
     * struct.error, and an unset payload raises TypeError (bytes + None).
     */
    function Export(): (r: Result<bytes>)
      reads this, header
      ensures r.Success? <==> Fits(header.length, 2) && data.Some?
      ensures r.Failure? ==> r.error == (if Fits(header.length, 2) then TypeErr else StructErr)
      ensures r.Success? ==> |r.value| == H.SIZE + |data.value| && r.value[H.SIZE..] == data.value
      ensures r.Success? ==> r.value[..H.SIZE] == header.Export().value
    {
      var head :- header.Export();
      if data.None? then Failure(TypeErr)
      else
        var r := head + data.value;
        assert r[..H.SIZE] == head;
        Success(r)
    }

    /**
     * `parse(data, offset)`: the header parse raises struct.error on a short buffer
     * and UnparsedException on another tag, before anything changes; otherwise the
     * header takes the length and parameter read, and the payload is
     * `data[offset + 4 : offset + length]`.
     */
    method Parse(raw: bytes, offset: nat) returns (o: Outcome)
      modifies this, header
      ensures var h := H.Parse(raw, offset, Some(header.tag));
        h.Failure? ==> o == Fail(h.error) && header.Value() == old(header.Value()) && data == old(data)
      ensures var h := H.Parse(raw, offset, Some(header.tag));
        h.Success? ==> o == Pass && header.Value() == h.value && data == Some(ImgSecret.PayloadAt(raw, offset, h.value.length))
    {
      o := header.Parse(raw, offset);
      if o.Fail? {
        return;
      }
      data := Some(ImgSecret.PayloadAt(raw, offset, header.length));
    }
  }

  /**
   * A record whose length counts its payload parses back from its export: the same
   * header, and the same payload.
   */
  lemma {:induction false} RecordRoundTrip(r: Record, raw: bytes, offset: nat)
    requires r.Export().Success? && r.header.length == H.SIZE + |r.data.value|
    requires offset + |r.Export().value| <= |raw| && raw[offset..offset + |r.Export().value|] == r.Export().value
    ensures H.Parse(raw, offset, Some(r.header.tag)) == Success(r.header.Value())
    ensures ImgSecret.PayloadAt(raw, offset, r.header.length) == r.data.value
  {
    var e := r.Export().value;
    var head := H.Export(r.header.Value()).value;
    assert e == head + r.data.value;
    SplitSlice(raw, offset, head, r.data.value);
    H.ParseExport(r.header.Value(), raw, offset, Some(r.header.tag));
  }

  /**
   * A record another tag exported is refused: parsing a signature's export as a
   * certificate raises UnparsedException, and the other way round.
   */
  lemma {:induction false} RecordWrongTag(r: Record, tag: byte, raw: bytes, offset: nat)
    requires r.Export().Success? && tag != r.header.tag
    requires offset + |r.Export().value| <= |raw| && raw[offset..offset + |r.Export().value|] == r.Export().value
    ensures H.Parse(raw, offset, Some(tag)) == Failure(Unparsed)
  {
    var e := r.Export().value;
    assert raw[offset] == e[0] == r.header.tag;
  }

  /**
   * The constructors leave the length at the header's own size, and `export` does not
   * update it: the export of a freshly built record declares no payload, so parsing
   * it back keeps none, whatever payload was exported.
   */
  lemma {:induction false} ConstructedRecordParsesEmpty(r: Record, raw: bytes, offset: nat)
    requires r.Export().Success? && r.header.length == H.SIZE
    requires offset + |r.Export().value| <= |raw| && raw[offset..offset + |r.Export().value|] == r.Export().value
    ensures H.Parse(raw, offset, Some(r.header.tag)) == Success(r.header.Value())
    ensures ImgSecret.PayloadAt(raw, offset, r.header.length) == []
  {
    var e := r.Export().value;
    var head := H.Export(r.header.Value()).value;
    assert e == head + r.data.value;
    SplitSlice(raw, offset, head, r.data.value);
    H.ParseExport(r.header.Value(), raw, offset, Some(r.header.tag));
  }
}
