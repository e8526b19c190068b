// Secret-material records of the i.MX boot image codec (imx/img/secret.py): the
// key blob (four single-byte fields and a payload) and the certificate and
// signature records (an opaque payload behind a segment header).
module ImgSecret {
  import opened Base
  import opened Pack
  import H = ImgHeader

  /** A field that `struct.pack("B", ...)` accepts: set, and inside one byte. */
  predicate PacksAsByte(x: Option<int>)
  {
    x.Some? && 0 <= x.value < 256
  }

  /**
   * The state of a `SecretKeyBlob`. The constructor leaves mode, alg, flg and data
   * unset (None) unless given, and `size` is a plain field the caller keeps in step.
   */
  datatype KeyBlob = KeyBlob(mode: Option<int>, alg: Option<int>, size: int, flg: Option<int>, data: Option<bytes>)

  /** The payload export appends: only a non-empty one is written. */
  function Payload(b: KeyBlob): bytes
  {
    if b.data.Some? then b.data.value else []
  }

  /**
   * `SecretKeyBlob.export`: the bytes (mode, alg, size, flg), then the payload when it
   * is non-empty; a field that is unset or outside a byte raises struct.error.
   */
  function ExportKeyBlob(b: KeyBlob): (r: Result<bytes>)
    ensures r.Success? <==> PacksAsByte(b.mode) && PacksAsByte(b.alg) && 0 <= b.size < 256 && PacksAsByte(b.flg)
    ensures r.Failure? ==> r.error == StructErr
    ensures r.Success? ==> |r.value| == 4 + |Payload(b)|
    ensures r.Success? ==> r.value[..4] == [b.mode.value, b.alg.value, b.size, b.flg.value]
    ensures r.Success? ==> r.value[4..] == Payload(b)
  {
    if !(PacksAsByte(b.mode) && PacksAsByte(b.alg) && 0 <= b.size < 256 && PacksAsByte(b.flg)) then
      Failure(StructErr)
    else
      var head: bytes := [b.mode.value, b.alg.value, b.size, b.flg.value];
      if b.data.Some? && |b.data.value| > 0 then Success(head + b.data.value) else Success(head)
  }

  /**
   * `SecretKeyBlob.parse`: unpack the four bytes at `offset` (struct.error when fewer
   * remain), then take up to `size` payload bytes after them.
   */
  function ParseKeyBlob(raw: bytes, offset: nat): (r: Result<KeyBlob>)
    ensures r.Failure? <==> |raw| < offset + 4
    ensures r.Failure? ==> r.error == StructErr
    ensures r.Success? ==>
      r.value.mode == Some(raw[offset]) && r.value.alg == Some(raw[offset + 1]) &&
      r.value.size == raw[offset + 2] && r.value.flg == Some(raw[offset + 3])
    ensures r.Success? ==> r.value.data.Some? && |r.value.data.value| <= r.value.size
    ensures r.Success? && offset + 4 + r.value.size <= |raw| ==>
      r.value.data == Some(raw[offset + 4..offset + 4 + r.value.size])
  {
    if |raw| < offset + 4 then Failure(StructErr)
    else
      var size := raw[offset + 2];
      Success(KeyBlob(Some(raw[offset]), Some(raw[offset + 1]), size, Some(raw[offset + 3]),
        Some(Slice(raw, offset + 4, offset + 4 + size))))
  }

  /** A key blob whose size matches its payload survives export and parse unchanged. */
  lemma {:induction false} KeyBlobRoundTrip(b: KeyBlob, pre: bytes)
    requires ExportKeyBlob(b).Success? && b.data.Some? && b.size == |b.data.value|
    ensures ParseKeyBlob(pre + ExportKeyBlob(b).value, |pre|) == Success(b)
  {
    var e := ExportKeyBlob(b).value;
    var raw := pre + e;
    assert raw[|pre|..] == e;
    assert raw[|pre| + 4..|pre| + 4 + b.size] == e[4..] == b.data.value;
    assert e[..4][0] == raw[|pre|] && e[..4][1] == raw[|pre| + 1];
    assert e[..4][2] == raw[|pre| + 2] && e[..4][3] == raw[|pre| + 3];
  }

  /** Exporting a blob parsed from a buffer that holds its whole payload gives back those bytes. */
  lemma {:induction false} KeyBlobExportParse(raw: bytes, offset: nat)
    requires ParseKeyBlob(raw, offset).Success?
    requires offset + 4 + raw[offset + 2] <= |raw|
    ensures ExportKeyBlob(ParseKeyBlob(raw, offset).value) == Success(raw[offset..offset + 4 + raw[offset + 2]])
  {
    var b := ParseKeyBlob(raw, offset).value;
    var e := ExportKeyBlob(b).value;
    var want := raw[offset..offset + 4 + raw[offset + 2]];
    assert e[..4] == want[..4];
    assert e[4..] == want[4..];
    assert e == e[..4] + e[4..];
    assert want == want[..4] + want[4..];
  }

  /** `SecretKeyBlob`: its fields are reassigned in place by `parse`. */
  class SecretKeyBlob {
    var mode: Option<int>
    var alg: Option<int>
    var flg: Option<int>
    var data: Option<bytes>
    var size: int

    function Value(): KeyBlob
      reads this
    {
      KeyBlob(mode, alg, size, flg, data)
    }

    /** `SecretKeyBlob(mode, alg, flg, data)`: the size starts at 0. */
    constructor (mode: Option<int>, alg: Option<int>, flg: Option<int>, data: Option<bytes>)
      ensures Value() == KeyBlob(mode, alg, 0, flg, data)
    {
      this.mode := mode;
      this.alg := alg;
      this.flg := flg;
      this.data := data;
      this.size := 0;
    }

    /** `parse`: on struct.error nothing has been assigned yet. */
    method Parse(raw: bytes, offset: nat) returns (o: Outcome)
      modifies this
      ensures ParseKeyBlob(raw, offset).Success? ==> o == Pass && Value() == ParseKeyBlob(raw, offset).value
      ensures ParseKeyBlob(raw, offset).Failure? ==> o == Fail(StructErr) && Value() == old(Value())
    {
      if |raw| < offset + 4 {
        return Fail(StructErr);
      }
      mode, alg, size, flg := Some(raw[offset]), Some(raw[offset + 1]), raw[offset + 2], Some(raw[offset + 3]);
      data := Some(Slice(raw, offset + 4, offset + 4 + size));
      o := Pass;
    }
  }

  /** The payload that follows the header, as written: `data[offset + SIZE : offset + length]`. */
  function PayloadAt(raw: bytes, offset: nat, length: int): (r: bytes)
    ensures |r| <= Max(0, length - H.SIZE)
    ensures offset + H.SIZE <= offset + length <= |raw| ==> r == raw[offset + H.SIZE..offset + length]
  {
    Slice(raw, offset + H.SIZE, offset + length)
  }

  /**
   * `Certificate` (tag 0xD7) and `Signature` (tag 0xD8): a header that carries the tag
   * and parameter, and an opaque payload that is None until set or parsed.
   */
  class SecretRecord {
    var header: H.Header
    var data: Option<bytes>

    /** Header and tag as the constructors leave them: nothing later changes the length. */
    predicate Valid()
      reads this
    {
      (header.tag == H.TAG_CRT || header.tag == H.TAG_SIG) && header.length == H.SIZE
    }

    constructor Certificate(param: byte, data: Option<bytes>)
      ensures Valid() && header == H.New(H.TAG_CRT, param) && this.data == data
    {
      header := H.New(H.TAG_CRT, param);
      this.data := data;
    }

    constructor Signature(param: byte, data: Option<bytes>)
      ensures Valid() && header == H.New(H.TAG_SIG, param) && this.data == data
    {
      header := H.New(H.TAG_SIG, param);
      this.data := data;
    }

    /** `size` is the header's length field, whatever the payload holds. */
    function Size(): (n: int)
      reads this
      ensures Valid() ==> n == H.SIZE
    {
      header.length
    }

    /**
     * `export`: the header bytes followed by the payload; an unset payload raises
     * TypeError (bytes + None) once the header has packed.
     */
    function Export(): (r: Result<bytes>)
      reads this
      ensures r.Success? <==> Fits(header.length, 2) && data.Some?
      ensures r.Failure? ==> r.error == (if Fits(header.length, 2) then TypeErr else StructErr)
      ensures r.Success? ==> |r.value| == H.SIZE + |data.value| && r.value[H.SIZE..] == data.value
      ensures r.Success? ==> H.Parse(r.value, 0, Some(header.tag)) == Success(header)
    {
      var head :- H.Export(header);
      if data.None? then Failure(TypeErr)
      else
        var r := head + data.value;
        assert r[..H.SIZE] == head;
        H.ParseExport(header, r, 0, Some(header.tag));
        Success(r)
    }

    /**
     * `parse`, as written: the header that `Header.parse` returns is discarded, so a
     * short buffer still raises struct.error but the stored header never changes and
     * the payload is sliced with the stored length.
     */
    method Parse(raw: bytes, offset: nat) returns (o: Outcome)
      modifies this
      ensures header == old(header)
      ensures o.Fail? <==> |raw| < offset + H.SIZE
      ensures o.Fail? ==> o.error == StructErr && data == old(data)
      ensures o.Pass? ==> data == Some(PayloadAt(raw, offset, header.length))
    {
      var discarded := H.Parse(raw, offset, None);
      if discarded.Failure? {
        return Fail(discarded.error);
      }
      data := Some(PayloadAt(raw, offset, header.length));
      o := Pass;
    }
  }

  /**
   * As written, a record the constructors built always parses back an empty payload,
   * because its stored length stays at the header's own size.
   */
  lemma {:induction false} ParseAsWrittenIsEmpty(tag: byte, param: byte, raw: bytes, offset: nat)
    ensures PayloadAt(raw, offset, H.New(tag, param).length) == []
  {
  }

  /** The discrepancy on a concrete certificate with a one-byte payload. */
  lemma {:induction false} CertificateLosesPayload()
    ensures H.Export(H.New(H.TAG_CRT, 0)) == Success([0xD7, 0, 4, 0])
    ensures PayloadAt([0xD7, 0, 4, 0, 1], 0, H.New(H.TAG_CRT, 0).length) == []
  {
    H.NewExportsOwnSize(H.TAG_CRT, 0);
  }

  /** Corrected export: the header's length covers the payload. */
  function ExportRecord(tag: byte, param: byte, payload: bytes): (r: Result<bytes>)
    ensures r.Success? <==> H.SIZE + |payload| < 0x1_0000
    ensures r.Success? ==> |r.value| == H.SIZE + |payload| && r.value[H.SIZE..] == payload
    ensures r.Success? ==> H.Parse(r.value, 0, Some(tag)) == Success(H.Header(tag, param, H.SIZE + |payload|))
  {
    var h := H.Header(tag, param, H.SIZE + |payload|);
    var head :- H.Export(h);
    var r := head + payload;
    assert r[..H.SIZE] == head;
    H.ParseExport(h, r, 0, Some(tag));
    Success(r)
  }

  /** Corrected parse: keep the header read from the buffer and slice the payload with its length. */
  function ParseRecord(tag: byte, raw: bytes, offset: nat): (r: Result<(H.Header, bytes)>)
    ensures r.Failure? ==> r.error == StructErr || r.error == Unparsed
    ensures r.Success? <==> H.Parse(raw, offset, Some(tag)).Success?
    ensures r.Success? ==> r.value.0 == H.Parse(raw, offset, Some(tag)).value
    ensures r.Success? ==> r.value.1 == PayloadAt(raw, offset, r.value.0.length)
  {
    var h :- H.Parse(raw, offset, Some(tag));
    Success((h, PayloadAt(raw, offset, h.length)))
  }

  /** With the correction, parsing an exported record gives back its parameter and payload. */
  lemma {:induction false} RecordRoundTrip(tag: byte, param: byte, payload: bytes)
    requires ExportRecord(tag, param, payload).Success?
    ensures ParseRecord(tag, ExportRecord(tag, param, payload).value, 0)
      == Success((H.Header(tag, param, H.SIZE + |payload|), payload))
  {
    var e := ExportRecord(tag, param, payload).value;
    assert e[H.SIZE..H.SIZE + |payload|] == payload;
  }

  /** With the correction, a record of another tag is refused as unparsed. */
  lemma {:induction false} RecordWrongTag(tag: byte, other: byte, param: byte, payload: bytes)
    requires ExportRecord(other, param, payload).Success? && other != tag
    ensures ParseRecord(tag, ExportRecord(other, param, payload).value, 0) == Failure(Unparsed)
  {
  }
}
