// The header object of the older codec copy (src/imx/im/header.py). Its wire layout
// is the `>BHB` of the newer codec; what differs is that it is an object whose
// `parse` overwrites its own length and parameter and whose tag is fixed when it is
// built, so a parse is also the tag check.
module LegacyHeader {
  import opened Base
  import opened Pack
  import H = ImgHeader

  /** `Header(tag, param)`: the tag never changes; length and parameter do. */
  class Header {
    const tag: byte
    var length: int
    var param: byte

    /** The header as a value of the newer codec, which shares its layout. */
    function Value(): H.Header
      reads this
    {
      H.Header(tag, param, length)
    }

    /** A new header counts only itself: length 4. */
    constructor (tag: byte, param: byte)
      ensures this.tag == tag && this.param == param && length == H.SIZE
    {
      this.tag := tag;
      this.param := param;
      length := H.SIZE;
    }

    /**
     * `export()`: tag, big-endian 16-bit length, parameter; a length outside 16 bits
     * makes `struct.pack` raise.
     */
    function Export(): (r: Result<bytes>)
      reads this
      ensures r.Success? <==> Fits(length, 2)
      ensures r.Failure? ==> r.error == StructErr
      ensures r.Success? ==> |r.value| == H.SIZE && r.value[0] == tag && r.value[3] == param
      ensures r.Success? ==> FromBE(r.value[1..3]) == length
    {
      H.Export(Value())
    }

    /**
     * `parse(data, offset)`: a buffer shorter than four bytes from `offset` raises
     * struct.error and a different tag raises UnparsedException, both before anything
     * changes; otherwise length and parameter are overwritten from the wire.
     */
    method Parse(data: bytes, offset: nat) returns (o: Outcome)
      modifies this
      ensures o == Fail(StructErr) <==> |data| < offset + H.SIZE
      ensures o == Fail(Unparsed) <==> |data| >= offset + H.SIZE && data[offset] != tag
      ensures o.Fail? ==> length == old(length) && param == old(param)
      ensures o.Pass? ==> param == data[offset + 3] && length == FromBE(data[offset + 1..offset + 3])
      ensures o.Pass? <==> H.Parse(data, offset, Some(tag)).Success?
      ensures o.Pass? ==> H.Parse(data, offset, Some(tag)).value == Value()
      ensures o.Fail? ==> o.error == H.Parse(data, offset, Some(tag)).error
    {
      var h := H.Parse(data, offset, Some(tag));
      if h.Failure? {
        return Fail(h.error);
      }
      length := h.value.length;
      param := h.value.param;
      return Pass;
    }
  }

  /**
   * Parsing a header's own export into a header with the same tag gives back its
   * length and parameter, whatever that header held before.
   */
  method ParseOwnExport(h: Header, other: Header, data: bytes, offset: nat) returns (o: Outcome)
    requires h.Export().Success? && other.tag == h.tag
    requires offset + H.SIZE <= |data| && data[offset..offset + H.SIZE] == h.Export().value
    modifies other
    ensures o == Pass && other.length == old(h.length) && other.param == old(h.param)
  {
    H.ParseExport(h.Value(), data, offset, Some(h.tag));
    var len := h.length;
    var p := h.param;
    o := other.Parse(data, offset);
    assert H.Parse(data, offset, Some(h.tag)) == Success(H.Header(h.tag, p, len));
  }
}
