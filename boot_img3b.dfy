// BootImg3b of imx/img/images.py (i.MX8QM-A0): the two-container image of BootImg3a
// with 64-byte IVTs that also point to an SCD, 240-byte boot data tables of four
// slots whose SCD and CSF descriptors locate two trailing segments, and an export
// that writes the SCD and CSF after every image.
module ImgBootImg3b {
  import opened Base
  import H = ImgHeader
  import S = ImgSegments
  import CS = ImgCmdSegments
  import M = ImgMisc
  import I = ImgImages
  import ImgCommands
  import B = ImgBootImg3

  const SCFW_FLAGS_A53: int := 0x1354014
  const SCFW_FLAGS_A72: int := 0x1354065
  /** Where an SCFW image is loaded; it starts at 0x1ffe0000. */
  const SCFW_DESTINATION_3B: int := 0x30fe0000
  const SCFW_ENTRY_3B: int := 0x1ffe0000

  /** A container's IVT, boot data table and four APP segments. */
  datatype Container3b = Container3b(ivt: S.IVT3b, bds: S.BDS3b, apps: seq<S.APP>)
  {
    /** The container's image slots. */
    function Images(): B.Slots
    {
      B.Slots(bds.images, apps, bds.imagesCount)
    }
  }

  /** Four 3b descriptors, four APPs, an image count that fits them, and 3b SCD, CSF and reserved descriptors. */
  predicate Sized3b(k: Container3b)
  {
    && |k.bds.images| == S.BDS3B_SLOTS && |k.apps| == S.BDS3B_SLOTS
    && S.SlotsOf(false, k.bds.images, S.BDS3B_SLOTS) && 0 <= k.bds.imagesCount <= S.BDS3B_SLOTS
    && !k.bds.scd.IDS3a? && !k.bds.csf.IDS3a? && !k.bds.rsImg.IDS3a?
  }

  /** Descriptor `d` with its source set, whichever kind it is. */
  function AtSource(d: S.IDS, source: int): (r: S.IDS)
    ensures r.source == source && r.destination == d.destination && r.size == d.size && r.IDS3a? == d.IDS3a?
  {
    d.(source := source)
  }

  /** Two containers of four slots each. */
  predicate Pair3b(ks: seq<Container3b>)
  {
    |ks| == B.CONTAINERS && Sized3b(ks[0]) && Sized3b(ks[1])
  }

  // ---------------------------------------------------------------------------
  // BootImg3b._update

  /**
   * One round of `BootImg3b._update`'s container loop without the SCD and CSF of
   * container 0: zero IVT and table padding, the head addresses, APP 0 padded, the
   * first image placed and the rest chained as in BootImg3a, but no APP's padding is
   * cleared. An address list too short raises IndexError.
   */
  function UpdateContainer3b(c: nat, address: seq<int>, offset: int, dcd: I.Shape, csf: I.Shape,
                             k: Container3b, prev: Container3b): (r: Result<Container3b>)
    requires c < B.CONTAINERS && Sized3b(k) && Sized3b(prev)
    ensures r.Failure? ==> r.error == IndexErr || r.error == TypeErr
    ensures r.Success? ==> Sized3b(r.value)
  {
    if c >= |address| then Failure(IndexErr)
    else
      var h := B.HeadOf(c, address[c], offset, S.IVT3B_SIZE, S.BDS3B_SIZE, dcd, csf);
      var count := k.bds.imagesCount;
      var first :- if count != 0 then B.FirstSource(c, prev.bds.images, prev.apps, prev.bds.imagesCount) else Success(0);
      var seed := B.Seed(k.bds.images, k.apps, count, first);
      var ch :- B.ChainOf(seed.images, seed.apps, count);
      B.ChainStepsSlots(seed.images, seed.apps, if count >= 1 then count - 1 else 0);
      Success(Container3b(
        k.ivt.(padding := 0, ivt := h.ivt, bdt := h.bdt, dcd := h.dcd, csf := h.csf),
        k.bds.(padding := 0, bootDataSize := if count != 0 then S.BDS3B_SIZE else k.bds.bootDataSize, images := ch.images),
        ch.apps))
  }

  /**
   * What a round of `BootImg3b._update`, without the SCD and CSF, leaves in container
   * `c` whether or not it raises: the IVT and table padding zeroed before the address
   * list is indexed, then the head addresses, APP 0's padding and, for a counted
   * container, the table size before the first image's source is computed; then the
   * rounds of the image loop that ran.
   */
  function Round3b(c: nat, address: seq<int>, offset: int, dcd: I.Shape, csf: I.Shape,
                   k: Container3b, prev: Container3b): (r: Container3b)
    requires c < B.CONTAINERS && Sized3b(k) && Sized3b(prev)
  {
    var iv := k.ivt.(padding := 0);
    var bd := k.bds.(padding := 0);
    if c >= |address| then Container3b(iv, bd, k.apps)
    else
      var h := B.HeadOf(c, address[c], offset, S.IVT3B_SIZE, S.BDS3B_SIZE, dcd, csf);
      var iv := iv.(ivt := h.ivt, bdt := h.bdt, dcd := h.dcd, csf := h.csf);
      var count := k.bds.imagesCount;
      var bd := if count != 0 then bd.(bootDataSize := S.BDS3B_SIZE) else bd;
      var first := if count != 0 then B.FirstSource(c, prev.bds.images, prev.apps, prev.bds.imagesCount) else Success(0);
      if first.Failure? then Container3b(iv, bd, B.Seed(k.bds.images, k.apps, 0, 0).apps)
      else
        var seed := B.Seed(k.bds.images, k.apps, count, first.value);
        var ch := B.ChainReached(seed.images, seed.apps, if count >= 1 then count - 1 else 0);
        Container3b(iv, bd.(images := ch.images), ch.apps)
  }

  /** A round that completes leaves the container `UpdateContainer3b` describes. */
  lemma {:induction false} Round3bOfSuccess(c: nat, address: seq<int>, offset: int, dcd: I.Shape, csf: I.Shape,
                                            k: Container3b, prev: Container3b)
    requires c < B.CONTAINERS && Sized3b(k) && Sized3b(prev)
    requires UpdateContainer3b(c, address, offset, dcd, csf, k, prev).Success?
    ensures Round3b(c, address, offset, dcd, csf, k, prev) == UpdateContainer3b(c, address, offset, dcd, csf, k, prev).value
  {
  }

  /**
   * A round that raises has already written part of the container: the IVT and table
   * padding are zero, and only that when the address list raises IndexError; a
   * TypeError on a missing APP comes after the IVT took its head addresses, APP 0 its
   * sector padding and the table its size.
   */
  lemma {:induction false} Round3bRaised(c: nat, address: seq<int>, offset: int, dcd: I.Shape, csf: I.Shape,
                                         k: Container3b, prev: Container3b)
    requires c < B.CONTAINERS && Sized3b(k) && Sized3b(prev)
    requires UpdateContainer3b(c, address, offset, dcd, csf, k, prev).Failure?
    ensures var r := Round3b(c, address, offset, dcd, csf, k, prev);
      && r.ivt.padding == 0 && r.bds.padding == 0 && r.bds.imagesCount == k.bds.imagesCount
      && (UpdateContainer3b(c, address, offset, dcd, csf, k, prev).error == IndexErr <==> c >= |address|)
      && (c >= |address| ==> r == Container3b(k.ivt.(padding := 0), k.bds.(padding := 0), k.apps))
      && (c < |address| ==>
            var h := B.HeadOf(c, address[c], offset, S.IVT3B_SIZE, S.BDS3B_SIZE, dcd, csf);
            && (r.ivt.ivt, r.ivt.bdt, r.ivt.dcd, r.ivt.csf) == (h.ivt, h.bdt, h.dcd, h.csf)
            && r.apps[0] == k.apps[0].(padding := I.ComputePadding(k.bds.images[0].size, B.SECTOR_SIZE))
            && r.bds.bootDataSize == S.BDS3B_SIZE && 1 <= k.bds.imagesCount)
  {
    if c < |address| {
      var count := k.bds.imagesCount;
      var first := if count != 0 then B.FirstSource(c, prev.bds.images, prev.apps, prev.bds.imagesCount) else Success(0);
      if first.Success? {
        var seed := B.Seed(k.bds.images, k.apps, count, first.value);
        var i := B.ChainReachedAt(seed.images, seed.apps, if count >= 1 then count - 1 else 0);
        B.ChainStepsChained(seed.images, seed.apps, i);
      }
    }
  }

  /** Whatever a round leaves keeps four slots of the 3b layout, the SCD descriptor, and the counted slots' data as long as their descriptors. */
  lemma {:induction false} Round3bSized(c: nat, address: seq<int>, offset: int, dcd: I.Shape, csf: I.Shape,
                                        k: Container3b, prev: Container3b)
    requires c < B.CONTAINERS && Sized3b(k) && Sized3b(prev)
    requires B.SizesMatch(k.bds.images, k.apps, k.bds.imagesCount)
    ensures var r := Round3b(c, address, offset, dcd, csf, k, prev);
      && Sized3b(r) && r.bds.imagesCount == k.bds.imagesCount && r.bds.scd == k.bds.scd
      && B.SizesMatch(r.bds.images, r.apps, r.bds.imagesCount)
  {
    var count := k.bds.imagesCount;
    if c < |address| {
      var first := if count != 0 then B.FirstSource(c, prev.bds.images, prev.apps, prev.bds.imagesCount) else Success(0);
      if first.Success? {
        var seed := B.Seed(k.bds.images, k.apps, count, first.value);
        var rounds := if count >= 1 then count - 1 else 0;
        var i := B.ChainReachedAt(seed.images, seed.apps, rounds);
        B.ChainStepsChained(seed.images, seed.apps, i);
        B.ChainStepsSlots(seed.images, seed.apps, i);
        var ch := B.ChainReached(seed.images, seed.apps, rounds);
        forall j | 0 <= j < |ch.images|
          ensures ch.images[j].size == k.bds.images[j].size && ch.apps[j].data == k.apps[j].data
        {
          assert seed.images[j].size == k.bds.images[j].size && seed.apps[j].data == k.apps[j].data;
        }
      }
    }
  }

  /**
   * The container update promises what BootImg3a's does: the first image at
   * `FirstSource`, each later image right after the previous one's data and padding,
   * every counted APP padded to the sector size, and the descriptors' other fields kept.
   */
  lemma {:induction false} UpdateContainer3bChains(c: nat, address: seq<int>, offset: int, dcd: I.Shape, csf: I.Shape,
                                                   k: Container3b, prev: Container3b)
    requires c < B.CONTAINERS && Sized3b(k) && Sized3b(prev)
    requires UpdateContainer3b(c, address, offset, dcd, csf, k, prev).Success?
    ensures var r := UpdateContainer3b(c, address, offset, dcd, csf, k, prev).value;
      var n := k.bds.imagesCount;
      && r.bds.imagesCount == n && r.bds.scd == k.bds.scd && r.bds.csf == k.bds.csf
      && (n != 0 ==> B.FirstSource(c, prev.bds.images, prev.apps, prev.bds.imagesCount).Success?
                     && r.bds.images[0].source == B.FirstSource(c, prev.bds.images, prev.apps, prev.bds.imagesCount).value)
      && (forall j :: 0 <= j < n - 1 ==>
            k.apps[j].data.Some? && r.bds.images[j + 1].source == r.bds.images[j].source + |k.apps[j].data.value| + r.apps[j].padding)
      && (forall j :: 0 <= j < n ==> r.bds.images[j] == AtSource(k.bds.images[j], r.bds.images[j].source))
      && (forall j :: 0 <= j < n ==> r.apps[j] == k.apps[j].(padding := I.ComputePadding(k.bds.images[j].size, B.SECTOR_SIZE)))
  {
    var n := k.bds.imagesCount;
    var first := if n != 0 then B.FirstSource(c, prev.bds.images, prev.apps, prev.bds.imagesCount).value else 0;
    var seed := B.Seed(k.bds.images, k.apps, n, first);
    B.ChainOfChained(seed.images, seed.apps, n);
    var ch := B.ChainOf(seed.images, seed.apps, n).value;
    var r := UpdateContainer3b(c, address, offset, dcd, csf, k, prev).value;
    forall j | 0 <= j < n - 1
      ensures k.apps[j].data.Some? && r.bds.images[j + 1].source == r.bds.images[j].source + |k.apps[j].data.value| + r.apps[j].padding
    {
      assert seed.apps[j].data == k.apps[j].data;
    }
  }

  /**
   * A container updated from slots whose data is as long as their descriptors is laid
   * out, sector-aligned when its first image is, and its IVT and table carry no padding.
   */
  lemma {:induction false} UpdateContainer3bLaid(c: nat, address: seq<int>, offset: int, dcd: I.Shape, csf: I.Shape,
                                                 k: Container3b, prev: Container3b, r: Container3b)
    requires c < B.CONTAINERS && Sized3b(k) && Sized3b(prev)
    requires UpdateContainer3b(c, address, offset, dcd, csf, k, prev) == Success(r)
    requires B.SizesMatch(k.bds.images, k.apps, k.bds.imagesCount)
    ensures r.bds.imagesCount == k.bds.imagesCount && r.bds.scd == k.bds.scd && r.bds.csf == k.bds.csf
    ensures B.Laid(r.Images()) && r.ivt.padding == 0 && r.bds.padding == 0
    ensures k.bds.imagesCount != 0 ==> r.bds.images[0].source == B.FirstSource(c, prev.bds.images, prev.apps, prev.bds.imagesCount).value
    ensures k.bds.imagesCount != 0 && r.bds.images[0].source % B.SECTOR_SIZE == 0 ==>
      forall j :: 0 <= j < k.bds.imagesCount ==> r.bds.images[j].source % B.SECTOR_SIZE == 0
  {
    UpdateContainer3bChains(c, address, offset, dcd, csf, k, prev);
    var n := k.bds.imagesCount;
    if n != 0 && r.bds.images[0].source % B.SECTOR_SIZE == 0 {
      var first := B.FirstSource(c, prev.bds.images, prev.apps, prev.bds.imagesCount).value;
      var seed := B.Seed(k.bds.images, k.apps, n, first);
      B.ChainOfChained(seed.images, seed.apps, n);
      var ch := B.ChainOf(seed.images, seed.apps, n).value;
      forall j | 0 <= j < n
        ensures ch.images[j].source % B.SECTOR_SIZE == 0
      {
        B.ChainAligned(seed.images, seed.apps, n, ch, j);
      }
    }
  }

  /** A round keeps the counted slots' data as long as their descriptors, and the SCD descriptor. */
  lemma {:induction false} UpdateContainer3bSized(c: nat, address: seq<int>, offset: int, dcd: I.Shape, csf: I.Shape,
                                                  k: Container3b, prev: Container3b, r: Container3b)
    requires c < B.CONTAINERS && Sized3b(k) && Sized3b(prev)
    requires UpdateContainer3b(c, address, offset, dcd, csf, k, prev) == Success(r)
    requires B.SizesMatch(k.bds.images, k.apps, k.bds.imagesCount)
    ensures B.SizesMatch(r.bds.images, r.apps, r.bds.imagesCount) && r.bds.scd == k.bds.scd
  {
    UpdateContainer3bChains(c, address, offset, dcd, csf, k, prev);
  }

  /** The last counted image keeps its size and its data as long as that size, padded to the sector size. */
  lemma {:induction false} UpdateContainer3bLastPadded(c: nat, address: seq<int>, offset: int, dcd: I.Shape, csf: I.Shape,
                                                        k: Container3b, prev: Container3b, r: Container3b)
    requires c < B.CONTAINERS && Sized3b(k) && Sized3b(prev)
    requires UpdateContainer3b(c, address, offset, dcd, csf, k, prev) == Success(r)
    requires B.SizesMatch(k.bds.images, k.apps, k.bds.imagesCount)
    requires k.bds.imagesCount != 0
    ensures var n := k.bds.imagesCount;
      && r.bds.imagesCount == n && r.bds.images[n - 1].size == k.bds.images[n - 1].size
      && r.apps[n - 1].data == k.apps[n - 1].data
      && r.apps[n - 1].padding == I.ComputePadding(r.bds.images[n - 1].size, B.SECTOR_SIZE)
  {
    UpdateContainer3bChains(c, address, offset, dcd, csf, k, prev);
  }

  /** Where `_update` lays the SCD and the CSF out, and the CSF segment's new padding. */
  datatype Trailer = Trailer(bds: S.BDS3b, scd: S.APP, csfPadding: int)

  /**
   * The end of container 0's round of `_update`: an SCD with a destination is placed
   * at `next` and padded to the sector size of its descriptor, and an enabled CSF
   * follows it, padded to the sector size of its own descriptor; the SCD's space
   * raises TypeError while it has no data.
   */
  function Trailer3b(bds: S.BDS3b, scd: S.APP, csf: I.Shape, next: int): (r: Result<Trailer>)
    ensures r.Failure? ==> r.error == TypeErr
    ensures r.Success? ==> r.value.bds.images == bds.images && r.value.bds.imagesCount == bds.imagesCount
  {
    var placed :- if bds.scd.destination != 0 then
                    var sc := scd.(padding := I.ComputePadding(bds.scd.size, B.SECTOR_SIZE));
                    var space :- B.AppSpace(sc);
                    Success((bds.(scd := AtSource(bds.scd, next)), sc, next + space))
                  else Success((bds, scd, next));
    if csf.enabled then
      Success(Trailer(placed.0.(csf := AtSource(placed.0.csf, placed.2)), placed.1, I.ComputePadding(placed.0.csf.size, B.SECTOR_SIZE)))
    else Success(Trailer(placed.0, placed.1, csf.padding))
  }

  /** What the trailer promises: the SCD at `next` when it has a destination, the CSF after its space, everything else kept. */
  lemma {:induction false} Trailer3bPlaces(bds: S.BDS3b, scd: S.APP, csf: I.Shape, next: int)
    ensures var r := Trailer3b(bds, scd, csf, next);
      && (r.Success? <==> bds.scd.destination == 0 || scd.data.Some?)
      && (r.Success? ==>
            var t := r.value;
            var scdSpace := if bds.scd.destination != 0 then |scd.data.value| + t.scd.padding else 0;
            && t.scd == (if bds.scd.destination != 0 then scd.(padding := I.ComputePadding(bds.scd.size, B.SECTOR_SIZE)) else scd)
            && t.bds.scd == (if bds.scd.destination != 0 then AtSource(bds.scd, next) else bds.scd)
            && t.bds.csf == (if csf.enabled then AtSource(bds.csf, next + scdSpace) else bds.csf)
            && t.csfPadding == (if csf.enabled then I.ComputePadding(bds.csf.size, B.SECTOR_SIZE) else csf.padding)
            && t.bds == bds.(scd := t.bds.scd, csf := t.bds.csf))
  {
  }

  /** The end of a container's last image, 0x1200 for a container with none. */
  function ImagesEnd(s: B.Slots): (r: Result<int>)
    requires s.Fits()
    ensures s.count == 0 ==> r == Success(B.APP_ALIGN3)
    ensures s.count != 0 ==>
      && (r.Success? <==> s.apps[s.count - 1].data.Some?)
      && (r.Success? ==> r.value == s.images[s.count - 1].source + |s.apps[s.count - 1].data.value| + s.apps[s.count - 1].padding)
  {
    if s.count == 0 then Success(B.APP_ALIGN3)
    else
      var space :- B.AppSpace(s.apps[s.count - 1]);
      Success(s.images[s.count - 1].source + space)
  }

  /**
   * `next_image_address` as `_update` leaves it after container 0's image loop: 0
   * before the loop, and each round sets it to the end of the image it placed, so it
   * stays 0 for fewer than two images.
   */
  function NextAsWritten(s: B.Slots): (r: Result<int>)
    requires s.Fits()
    ensures s.count < 2 ==> r == Success(0)
    ensures s.count >= 2 ==> r == ImagesEnd(s)
  {
    if s.count < 2 then Success(0) else ImagesEnd(s)
  }

  /**
   * `BootImg3b._update` as written: container 0 with its SCD and CSF placed at
   * `NextAsWritten`, then container 1 after container 0's last image.
   */
  function Update3bAsWritten(address: seq<int>, offset: int, dcd: I.Shape, csf: I.Shape, ks: seq<Container3b>, scd: S.APP):
    (r: Result<(seq<Container3b>, Trailer)>)
    requires Pair3b(ks)
    ensures r.Success? ==> Pair3b(r.value.0)
  {
    var k0 :- UpdateContainer3b(0, address, offset, dcd, csf, ks[0], ks[0]);
    var next :- NextAsWritten(k0.Images());
    var t :- Trailer3b(k0.bds, scd, csf, next);
    var k1 :- UpdateContainer3b(1, address, offset, dcd, csf, ks[1], k0);
    Success(([k0.(bds := t.bds), k1], t))
  }

  /**
   * With one image in container 0, `_update` as written places an SCD at address 0,
   * so `export` and `parse`, which skip an SCD whose source is 0, drop it.
   */
  lemma {:induction false} ScdDroppedAsWritten(address: seq<int>, offset: int, dcd: I.Shape, csf: I.Shape, ks: seq<Container3b>, scd: S.APP)
    requires Pair3b(ks) && ks[0].bds.imagesCount == 1 && ks[0].bds.scd.destination != 0
    requires Update3bAsWritten(address, offset, dcd, csf, ks, scd).Success?
    ensures Update3bAsWritten(address, offset, dcd, csf, ks, scd).value.0[0].bds.scd.source == 0
  {
    var k0 := UpdateContainer3b(0, address, offset, dcd, csf, ks[0], ks[0]).value;
    UpdateContainer3bChains(0, address, offset, dcd, csf, ks[0], ks[0]);
    Trailer3bPlaces(k0.bds, scd, csf, 0);
  }

  /**
   * With images in both containers, `_update` as written places the SCD where
   * container 1's first image starts rather than after it, where `export` writes it.
   */
  lemma {:induction false} ScdOverlapsAsWritten(address: seq<int>, offset: int, dcd: I.Shape, csf: I.Shape, ks: seq<Container3b>, scd: S.APP)
    requires Pair3b(ks) && ks[0].bds.imagesCount >= 2 && ks[1].bds.imagesCount >= 1 && ks[0].bds.scd.destination != 0
    requires Update3bAsWritten(address, offset, dcd, csf, ks, scd).Success?
    ensures var r := Update3bAsWritten(address, offset, dcd, csf, ks, scd).value.0;
      r[0].bds.scd.source == r[1].bds.images[0].source
  {
    var k0 := UpdateContainer3b(0, address, offset, dcd, csf, ks[0], ks[0]).value;
    UpdateContainer3bChains(0, address, offset, dcd, csf, ks[0], ks[0]);
    var next := NextAsWritten(k0.Images()).value;
    Trailer3bPlaces(k0.bds, scd, csf, next);
    UpdateContainer3bChains(1, address, offset, dcd, csf, ks[1], k0);
  }

  /**
   * Where the SCD belongs: right after the last image `export` writes before it, the
   * last of container 1 or, when container 1 holds none, of container 0.
   */
  function TrailerStart(s0: B.Slots, s1: B.Slots): (r: Result<int>)
    requires s0.Fits() && s1.Fits()
  {
    if s1.count != 0 then ImagesEnd(s1) else ImagesEnd(s0)
  }

  /**
   * `BootImg3b._update` with the SCD and CSF placed where `export` writes them: both
   * containers as the image loop leaves them, then container 0's SCD and CSF from
   * `TrailerStart` on.
   */
  function Update3b(address: seq<int>, offset: int, dcd: I.Shape, csf: I.Shape, ks: seq<Container3b>, scd: S.APP):
    (r: Result<(seq<Container3b>, Trailer)>)
    requires Pair3b(ks)
    ensures r.Success? ==> Pair3b(r.value.0)
  {
    var k0 :- UpdateContainer3b(0, address, offset, dcd, csf, ks[0], ks[0]);
    var k1 :- UpdateContainer3b(1, address, offset, dcd, csf, ks[1], k0);
    var next :- TrailerStart(k0.Images(), k1.Images());
    var t :- Trailer3b(k0.bds, scd, csf, next);
    Success(([k0.(bds := t.bds), k1], t))
  }


  /** The trailer `_update` lays out after both containers: from `TrailerStart` on. */
  function TrailerOf(k0: Container3b, k1: Container3b, scd: S.APP, csf: I.Shape): Result<Trailer>
    requires Sized3b(k0) && Sized3b(k1)
  {
    var next :- TrailerStart(k0.Images(), k1.Images());
    Trailer3b(k0.bds, scd, csf, next)
  }

  /** `Update3b` step by step: container 0, then container 1 after it, then the trailer, the first failure ending it. */
  lemma {:induction false} Update3bCases(address: seq<int>, offset: int, dcd: I.Shape, csf: I.Shape, ks: seq<Container3b>, scd: S.APP)
    requires Pair3b(ks)
    ensures var u0 := UpdateContainer3b(0, address, offset, dcd, csf, ks[0], ks[0]);
      && (u0.Failure? ==> Update3b(address, offset, dcd, csf, ks, scd) == Failure(u0.error))
      && (u0.Success? ==>
            var u1 := UpdateContainer3b(1, address, offset, dcd, csf, ks[1], u0.value);
            && (u1.Failure? ==> Update3b(address, offset, dcd, csf, ks, scd) == Failure(u1.error))
            && (u1.Success? ==>
                  var tr := TrailerOf(u0.value, u1.value, scd, csf);
                  && (tr.Failure? ==> Update3b(address, offset, dcd, csf, ks, scd) == Failure(tr.error))
                  && (tr.Success? ==> Update3b(address, offset, dcd, csf, ks, scd) == Success(([u0.value.(bds := tr.value.bds), u1.value], tr.value)))))
  {
  }

  /**
   * Laid-out containers whose every counted image has data end their APP blobs at
   * `TrailerStart`: 0x1200 plus both blobs' lengths, as long as container 1 holds
   * images only when container 0 does.
   */
  lemma {:induction false} TrailerStartEnd(s0: B.Slots, s1: B.Slots)
    requires s0.Fits() && s1.Fits() && B.LaidOut(s0, s1)
    requires B.ContainerApps(s0).Success? && B.ContainerApps(s1).Success?
    requires s1.count != 0 ==> s0.count != 0
    ensures TrailerStart(s0, s1) == Success(B.APP_ALIGN3 + |B.ContainerApps(s0).value| + |B.ContainerApps(s1).value|)
  {
    if s0.count == 0 {
      assert B.AppParts(s0.apps, 0) == [] && B.AppParts(s1.apps, 0) == [];
    } else {
      B.ContainerAppsEnd(s0);
      if s1.count == 0 {
        assert B.AppParts(s1.apps, 0) == [];
      } else {
        B.ContainerAppsEnd(s1);
      }
    }
  }

  /** The steps of a successful `Update3b`: container 0, container 1 after it, then the trailer. */
  lemma {:induction false} Update3bSteps(address: seq<int>, offset: int, dcd: I.Shape, csf: I.Shape, ks: seq<Container3b>, scd: S.APP,
                                         r: seq<Container3b>, t: Trailer) returns (k0: Container3b, k1: Container3b)
    requires Pair3b(ks)
    requires Update3b(address, offset, dcd, csf, ks, scd) == Success((r, t))
    ensures UpdateContainer3b(0, address, offset, dcd, csf, ks[0], ks[0]) == Success(k0)
    ensures Sized3b(k0) && UpdateContainer3b(1, address, offset, dcd, csf, ks[1], k0) == Success(k1)
    ensures Sized3b(k1) && TrailerStart(k0.Images(), k1.Images()).Success?
    ensures Trailer3b(k0.bds, scd, csf, TrailerStart(k0.Images(), k1.Images()).value) == Success(t)
    ensures r == [k0.(bds := t.bds), k1] && r[0].Images() == k0.Images()
  {
    k0 := UpdateContainer3b(0, address, offset, dcd, csf, ks[0], ks[0]).value;
    k1 := UpdateContainer3b(1, address, offset, dcd, csf, ks[1], k0).value;
  }

  /**
   * After `_update`, both containers are laid out one after the other from 0x1200,
   * with no IVT or table padding and their counts kept.
   */
  lemma {:induction false} Update3bLaidOut(address: seq<int>, offset: int, dcd: I.Shape, csf: I.Shape, ks: seq<Container3b>, scd: S.APP,
                                           r: seq<Container3b>, t: Trailer)
    requires Pair3b(ks)
    requires B.SizesMatch(ks[0].bds.images, ks[0].apps, ks[0].bds.imagesCount)
    requires B.SizesMatch(ks[1].bds.images, ks[1].apps, ks[1].bds.imagesCount)
    requires Update3b(address, offset, dcd, csf, ks, scd) == Success((r, t))
    ensures Pair3b(r) && B.LaidOut(r[0].Images(), r[1].Images())
    ensures r[0].ivt.padding == 0 && r[1].ivt.padding == 0 && r[0].bds.padding == 0 && r[1].bds.padding == 0
    ensures r[0].bds.imagesCount == ks[0].bds.imagesCount && r[1].bds.imagesCount == ks[1].bds.imagesCount
  {
    var k0, k1 := Update3bSteps(address, offset, dcd, csf, ks, scd, r, t);
    UpdateContainer3bLaid(0, address, offset, dcd, csf, ks[0], ks[0], k0);
    UpdateContainer3bLaid(1, address, offset, dcd, csf, ks[1], k0, k1);
  }

  /** Container 0 updated from 0x1200 is sector-aligned, and so is container 1 after it when container 0 holds an image. */
  lemma {:induction false} ContainersAligned(address: seq<int>, offset: int, dcd: I.Shape, csf: I.Shape, ks: seq<Container3b>,
                                             k0: Container3b, k1: Container3b)
    requires Pair3b(ks)
    requires B.SizesMatch(ks[0].bds.images, ks[0].apps, ks[0].bds.imagesCount)
    requires B.SizesMatch(ks[1].bds.images, ks[1].apps, ks[1].bds.imagesCount)
    requires UpdateContainer3b(0, address, offset, dcd, csf, ks[0], ks[0]) == Success(k0)
    requires Sized3b(k0) && UpdateContainer3b(1, address, offset, dcd, csf, ks[1], k0) == Success(k1)
    ensures forall j :: 0 <= j < k0.bds.imagesCount ==> k0.bds.images[j].source % B.SECTOR_SIZE == 0
    ensures k0.bds.imagesCount != 0 ==> forall j :: 0 <= j < k1.bds.imagesCount ==> k1.bds.images[j].source % B.SECTOR_SIZE == 0
  {
    UpdateContainer3bLaid(0, address, offset, dcd, csf, ks[0], ks[0], k0);
    var n0 := ks[0].bds.imagesCount;
    if n0 != 0 && ks[1].bds.imagesCount != 0 {
      UpdateContainer3bLastPadded(0, address, offset, dcd, csf, ks[0], ks[0], k0);
      var img := k0.bds.images[n0 - 1];
      B.PaddedEndAligned(img.source, img.size, k0.apps[n0 - 1].padding);
      UpdateContainer3bLaid(1, address, offset, dcd, csf, ks[1], k0, k1);
    } else if n0 != 0 {
      UpdateContainer3bLaid(1, address, offset, dcd, csf, ks[1], k0, k1);
    }
  }

  /**
   * After `_update`, every image of container 0 starts on a sector, and so does every
   * image of container 1 when container 0 holds one: 3b pads each container's last
   * APP too.
   */
  lemma {:induction false} Update3bAligned(address: seq<int>, offset: int, dcd: I.Shape, csf: I.Shape, ks: seq<Container3b>, scd: S.APP,
                                           r: seq<Container3b>, t: Trailer)
    requires Pair3b(ks)
    requires B.SizesMatch(ks[0].bds.images, ks[0].apps, ks[0].bds.imagesCount)
    requires B.SizesMatch(ks[1].bds.images, ks[1].apps, ks[1].bds.imagesCount)
    requires Update3b(address, offset, dcd, csf, ks, scd) == Success((r, t))
    ensures Pair3b(r)
    ensures forall j :: 0 <= j < r[0].bds.imagesCount ==> r[0].bds.images[j].source % B.SECTOR_SIZE == 0
    ensures r[0].bds.imagesCount != 0 ==> forall j :: 0 <= j < r[1].bds.imagesCount ==> r[1].bds.images[j].source % B.SECTOR_SIZE == 0
  {
    var k0, k1 := Update3bSteps(address, offset, dcd, csf, ks, scd, r, t);
    ContainersAligned(address, offset, dcd, csf, ks, k0, k1);
  }

  /**
   * `_update` places the trailer at `TrailerStart`: an SCD with a destination there,
   * padded to its sector, and an enabled CSF right after the SCD's space; the CSF
   * segment is padded to the sector size of its descriptor.
   */
  lemma {:induction false} Update3bTrailer(address: seq<int>, offset: int, dcd: I.Shape, csf: I.Shape, ks: seq<Container3b>, scd: S.APP,
                                           r: seq<Container3b>, t: Trailer)
    requires Pair3b(ks)
    requires Update3b(address, offset, dcd, csf, ks, scd) == Success((r, t))
    ensures Pair3b(r) && TrailerStart(r[0].Images(), r[1].Images()).Success?
    ensures var start := TrailerStart(r[0].Images(), r[1].Images()).value;
      var placeScd := ks[0].bds.scd.destination != 0;
      var scdSpace := if placeScd then |scd.data.value| + t.scd.padding else 0;
      && (placeScd ==> scd.data.Some?)
      && t.scd == (if placeScd then scd.(padding := I.ComputePadding(ks[0].bds.scd.size, B.SECTOR_SIZE)) else scd)
      && r[0].bds.scd == (if placeScd then AtSource(ks[0].bds.scd, start) else ks[0].bds.scd)
      && r[0].bds.csf == (if csf.enabled then AtSource(ks[0].bds.csf, start + scdSpace) else ks[0].bds.csf)
      && t.csfPadding == (if csf.enabled then I.ComputePadding(ks[0].bds.csf.size, B.SECTOR_SIZE) else csf.padding)
  {
    var k0, k1 := Update3bSteps(address, offset, dcd, csf, ks, scd, r, t);
    UpdateContainer3bChains(0, address, offset, dcd, csf, ks[0], ks[0]);
    Trailer3bPlaces(k0.bds, scd, csf, TrailerStart(k0.Images(), k1.Images()).value);
  }

  /** In a laid-out container whose last image has data, every image ends at or before `ImagesEnd`. */
  lemma {:induction false} LaidBelowEnd(s: B.Slots, j: nat, e: int)
    requires s.Fits() && B.Laid(s) && j < s.count && ImagesEnd(s) == Success(e)
    ensures s.images[j].size >= 0 && s.images[j].source + s.images[j].size <= e
    decreases s.count - j
  {
    if j < s.count - 1 {
      LaidBelowEnd(s, j + 1, e);
    }
  }

  /**
   * With a destination, the SCD of an image `_update` laid out sits at or after
   * 0x1200 and past the end of every image of both containers, so it is never at
   * address 0, where `export` and `parse` would skip it, and overlaps no image.
   */
  lemma {:induction false} Update3bKeepsScd(address: seq<int>, offset: int, dcd: I.Shape, csf: I.Shape, ks: seq<Container3b>, scd: S.APP,
                                            r: seq<Container3b>, t: Trailer)
    requires Pair3b(ks)
    requires B.SizesMatch(ks[0].bds.images, ks[0].apps, ks[0].bds.imagesCount)
    requires B.SizesMatch(ks[1].bds.images, ks[1].apps, ks[1].bds.imagesCount)
    requires Update3b(address, offset, dcd, csf, ks, scd) == Success((r, t))
    requires ks[1].bds.imagesCount != 0 ==> ks[0].bds.imagesCount != 0
    requires ks[0].bds.scd.destination != 0
    ensures Pair3b(r) && r[0].bds.scd.source >= B.APP_ALIGN3
    ensures forall j :: 0 <= j < r[0].bds.imagesCount ==> r[0].bds.images[j].source + r[0].bds.images[j].size <= r[0].bds.scd.source
    ensures forall j :: 0 <= j < r[1].bds.imagesCount ==> r[1].bds.images[j].source + r[1].bds.images[j].size <= r[0].bds.scd.source
  {
    Update3bLaidOut(address, offset, dcd, csf, ks, scd, r, t);
    Update3bTrailer(address, offset, dcd, csf, ks, scd, r, t);
    var s0, s1 := r[0].Images(), r[1].Images();
    var start := TrailerStart(s0, s1).value;
    assert r[0].bds.scd.source == start;
    if s0.count != 0 {
      var e0 := ImagesEnd(s0).value;
      forall j | 0 <= j < s0.count
        ensures s0.images[j].source + s0.images[j].size <= start
      {
        LaidBelowEnd(s0, j, e0);
        if s1.count != 0 {
          LaidBelowEnd(s1, 0, start);
        }
      }
      LaidBelowEnd(s0, 0, e0);
    }
    if s1.count != 0 {
      forall j | 0 <= j < s1.count
        ensures s1.images[j].source + s1.images[j].size <= start
      {
        LaidBelowEnd(s1, j, start);
      }
    }
  }

  // ---------------------------------------------------------------------------
  // BootImg3b.add_image

  /** An SCD whose data, once given, is as long as the table's SCD descriptor says. */
  predicate ScdSized(b: S.BDS3b, scd: S.APP)
  {
    scd.data.Some? ==> |scd.data.value| == b.scd.size
  }

  /**
   * Filling the next free slot of a container, as the A53, A72, M4 and SCFW branches
   * of `add_image` do: destination, entry, size and flags, the APP's data padded to
   * the sector size, and the count up by one; a full table raises IndexError first.
   */
  function Place3b(k: Container3b, data: bytes, dest: int, entry: int, flags: int): (r: Result<Container3b>)
    requires Sized3b(k)
    ensures r.Success? <==> k.bds.imagesCount < S.BDS3B_SLOTS
    ensures r.Failure? ==> r.error == IndexErr
    ensures r.Success? ==> Sized3b(r.value)
  {
    var n := k.bds.imagesCount;
    if n >= S.BDS3B_SLOTS then Failure(IndexErr)
    else
      var d := S.IDS3b(k.bds.images[n].source, dest, entry, |data|, flags);
      Success(Container3b(k.ivt, k.bds.(imagesCount := n + 1, images := k.bds.images[n := d]),
                          k.apps[n := S.APP(Some(data), I.ComputePadding(|data|, B.SECTOR_SIZE))]))
  }

  /** The containers, the SCD segment and the SCD address after `add_image`. */
  datatype Added3b = Added3b(ks: seq<Container3b>, scd: S.APP, sdc: int)

  /**
   * `BootImg3b.add_image(data, img_type, address)`: A53 and A72 images go to
   * container 1, M4 cores and the SCFW to container 0; the SCFW is loaded at
   * 0x30fe0000 and fixes the SCD address at its end rounded up to 16 bytes; an SCD
   * fills the SCD segment and the SCD descriptor of container 0 and points IVT 0 at
   * it, and raises before any SCFW; any other type raises.
   */
  function AddImage3b(ks: seq<Container3b>, scd: S.APP, sdc: int, data: bytes, imgType: int, address: int): (r: Result<Added3b>)
    requires Pair3b(ks)
    ensures r.Success? ==> Pair3b(r.value.ks)
  {
    if imgType == I.IMG_APP || imgType == I.IMG_A72 then
      var k :- Place3b(ks[1], data, address, address, if imgType == I.IMG_APP then SCFW_FLAGS_A53 else SCFW_FLAGS_A72);
      Success(Added3b([ks[0], k], scd, sdc))
    else if imgType == I.IMG_M4_0 || imgType == I.IMG_M4_1 then
      var k :- Place3b(ks[0], data, address, address, if imgType == I.IMG_M4_0 then B.SCFW_FLAGS_M4_0 else B.SCFW_FLAGS_M4_1);
      Success(Added3b([k, ks[1]], scd, sdc))
    else if imgType == I.IMG_SCFW then
      var k :- Place3b(ks[0], data, SCFW_DESTINATION_3B, SCFW_ENTRY_3B, B.SCFW_FLAGS_SCFW);
      Success(Added3b([k, ks[1]], scd, SCFW_DESTINATION_3B + |data| + I.ComputePadding(|data|, B.IMG_AUTO_ALIGN)))
    else if imgType == I.IMG_SCD then
      if sdc == 0 then Failure(Raised("SCFW have to be define before SCD !"))
      else
        var k := ks[0];
        var d := S.IDS3b(k.bds.scd.source, sdc, 0, |data|, k.bds.scd.flags);
        Success(Added3b([k.(ivt := k.ivt.(scd := sdc), bds := k.bds.(scd := d)), ks[1]],
                        S.APP(Some(data), I.ComputePadding(|data|, B.SECTOR_SIZE)), sdc))
    else Failure(Raised(" Unknown image type !"))
  }

  /** The container `add_image` puts an image of this type in, if it takes a slot. */
  function Target3b(imgType: int): Option<nat>
  {
    if imgType == I.IMG_APP || imgType == I.IMG_A72 then Some(1)
    else if imgType == I.IMG_M4_0 || imgType == I.IMG_M4_1 || imgType == I.IMG_SCFW then Some(0)
    else None
  }

  /** What an image's slot records: its destination and flags by type. */
  function Destination3b(imgType: int, address: int): int
  {
    if imgType == I.IMG_SCFW then SCFW_DESTINATION_3B else address
  }

  /**
   * An image that takes a slot lands in the next free slot of its type's container,
   * destined where its type says, with the data it was given; the other container,
   * the counted images and the SCD are untouched; a full container raises IndexError,
   * an SCD before an SCFW and an unknown type raise.
   */
  lemma {:induction false} AddImage3bPlaces(ks: seq<Container3b>, scd: S.APP, sdc: int, data: bytes, imgType: int, address: int)
    requires Pair3b(ks)
    requires B.SizesMatch(ks[0].bds.images, ks[0].apps, ks[0].bds.imagesCount)
    requires B.SizesMatch(ks[1].bds.images, ks[1].apps, ks[1].bds.imagesCount)
    ensures var r := AddImage3b(ks, scd, sdc, data, imgType, address);
      && (Target3b(imgType).None? && imgType != I.IMG_SCD ==> r == Failure(Raised(" Unknown image type !")))
      && (imgType == I.IMG_SCD ==> (r.Failure? <==> sdc == 0) && (r.Failure? ==> r.error == Raised("SCFW have to be define before SCD !")))
      && (Target3b(imgType).Some? && ks[Target3b(imgType).value].bds.imagesCount == S.BDS3B_SLOTS ==> r == Failure(IndexErr))
      && (r.Success? && Target3b(imgType).Some? ==>
            var c := Target3b(imgType).value;
            var n := ks[c].bds.imagesCount;
            var k := r.value.ks[c];
            && r.value.ks[1 - c] == ks[1 - c] && r.value.scd == scd && k.ivt == ks[c].ivt
            && k.bds.scd == ks[c].bds.scd && k.bds.csf == ks[c].bds.csf
            && r.value.sdc == (if imgType == I.IMG_SCFW then SCFW_DESTINATION_3B + |data| + I.ComputePadding(|data|, B.IMG_AUTO_ALIGN) else sdc)
            && k.bds.imagesCount == n + 1 && k.bds.images[n].size == |data|
            && k.bds.images[n].destination == Destination3b(imgType, address)
            && k.apps[n].data == Some(data) && (|data| + k.apps[n].padding) % B.SECTOR_SIZE == 0
            && (forall j :: 0 <= j < n ==> k.bds.images[j] == ks[c].bds.images[j] && k.apps[j] == ks[c].apps[j])
            && B.SizesMatch(k.bds.images, k.apps, k.bds.imagesCount))
      && (r.Success? && imgType == I.IMG_SCD ==>
            var k := r.value.ks[0];
            && r.value.ks[1] == ks[1] && r.value.sdc == sdc && k.apps == ks[0].apps
            && k.bds.images == ks[0].bds.images && k.bds.imagesCount == ks[0].bds.imagesCount
            && k.ivt.scd == sdc && k.bds.scd.destination == sdc && k.bds.scd.size == |data|
            && r.value.scd.data == Some(data) && ScdSized(k.bds, r.value.scd))
  {
    var r := AddImage3b(ks, scd, sdc, data, imgType, address);
    if r.Success? && Target3b(imgType).Some? {
      var c := Target3b(imgType).value;
      var flags := if imgType == I.IMG_APP then SCFW_FLAGS_A53 else if imgType == I.IMG_A72 then SCFW_FLAGS_A72
                   else if imgType == I.IMG_M4_0 then B.SCFW_FLAGS_M4_0 else if imgType == I.IMG_M4_1 then B.SCFW_FLAGS_M4_1
                   else B.SCFW_FLAGS_SCFW;
      var entry := if imgType == I.IMG_SCFW then SCFW_ENTRY_3B else address;
      assert r.value.ks[c] == Place3b(ks[c], data, Destination3b(imgType, address), entry, flags).value;
    }
  }

  /**
   * An SCD added after an SCFW is destined to the first 16-byte boundary at or past
   * the SCFW's end in target memory, and IVT 0 points to the same address.
   */
  lemma {:induction false} ScdFollowsScfw3b(ks: seq<Container3b>, scd: S.APP, sdc: int, scfw: bytes, scdData: bytes, address: int)
    requires Pair3b(ks)
    requires AddImage3b(ks, scd, sdc, scfw, I.IMG_SCFW, address).Success?
    ensures var r1 := AddImage3b(ks, scd, sdc, scfw, I.IMG_SCFW, address).value;
      var r2 := AddImage3b(r1.ks, r1.scd, r1.sdc, scdData, I.IMG_SCD, address);
      && r1.sdc % B.IMG_AUTO_ALIGN == 0 && SCFW_DESTINATION_3B + |scfw| <= r1.sdc < SCFW_DESTINATION_3B + |scfw| + B.IMG_AUTO_ALIGN
      && r2.Success?
      && r2.value.ks[0].bds.scd.destination == r1.sdc && r2.value.ks[0].ivt.scd == r1.sdc
  {
    var r1 := AddImage3b(ks, scd, sdc, scfw, I.IMG_SCFW, address).value;
    var t := |scfw| + I.ComputePadding(|scfw|, B.IMG_AUTO_ALIGN);
    assert t == B.IMG_AUTO_ALIGN * (t / B.IMG_AUTO_ALIGN);
    assert r1.sdc == B.IMG_AUTO_ALIGN * (0x30fe000 + t / B.IMG_AUTO_ALIGN);
    I.MultipleMod(B.IMG_AUTO_ALIGN, 0x30fe000 + t / B.IMG_AUTO_ALIGN);
  }

  // ---------------------------------------------------------------------------
  // BootImg3b.export

  /** The head `export` writes before the zero fill: both IVTs, both tables and the DCD, but no CSF. */
  function HeadParts3b(ks: seq<Container3b>, dcdBytes: Result<bytes>): (r: seq<Result<bytes>>)
    requires |ks| == B.CONTAINERS
    ensures |r| == 5
  {
    [S.ExportIVT3b(ks[0].ivt, true), S.ExportIVT3b(ks[1].ivt, true),
     S.ExportBDS3b(ks[0].bds, true), S.ExportBDS3b(ks[1].bds, true), dcdBytes]
  }

  /** Unpadded IVTs and tables make a head of 2 * 64 + 2 * 240 bytes and the DCD blob. */
  lemma {:induction false} HeadLength3b(ks: seq<Container3b>, dcdBytes: Result<bytes>)
    requires Pair3b(ks)
    requires I.JoinAll(HeadParts3b(ks, dcdBytes)).Success?
    requires ks[0].ivt.padding == 0 && ks[1].ivt.padding == 0 && ks[0].bds.padding == 0 && ks[1].bds.padding == 0
    ensures dcdBytes.Success?
    ensures |I.JoinAll(HeadParts3b(ks, dcdBytes)).value| == 2 * S.IVT3B_SIZE + 2 * S.BDS3B_SIZE + |dcdBytes.value|
  {
    var parts := HeadParts3b(ks, dcdBytes);
    assert parts[4] == dcdBytes;
    I.TotalLengthSplit(parts);
  }

  /**
   * `BootImg3b.export` after `_update`: the head, the zero fill up to `0x1200 -
   * offset` and the APPs as for BootImg3a, then the SCD segment padded, when its
   * descriptor has a source, and the CSF blob, when its descriptor has one.
   */
  function ExportImage3b(offset: int, ks: seq<Container3b>, scd: S.APP, dcdBytes: Result<bytes>, csfBytes: Result<bytes>): Result<bytes>
    requires Pair3b(ks)
  {
    var body :- B.Assemble(offset, I.JoinAll(HeadParts3b(ks, dcdBytes)), ks[0].Images(), ks[1].Images());
    var s :- if ks[0].bds.scd.source != 0 then S.ExportAPP(scd, true) else Success([]);
    var c :- if ks[0].bds.csf.source != 0 then csfBytes else Success([]);
    Success(body + s + c)
  }

  /** An exported image is the BootImg3a-style body, then the SCD blob and the CSF blob `export` appends. */
  lemma {:induction false} Export3bParts(offset: int, ks: seq<Container3b>, scd: S.APP, dcdBytes: Result<bytes>, csfBytes: Result<bytes>, e: bytes)
    returns (body: bytes, scdBlob: bytes, csfBlob: bytes)
    requires Pair3b(ks) && ExportImage3b(offset, ks, scd, dcdBytes, csfBytes) == Success(e)
    ensures B.Assemble(offset, I.JoinAll(HeadParts3b(ks, dcdBytes)), ks[0].Images(), ks[1].Images()) == Success(body)
    ensures ks[0].bds.scd.source != 0 ==> S.ExportAPP(scd, true) == Success(scdBlob)
    ensures ks[0].bds.scd.source == 0 ==> scdBlob == []
    ensures ks[0].bds.csf.source != 0 ==> csfBytes == Success(csfBlob)
    ensures ks[0].bds.csf.source == 0 ==> csfBlob == []
    ensures e == body + scdBlob + csfBlob
  {
    body := B.Assemble(offset, I.JoinAll(HeadParts3b(ks, dcdBytes)), ks[0].Images(), ks[1].Images()).value;
    scdBlob := if ks[0].bds.scd.source != 0 then S.ExportAPP(scd, true).value else [];
    csfBlob := if ks[0].bds.csf.source != 0 then csfBytes.value else [];
  }

  /** Bytes read from a buffer are read the same from any extension of it. */
  lemma {:induction false} ReadImagesPrefix(data: bytes, tail: bytes, p: int, images: seq<S.IDS>, n: nat)
    requires n <= |images| && B.ReadImages(data, p, images, n).Success?
    ensures B.ReadImages(data + tail, p, images, n) == B.ReadImages(data, p, images, n)
    decreases n
  {
    if n > 0 {
      ReadImagesPrefix(data, tail, p, images, n - 1);
      var d := images[n - 1];
      var at := B.SeekTo(B.ImageStart(p, d)).value;
      ReadAtPrefix(data, tail, at, d.size);
    }
  }

  /** A read that succeeds on a buffer reads the same bytes from any extension of it. */
  lemma {:induction false} ReadAtPrefix(data: bytes, tail: bytes, at: nat, size: int)
    requires M.ReadAt(data, at, size, None).0.Success?
    ensures M.ReadAt(data + tail, at, size, None).0 == M.ReadAt(data, at, size, None).0
  {
    if size > 0 {
      assert (data + tail)[at..at + size] == data[at..at + size];
    }
  }

  /**
   * The shared premises of the export round trips: an image at the default offset
   * that `_update` laid out from slots whose data are as long as their descriptors,
   * whose DCD fits below 0x1200 with the head, and whose container 1 holds images
   * only when container 0 does.
   */
  predicate ExportedFrom(address: seq<int>, dcd: I.Shape, csf: I.Shape, ks: seq<Container3b>, scd: S.APP,
                         r: seq<Container3b>, t: Trailer, dcdBytes: Result<bytes>, csfBytes: Result<bytes>, e: bytes)
  {
    && Pair3b(ks)
    && B.SizesMatch(ks[0].bds.images, ks[0].apps, ks[0].bds.imagesCount)
    && B.SizesMatch(ks[1].bds.images, ks[1].apps, ks[1].bds.imagesCount)
    && (ks[1].bds.imagesCount != 0 ==> ks[0].bds.imagesCount != 0)
    && Update3b(address, B.DEFAULT_OFFSET, dcd, csf, ks, scd) == Success((r, t))
    && Pair3b(r) && ExportImage3b(B.DEFAULT_OFFSET, r, t.scd, dcdBytes, csfBytes) == Success(e)
    && dcdBytes.Success? && |dcdBytes.value| <= B.APP_ALIGN3 - B.DEFAULT_OFFSET - 2 * S.IVT3B_SIZE - 2 * S.BDS3B_SIZE
  }

  /**
   * What `export` writes for an image `_update` laid out: the head and zero fill up
   * to 0x1200 less the offset, both APP blobs, then the SCD blob and the CSF blob.
   */
  lemma {:induction false} Export3bLayout(address: seq<int>, dcd: I.Shape, csf: I.Shape, ks: seq<Container3b>, scd: S.APP,
                                          r: seq<Container3b>, t: Trailer, dcdBytes: Result<bytes>, csfBytes: Result<bytes>, e: bytes)
    returns (head: bytes, body: bytes, scdBlob: bytes, csfBlob: bytes)
    requires Pair3b(ks) && Pair3b(r) && ExportedFrom(address, dcd, csf, ks, scd, r, t, dcdBytes, csfBytes, e)
    ensures B.LaidOut(r[0].Images(), r[1].Images())
    ensures r[0].bds.imagesCount == ks[0].bds.imagesCount && r[1].bds.imagesCount == ks[1].bds.imagesCount
    ensures 0 < |head| <= B.APP_ALIGN3 - B.DEFAULT_OFFSET
    ensures B.Assemble(B.DEFAULT_OFFSET, Success(head), r[0].Images(), r[1].Images()) == Success(body)
    ensures B.ContainerApps(r[0].Images()).Success? && B.ContainerApps(r[1].Images()).Success?
    ensures |body| == B.APP_ALIGN3 - B.DEFAULT_OFFSET + |B.ContainerApps(r[0].Images()).value| + |B.ContainerApps(r[1].Images()).value|
    ensures r[0].bds.scd.source != 0 ==> S.ExportAPP(t.scd, true) == Success(scdBlob)
    ensures r[0].bds.scd.source == 0 ==> scdBlob == []
    ensures r[0].bds.csf.source != 0 ==> csfBytes == Success(csfBlob)
    ensures e == body + scdBlob + csfBlob
  {
    Update3bLaidOut(address, B.DEFAULT_OFFSET, dcd, csf, ks, scd, r, t);
    body, scdBlob, csfBlob := Export3bParts(B.DEFAULT_OFFSET, r, t.scd, dcdBytes, csfBytes, e);
    HeadLength3b(r, dcdBytes);
    head := I.JoinAll(HeadParts3b(r, dcdBytes)).value;
    B.AssembleLayout(B.DEFAULT_OFFSET, head, r[0].Images(), r[1].Images());
  }

  /**
   * Where the trailer of that layout sits: with a destination, the SCD's descriptor
   * points right after the APPs and keeps its size, and an enabled CSF's descriptor
   * points right after the SCD blob.
   */
  lemma {:induction false} Export3bTrailer(address: seq<int>, dcd: I.Shape, csf: I.Shape, ks: seq<Container3b>, scd: S.APP,
                                           r: seq<Container3b>, t: Trailer, dcdBytes: Result<bytes>, csfBytes: Result<bytes>, e: bytes,
                                           body: bytes, scdBlob: bytes, csfBlob: bytes)
    requires Pair3b(ks) && Pair3b(r) && Update3b(address, B.DEFAULT_OFFSET, dcd, csf, ks, scd) == Success((r, t))
    requires ks[1].bds.imagesCount != 0 ==> ks[0].bds.imagesCount != 0
    requires r[0].bds.imagesCount == ks[0].bds.imagesCount && r[1].bds.imagesCount == ks[1].bds.imagesCount
    requires B.LaidOut(r[0].Images(), r[1].Images())
    requires B.ContainerApps(r[0].Images()).Success? && B.ContainerApps(r[1].Images()).Success?
    requires |body| == B.APP_ALIGN3 - B.DEFAULT_OFFSET + |B.ContainerApps(r[0].Images()).value| + |B.ContainerApps(r[1].Images()).value|
    requires r[0].bds.scd.source != 0 ==> S.ExportAPP(t.scd, true) == Success(scdBlob)
    requires r[0].bds.scd.source == 0 ==> scdBlob == []
    requires r[0].bds.csf.source != 0 ==> csfBytes == Success(csfBlob)
    ensures ks[0].bds.scd.destination != 0 ==>
      && scd.data.Some? && t.scd.data == scd.data
      && r[0].bds.scd == AtSource(ks[0].bds.scd, |body| + B.DEFAULT_OFFSET)
      && S.ExportAPP(t.scd, true) == Success(scdBlob)
    ensures csf.enabled && (ks[0].bds.scd.destination != 0 || ks[0].bds.scd.source == 0) ==>
      && r[0].bds.csf == AtSource(ks[0].bds.csf, |body| + |scdBlob| + B.DEFAULT_OFFSET)
      && csfBytes == Success(csfBlob)
  {
    Update3bTrailer(address, B.DEFAULT_OFFSET, dcd, csf, ks, scd, r, t);
    TrailerStartEnd(r[0].Images(), r[1].Images());
  }

  /**
   * `parse` reads back every image `export` wrote: from the IVT at 0, the reads of
   * container `c` give the data of its counted slots, whatever follows the APPs.
   */
  lemma {:induction false} Export3bReadsImages(s0: B.Slots, s1: B.Slots, head: bytes, body: bytes, tail: bytes, e: bytes, c: nat, s: B.Slots)
    requires s0.Fits() && s1.Fits() && B.LaidOut(s0, s1)
    requires B.Assemble(B.DEFAULT_OFFSET, Success(head), s0, s1) == Success(body)
    requires 0 < |head| <= B.APP_ALIGN3 - B.DEFAULT_OFFSET && e == body + tail
    requires c < B.CONTAINERS && (c == 1 ==> s0.count != 0) && s == (if c == 0 then s0 else s1)
    ensures forall j :: 0 <= j < s.count ==> s.apps[j].data.Some?
    ensures B.ReadImages(e, 0, s.images, s.count) == Success(B.SlotData(s.apps, s.count))
  {
    B.ExportReadsImages(s0, s1, head, body, c, s);
    ReadImagesPrefix(body, tail, 0, s.images, s.count);
  }

  /**
   * `parse` reads back the SCD `export` wrote: a descriptor as long as the SCD's
   * data, pointing right after the body, reads the SCD's data out of the padded
   * SCD blob `export` appends to it.
   */
  lemma {:induction false} Export3bReadsScd(body: bytes, scdBlob: bytes, tail: bytes, e: bytes, d: S.IDS, a: S.APP)
    requires e == body + scdBlob + tail && S.ExportAPP(a, true) == Success(scdBlob)
    requires a.data.Some? && d.size == |a.data.value| && B.ImageStart(0, d) == |body|
    ensures B.ReadImages(e, 0, [d], 1) == Success([a.data.value])
  {
    assert e[|body|..|body| + d.size] == scdBlob[..d.size];
    assert B.PlacedAt(e, 0, d, a);
    B.ReadImagesOfPlaced(e, 0, [d], 1, [a]);
    assert B.SlotData([a], 1) == [a.data.value];
  }

  /**
   * The CSF follows the SCD where its descriptor says: a descriptor pointing right
   * after the body and the SCD blob finds the CSF blob `export` appends there.
   */
  lemma {:induction false} Export3bPlacesCsf(body: bytes, scdBlob: bytes, csfBlob: bytes, e: bytes, d: S.IDS)
    requires e == body + scdBlob + csfBlob && B.ImageStart(0, d) == |body| + |scdBlob|
    ensures var at := B.ImageStart(0, d);
      0 <= at && at + |csfBlob| == |e| && e[at..] == csfBlob
  {
  }

  /**
   * `parse` reads back the images `export` wrote after `_update`: from the IVT at 0,
   * the reads of container 0 give every counted slot's data, and so do the reads of
   * container 1 as long as container 0 holds an image.
   */
  lemma {:induction false} Export3bReadsContainers(address: seq<int>, dcd: I.Shape, csf: I.Shape, ks: seq<Container3b>, scd: S.APP,
                                                   r: seq<Container3b>, t: Trailer, dcdBytes: Result<bytes>, csfBytes: Result<bytes>, e: bytes)
    requires Pair3b(ks) && Pair3b(r) && ExportedFrom(address, dcd, csf, ks, scd, r, t, dcdBytes, csfBytes, e)
    ensures forall j :: 0 <= j < r[0].bds.imagesCount ==> r[0].apps[j].data.Some?
    ensures B.ReadImages(e, 0, r[0].bds.images, r[0].bds.imagesCount) == Success(B.SlotData(r[0].apps, r[0].bds.imagesCount))
    ensures r[0].bds.imagesCount != 0 ==> forall j :: 0 <= j < r[1].bds.imagesCount ==> r[1].apps[j].data.Some?
    ensures r[0].bds.imagesCount != 0 ==>
      B.ReadImages(e, 0, r[1].bds.images, r[1].bds.imagesCount) == Success(B.SlotData(r[1].apps, r[1].bds.imagesCount))
  {
    var head, body, scdBlob, csfBlob := Export3bLayout(address, dcd, csf, ks, scd, r, t, dcdBytes, csfBytes, e);
    var s0, s1 := r[0].Images(), r[1].Images();
    assert s0.images == r[0].bds.images && s0.apps == r[0].apps && s0.count == r[0].bds.imagesCount;
    assert s1.images == r[1].bds.images && s1.apps == r[1].apps && s1.count == r[1].bds.imagesCount;
    ReadsBothContainers(s0, s1, head, body, scdBlob, csfBlob, e);
  }

  /** Both containers' images read back from a body the SCD and CSF blobs follow. */
  lemma {:induction false} ReadsBothContainers(s0: B.Slots, s1: B.Slots, head: bytes, body: bytes, scdBlob: bytes, csfBlob: bytes, e: bytes)
    requires s0.Fits() && s1.Fits() && B.LaidOut(s0, s1)
    requires B.Assemble(B.DEFAULT_OFFSET, Success(head), s0, s1) == Success(body)
    requires 0 < |head| <= B.APP_ALIGN3 - B.DEFAULT_OFFSET && e == body + scdBlob + csfBlob
    ensures forall j :: 0 <= j < s0.count ==> s0.apps[j].data.Some?
    ensures B.ReadImages(e, 0, s0.images, s0.count) == Success(B.SlotData(s0.apps, s0.count))
    ensures s0.count != 0 ==> forall j :: 0 <= j < s1.count ==> s1.apps[j].data.Some?
    ensures s0.count != 0 ==> B.ReadImages(e, 0, s1.images, s1.count) == Success(B.SlotData(s1.apps, s1.count))
  {
    var tail := scdBlob + csfBlob;
    assert e == body + tail;
    Export3bReadsImages(s0, s1, head, body, tail, e, 0, s0);
    if s0.count != 0 {
      Export3bReadsImages(s0, s1, head, body, tail, e, 1, s1);
    }
  }

  /**
   * `parse` reads back the SCD `export` wrote after `_update`: an SCD with a
   * destination and data as long as its descriptor is read from where table 0's SCD
   * descriptor points, which is not 0.
   */
  lemma {:induction false} Export3bReadsScdBack(address: seq<int>, dcd: I.Shape, csf: I.Shape, ks: seq<Container3b>, scd: S.APP,
                                                r: seq<Container3b>, t: Trailer, dcdBytes: Result<bytes>, csfBytes: Result<bytes>, e: bytes)
    requires Pair3b(ks) && Pair3b(r) && ExportedFrom(address, dcd, csf, ks, scd, r, t, dcdBytes, csfBytes, e)
    requires ks[0].bds.scd.destination != 0 && ScdSized(ks[0].bds, scd)
    ensures scd.data.Some? && r[0].bds.scd.source != 0
    ensures B.ReadImages(e, 0, [r[0].bds.scd], 1) == Success([scd.data.value])
  {
    var head, body, scdBlob, csfBlob := Export3bLayout(address, dcd, csf, ks, scd, r, t, dcdBytes, csfBytes, e);
    Export3bTrailer(address, dcd, csf, ks, scd, r, t, dcdBytes, csfBytes, e, body, scdBlob, csfBlob);
    Export3bReadsScd(body, scdBlob, csfBlob, e, r[0].bds.scd, t.scd);
  }

  // ---------------------------------------------------------------------------
  // BootImg3b.parse

  /** What `BootImg3b.parse` reads: both IVTs and tables, the DCD IVT 0 points to, every counted image, the SCD and the CSF. */
  datatype Read3b = Read3b(ivt: seq<S.IVT3b>, bds: seq<S.BDS3b>, dcd: Option<bytes>, apps: seq<seq<bytes>>,
                           scd: Option<bytes>, csf: Option<bytes>)

  /** The two IVT segments at the probe's position `p`, parsed, and the position after them. */
  function ReadIvts3b(data: bytes, p: nat): (r: Result<(seq<S.IVT3b>, nat)>)
    ensures r.Success? ==> |r.value.0| == B.CONTAINERS
  {
    var i0 := M.SegmentAt(data, p, H.TAG_IVT2, None);
    var b0 :- i0.0;
    var ivt0 :- S.ParseIVT3b(b0);
    var i1 := M.SegmentAt(data, i0.1, H.TAG_IVT2, None);
    var b1 :- i1.0;
    var ivt1 :- S.ParseIVT3b(b1);
    Success(([ivt0, ivt1], i1.1))
  }

  /**
   * The two 240-byte boot data tables read from `pos` on, each parsed by `SegBDS3b.parse`
   * as written, which reads SCD, CSF and the reserved descriptor right after the counted
   * image slots.
   */
  function ReadTables3b(data: bytes, pos: nat): (r: Result<seq<S.BDS3b>>)
    ensures r.Success? ==> |r.value| == B.CONTAINERS && S.WellFormedBDS3b(r.value[0]) && S.WellFormedBDS3b(r.value[1])
  {
    var t0 := M.ReadAt(data, pos, S.BDS3B_SIZE, None);
    var tb0 :- t0.0;
    var bds0 :- S.ParseBDS3bAsWritten(tb0);
    var t1 := M.ReadAt(data, t0.1, S.BDS3B_SIZE, None);
    var tb1 :- t1.0;
    var bds1 :- S.ParseBDS3bAsWritten(tb1);
    Success([bds0, bds1])
  }

  /** A table as `SegBDS3b.parse` leaves it, and the data read for its counted images, each as long as its descriptor says. */
  predicate TableRead3b(b: S.BDS3b, apps: seq<bytes>)
  {
    && S.WellFormedBDS3b(b) && |apps| == b.imagesCount
    && forall j :: 0 <= j < |apps| ==> |apps[j]| == b.images[j].size
  }

  /** What a successful `ReadV3b` hands to the image: two IVTs, two tables with their images' data, and an SCD as long as its descriptor. */
  predicate Read3bShaped(rd: Read3b)
  {
    && |rd.ivt| == B.CONTAINERS && |rd.bds| == B.CONTAINERS && |rd.apps| == B.CONTAINERS
    && TableRead3b(rd.bds[0], rd.apps[0]) && TableRead3b(rd.bds[1], rd.apps[1])
    && (rd.scd.Some? ==> |rd.scd.value| == rd.bds[0].scd.size)
  }

  /** The SCD read: `image_size` bytes from where its descriptor points, when its source is set. */
  function ReadScd(data: bytes, p: int, d: S.IDS): (r: Result<Option<bytes>>)
    ensures d.source == 0 ==> r == Success(None)
    ensures r.Success? && d.source != 0 ==> r.value.Some? && |r.value.value| == d.size
    ensures r.Success? && r.value.Some? ==> B.ReadImages(data, p, [d], 1) == Success([r.value.value])
  {
    if d.source == 0 then Success(None)
    else
      var got :- B.ReadImages(data, p, [d], 1);
      assert got == [got[0]];
      Success(Some(got[0]))
  }

  /**
   * The reads of `BootImg3b.parse` from the IVT its probe found at `p`: two IVT
   * segments, two 240-byte tables, the DCD IVT 0 points to, parsed as it is read,
   * the images of container 0 and of container 1, then the SCD and the CSF segment
   * that table 0's descriptors point to, the CSF parsed as it is read.
   */
  function ReadV3b(data: bytes, p: nat): (r: Result<Read3b>)
    ensures r.Success? ==>
      && Read3bShaped(r.value)
      && (r.value.dcd.Some? <==> r.value.ivt[0].dcd != 0)
      && (r.value.scd.Some? <==> r.value.bds[0].scd.source != 0)
      && (r.value.csf.Some? <==> r.value.bds[0].csf.source != 0)
      && (r.value.dcd.Some? ==> CS.ParseSegment(H.TAG_DCD, CS.DCD_KINDS, r.value.dcd.value, 0).Success?)
      && (r.value.csf.Some? ==> CS.ParseSegment(H.TAG_CSF, CS.CSF_KINDS, r.value.csf.value, 0).Success?)
      && B.ReadImages(data, p, r.value.bds[0].images, r.value.bds[0].imagesCount) == Success(r.value.apps[0])
      && B.ReadImages(data, p, r.value.bds[1].images, r.value.bds[1].imagesCount) == Success(r.value.apps[1])
      && (r.value.scd.Some? ==> B.ReadImages(data, p, [r.value.bds[0].scd], 1) == Success([r.value.scd.value]))
  {
    var ivts :- ReadIvts3b(data, p);
    var bds :- ReadTables3b(data, ivts.1);
    var ivt0 := ivts.0[0];
    var dcd :- B.ReadPointed(data, p, ivt0.ivt, ivt0.dcd, H.TAG_DCD, CS.DCD_KINDS);
    var apps0 :- B.ReadImages(data, p, bds[0].images, bds[0].imagesCount);
    var apps1 :- B.ReadImages(data, p, bds[1].images, bds[1].imagesCount);
    var scd :- ReadScd(data, p, bds[0].scd);
    var csf :- B.ReadPointed(data, p, B.DEFAULT_OFFSET, bds[0].csf.source, H.TAG_CSF, CS.CSF_KINDS);
    var rd := Read3b(ivts.0, bds, dcd, [apps0, apps1], scd, csf);
    assert Read3bShaped(rd);
    Success(rd)
  }

  /** The two IVT reads of `parse` on the stream. */
  method ReadIvtsFrom3b(stream: M.Stream) returns (r: Result<seq<S.IVT3b>>)
    modifies stream
    ensures var spec := ReadIvts3b(stream.data, old(stream.pos));
      && (r.Success? <==> spec.Success?) && (r.Failure? ==> r.error == spec.error)
      && (r.Success? ==> r.value == spec.value.0 && stream.pos == spec.value.1)
  {
    var b0 := M.ReadRawSegment(stream, H.TAG_IVT2, None);
    if b0.Failure? {
      return Failure(b0.error);
    }
    var ivt0 := S.ParseIVT3b(b0.value);
    if ivt0.Failure? {
      return Failure(ivt0.error);
    }
    var b1 := M.ReadRawSegment(stream, H.TAG_IVT2, None);
    if b1.Failure? {
      return Failure(b1.error);
    }
    var ivt1 := S.ParseIVT3b(b1.value);
    if ivt1.Failure? {
      return Failure(ivt1.error);
    }
    return Success([ivt0.value, ivt1.value]);
  }

  /** The two table reads of `parse` on the stream. */
  method ReadTablesFrom3b(stream: M.Stream) returns (r: Result<seq<S.BDS3b>>)
    modifies stream
    ensures r == ReadTables3b(stream.data, old(stream.pos))
  {
    var tb0 := M.ReadRawData(stream, S.BDS3B_SIZE, None);
    if tb0.Failure? {
      return Failure(tb0.error);
    }
    var bds0 := S.ParseBDS3bAsWritten(tb0.value);
    if bds0.Failure? {
      return Failure(bds0.error);
    }
    var tb1 := M.ReadRawData(stream, S.BDS3B_SIZE, None);
    if tb1.Failure? {
      return Failure(tb1.error);
    }
    var bds1 := S.ParseBDS3bAsWritten(tb1.value);
    if bds1.Failure? {
      return Failure(bds1.error);
    }
    return Success([bds0.value, bds1.value]);
  }

  /** The reads of `BootImg3b.parse` on the stream, from the probe's position. */
  method ReadSegments3b(stream: M.Stream) returns (r: Result<Read3b>)
    modifies stream
    ensures r == ReadV3b(stream.data, old(stream.pos))
  {
    var p := stream.pos;
    var ivts := ReadIvtsFrom3b(stream);
    if ivts.Failure? {
      return Failure(ivts.error);
    }
    var bds := ReadTablesFrom3b(stream);
    if bds.Failure? {
      return Failure(bds.error);
    }
    var ivt0 := ivts.value[0];
    var dcd := B.ReadPointedFrom(stream, p, ivt0.ivt, ivt0.dcd, H.TAG_DCD, CS.DCD_KINDS);
    if dcd.Failure? {
      return Failure(dcd.error);
    }
    var apps0 := B.ReadImagesFrom(stream, p, bds.value[0].images, bds.value[0].imagesCount);
    if apps0.Failure? {
      return Failure(apps0.error);
    }
    var apps1 := B.ReadImagesFrom(stream, p, bds.value[1].images, bds.value[1].imagesCount);
    if apps1.Failure? {
      return Failure(apps1.error);
    }
    var scd: Option<bytes> := None;
    var d := bds.value[0].scd;
    if d.source != 0 {
      var got := B.ReadImagesFrom(stream, p, [d], 1);
      if got.Failure? {
        return Failure(got.error);
      }
      scd := Some(got.value[0]);
    }
    var csf := B.ReadPointedFrom(stream, p, B.DEFAULT_OFFSET, bds.value[0].csf.source, H.TAG_CSF, CS.CSF_KINDS);
    if csf.Failure? {
      return Failure(csf.error);
    }
    return Success(Read3b(ivts.value, bds.value, dcd.value, [apps0.value, apps1.value], scd, csf.value));
  }

  /** Four APP slots: the data read for the first ones, without padding, and empty slots after them. */
  function FilledApps3b(data: seq<bytes>): (r: seq<S.APP>)
    requires |data| <= S.BDS3B_SLOTS
    ensures |r| == S.BDS3B_SLOTS
    ensures forall j :: 0 <= j < S.BDS3B_SLOTS ==> r[j] == if j < |data| then S.APP(Some(data[j]), 0) else S.APP(None, 0)
  {
    seq(S.BDS3B_SLOTS, j requires 0 <= j < S.BDS3B_SLOTS => if j < |data| then S.APP(Some(data[j]), 0) else S.APP(None, 0))
  }

  class BootImg3b {
    var address: seq<int>
    var offset: int
    var plg: bool
    var ivt: seq<S.IVT3b>
    var bdt: seq<S.BDS3b>
    var app: seq<seq<S.APP>>
    var dcd: CS.CmdSegment
    var scd: S.APP
    var csf: CS.CmdSegment
    var scdAddress: int

    /**
     * Two containers of four 3b slots whose counted images have data as long as their
     * descriptors say, an SCD as long as its descriptor, and the DCD and CSF segments
     * the setters accept.
     */
    predicate Valid()
      reads this
    {
      && |ivt| == B.CONTAINERS && |bdt| == B.CONTAINERS && |app| == B.CONTAINERS
      && Sized3b(K(0)) && Sized3b(K(1))
      && B.SizesMatch(bdt[0].images, app[0], bdt[0].imagesCount)
      && B.SizesMatch(bdt[1].images, app[1], bdt[1].imagesCount)
      && ScdSized(bdt[0], scd)
      && dcd.tag == H.TAG_DCD && csf.tag == H.TAG_CSF
    }

    function K(c: nat): Container3b
      requires c < |ivt| && c < |bdt| && c < |app|
      reads this
    {
      Container3b(ivt[c], bdt[c], app[c])
    }

    function Containers(): seq<Container3b>
      requires |ivt| == B.CONTAINERS && |bdt| == B.CONTAINERS && |app| == B.CONTAINERS
      reads this
    {
      [K(0), K(1)]
    }

    function DcdShape(): I.Shape
      reads this, dcd
    {
      I.Shape(dcd.enabled, dcd.length, dcd.padding)
    }

    function CsfShape(): I.Shape
      reads this, csf
    {
      I.Shape(csf.enabled, csf.length, csf.padding)
    }

    /**
     * `BootImg3b(address, offset, version)`: two IVTs of param `version`, empty tables,
     * APPs and SCD, a disabled DCD and CSF; an address that is not a list becomes the
     * two ROM load addresses.
     */
    constructor (address: Option<seq<int>>, offset: int, version: byte)
      ensures Valid() && fresh(dcd) && fresh(csf)
      ensures this.address == (if address.Some? then address.value else [B.INITIAL_LOAD_ADDR_SCU_ROM, B.INITIAL_LOAD_ADDR_AP_ROM])
      ensures this.offset == offset && !plg && scdAddress == 0
      ensures ivt == [S.NewIVT3b(version), S.NewIVT3b(version)] && bdt == [S.NewBDS3b(), S.NewBDS3b()]
      ensures forall c, j :: 0 <= c < B.CONTAINERS && 0 <= j < S.BDS3B_SLOTS ==> app[c][j] == S.APP(None, 0)
      ensures scd == S.APP(None, 0)
      ensures !dcd.enabled && dcd.commands == [] && !csf.enabled && csf.commands == []
    {
      this.address := if address.Some? then address.value else [B.INITIAL_LOAD_ADDR_SCU_ROM, B.INITIAL_LOAD_ADDR_AP_ROM];
      this.offset := offset;
      ivt := [S.NewIVT3b(version), S.NewIVT3b(version)];
      bdt := [S.NewBDS3b(), S.NewBDS3b()];
      var empty := seq(S.BDS3B_SLOTS, _ => S.APP(None, 0));
      app := [empty, empty];
      dcd := new CS.CmdSegment.DCD(0x41, false);
      scd := S.APP(None, 0);
      csf := new CS.CmdSegment.CSF(0, false);
      plg := false;
      scdAddress := 0;
    }

    /**
     * `BootImg3b.add_image`: the containers, the SCD segment and the SCD address
     * become what `AddImage3b` describes; an image that raises changes nothing.
     */
    method AddImage(data: bytes, imgType: int, address: int) returns (o: Outcome)
      requires Valid()
      modifies this
      ensures Valid()
      ensures this.address == old(this.address) && offset == old(offset) && plg == old(plg) && dcd == old(dcd) && csf == old(csf)
      ensures var u := AddImage3b(old(Containers()), old(scd), old(scdAddress), data, imgType, address);
        && (o.Pass? <==> u.Success?)
        && (o.Fail? ==> o.error == u.error && Containers() == old(Containers()) && scd == old(scd) && scdAddress == old(scdAddress))
        && (o.Pass? ==> Containers() == u.value.ks && scd == u.value.scd && scdAddress == u.value.sdc)
    {
      var u := AddImage3b(Containers(), scd, scdAddress, data, imgType, address);
      if u.Failure? {
        return Fail(u.error);
      }
      AddImage3bPlaces(Containers(), scd, scdAddress, data, imgType, address);
      ivt := [u.value.ks[0].ivt, u.value.ks[1].ivt];
      bdt := [u.value.ks[0].bds, u.value.ks[1].bds];
      app := [u.value.ks[0].apps, u.value.ks[1].apps];
      scd := u.value.scd;
      scdAddress := u.value.sdc;
      return Pass;
    }

    /**
     * One round of `_update`'s container loop, without the SCD and CSF: the container
     * becomes what `UpdateContainer3b` describes and the other one is kept; a round
     * that raises leaves the container as far as `Round3b` says it got.
     */
    method UpdateContainer(c: nat, dcd0: I.Shape, csf0: I.Shape) returns (o: Outcome)
      requires Valid() && c < B.CONTAINERS
      modifies this
      ensures Valid()
      ensures address == old(address) && offset == old(offset) && plg == old(plg) && scdAddress == old(scdAddress)
      ensures dcd == old(dcd) && csf == old(csf) && scd == old(scd) && K(1 - c) == old(K(1 - c))
      ensures K(c) == Round3b(c, address, offset, dcd0, csf0, old(K(c)), old(K(0)))
      ensures var u := UpdateContainer3b(c, address, offset, dcd0, csf0, old(K(c)), old(K(0)));
        && (o.Pass? <==> u.Success?) && (o.Fail? ==> o.error == u.error)
        && (o.Pass? ==> K(c) == u.value)
    {
      var k, prev := K(c), K(0);
      var r := UpdateContainer3b(c, address, offset, dcd0, csf0, k, prev);
      var after := Round3b(c, address, offset, dcd0, csf0, k, prev);
      Round3bSized(c, address, offset, dcd0, csf0, k, prev);
      ghost var other := K(1 - c);
      ivt, bdt, app := ivt[c := after.ivt], bdt[c := after.bds], app[c := after.apps];
      assert K(c) == after && K(1 - c) == other;
      if r.Failure? {
        return Fail(r.error);
      }
      Round3bOfSuccess(c, address, offset, dcd0, csf0, k, prev);
      return Pass;
    }

    /**
     * `BootImg3b._update`: both containers in turn, then the SCD and CSF of
     * container 0 after the last image, as `Update3b` describes; the CSF segment
     * takes its new padding. A failure in a container round stops it there, with
     * that container as far as `Round3b` says it got and the later one untouched.
     */
    method Update() returns (o: Outcome)
      requires Valid()
      modifies this, csf`padding
      ensures Valid() && csf == old(csf) && dcd == old(dcd)
      ensures address == old(address) && offset == old(offset) && plg == old(plg) && scdAddress == old(scdAddress)
      ensures var u := Update3b(address, offset, old(DcdShape()), old(CsfShape()), old(Containers()), old(scd));
        && (o.Pass? <==> u.Success?) && (o.Fail? ==> o.error == u.error)
        && (o.Pass? ==> Containers() == u.value.0 && scd == u.value.1.scd && csf.padding == u.value.1.csfPadding)
      ensures o.Fail? ==>
        var u0 := UpdateContainer3b(0, address, offset, old(DcdShape()), old(CsfShape()), old(K(0)), old(K(0)));
        if u0.Failure? then
          K(0) == Round3b(0, address, offset, old(DcdShape()), old(CsfShape()), old(K(0)), old(K(0))) && K(1) == old(K(1))
        else
          var u1 := UpdateContainer3b(1, address, offset, old(DcdShape()), old(CsfShape()), old(K(1)), u0.value);
          u1.Failure? ==>
            K(0) == u0.value && K(1) == Round3b(1, address, offset, old(DcdShape()), old(CsfShape()), old(K(1)), u0.value)
    {
      var dcd0, csf0, ks, scd0 := DcdShape(), CsfShape(), Containers(), scd;
      for c := 0 to B.CONTAINERS
        invariant Valid() && scd == scd0 && csf.padding == csf0.padding
        invariant address == old(address) && offset == old(offset) && plg == old(plg) && scdAddress == old(scdAddress)
        invariant dcd == old(dcd) && csf == old(csf)
        invariant c == 0 ==> K(0) == ks[0]
        invariant c < B.CONTAINERS ==> K(1) == ks[1]
        invariant c >= 1 ==> UpdateContainer3b(0, address, offset, dcd0, csf0, ks[0], ks[0]) == Success(K(0))
        invariant c == B.CONTAINERS ==> UpdateContainer3b(1, address, offset, dcd0, csf0, ks[1], K(0)) == Success(K(1))
      {
        o := UpdateContainer(c, dcd0, csf0);
        if o.Fail? {
          return;
        }
      }
      Update3bCases(address, offset, dcd0, csf0, ks, scd0);
      o := PlaceTrailer(csf0);
    }

    /**
     * The end of `_update`: the SCD and CSF of container 0 laid out after the last
     * image, as `TrailerOf` describes; the CSF segment takes its new padding.
     */
    method PlaceTrailer(csf0: I.Shape) returns (o: Outcome)
      requires Valid()
      modifies this, csf`padding
      ensures Valid() && csf == old(csf) && dcd == old(dcd) && K(1) == old(K(1))
      ensures address == old(address) && offset == old(offset) && plg == old(plg) && scdAddress == old(scdAddress)
      ensures var tr := TrailerOf(old(K(0)), old(K(1)), old(scd), csf0);
        && (o.Pass? <==> tr.Success?) && (o.Fail? ==> o.error == tr.error)
        && (o.Pass? ==> K(0) == old(K(0)).(bds := tr.value.bds) && scd == tr.value.scd && csf.padding == tr.value.csfPadding)
    {
      var next := TrailerStart(K(0).Images(), K(1).Images());
      if next.Failure? {
        return Fail(next.error);
      }
      var t := Trailer3b(bdt[0], scd, csf0, next.value);
      if t.Failure? {
        return Fail(t.error);
      }
      Trailer3bPlaces(bdt[0], scd, csf0, next.value);
      bdt := bdt[0 := t.value.bds];
      scd := t.value.scd;
      csf.padding := t.value.csfPadding;
      return Pass;
    }

    /**
     * The image `BootImg3b.parse` builds from what it read: a default image's address,
     * offset and SCD address, the IVTs and tables read, each counted slot's data with
     * no padding and the other slots empty, the SCD's data when table 0 points to
     * it, and the DCD and CSF parsed, or the default disabled ones.
     */
    predicate BuiltFrom(rd: Read3b)
      requires Read3bShaped(rd)
      reads this, dcd, csf
    {
      && address == [B.INITIAL_LOAD_ADDR_SCU_ROM, B.INITIAL_LOAD_ADDR_AP_ROM] && offset == B.DEFAULT_OFFSET && !plg && scdAddress == 0
      && ivt == rd.ivt && bdt == rd.bds && |app| == B.CONTAINERS
      && (forall c :: 0 <= c < B.CONTAINERS ==> |app[c]| == S.BDS3B_SLOTS)
      && (forall c, j :: 0 <= c < B.CONTAINERS && 0 <= j < S.BDS3B_SLOTS ==>
            app[c][j] == if j < |rd.apps[c]| then S.APP(Some(rd.apps[c][j]), 0) else S.APP(None, 0))
      && scd == (if rd.scd.Some? then S.APP(Some(rd.scd.value), 0) else S.APP(None, 0))
      && (rd.dcd.None? ==> !dcd.enabled && dcd.param == 0x41 && dcd.commands == [])
      && (rd.dcd.Some? ==> dcd.enabled && dcd.padding == 0 && CS.ParseSegment(H.TAG_DCD, CS.DCD_KINDS, rd.dcd.value, 0) == Success((dcd.param, dcd.commands)))
      && (rd.csf.None? ==> !csf.enabled && csf.param == 0 && csf.commands == [])
      && (rd.csf.Some? ==> csf.enabled && csf.padding == 0 && CS.ParseSegment(H.TAG_CSF, CS.CSF_KINDS, rd.csf.value, 0) == Success((csf.param, csf.commands)))
    }

    /**
     * `BootImg3b.parse(buffer, step)` on a stream positioned at `start`: the probe
     * for a v3b IVT from `start` while the cursor is below the size of the rest of the
     * buffer less four, then the reads `ReadV3b` describes; the image is built from
     * them, and any read or parse that raises is the error of the whole.
     */
    static method Parse(data: bytes, start: nat, step: nat) returns (r: Result<BootImg3b>)
      requires step > 0
      ensures I.Find(I.V3b, data, start, step, |data| - start).None? ==> r == Failure(Raised(I.NOT_IMX))
      ensures I.Find(I.V3b, data, start, step, |data| - start).Some? ==>
        var rd := ReadV3b(data, I.Find(I.V3b, data, start, step, |data| - start).value);
        && (r.Success? <==> rd.Success?) && (rd.Failure? ==> r == Failure(rd.error))
        && (r.Success? ==> fresh(r.value) && fresh(r.value.dcd) && fresh(r.value.csf) && r.value.Valid()
                           && Read3bShaped(rd.value) && r.value.BuiltFrom(rd.value))
    {
      var stream := new M.Stream(data);
      stream.Seek(start);
      ghost var spot := I.Find(I.V3b, data, start, step, |data| - start);
      var found := I.Sniff(stream, I.V3b, step, |data| - start);
      assert found <==> spot.Some?;
      if !found {
        return Failure(Raised(I.NOT_IMX));
      }
      assert stream.pos == spot.value;
      var rd := ReadSegments3b(stream);
      assert rd == ReadV3b(data, spot.value);
      if rd.Failure? {
        return Failure(rd.error);
      }
      var dcd := new CS.CmdSegment.DCD(0x41, false);
      if rd.value.dcd.Some? {
        var parsed := CS.ParseDCD(rd.value.dcd.value);
        if parsed.Success? {
          dcd := parsed.value;
        }
      }
      var csf := new CS.CmdSegment.CSF(0, false);
      if rd.value.csf.Some? {
        var parsed := CS.ParseCSF(rd.value.csf.value, 0);
        if parsed.Success? {
          csf := parsed.value;
        }
      }
      var obj := new BootImg3b.FromRead(rd.value, dcd, csf);
      return Success(obj);
    }

    /** The image `parse` assembles from a shaped read and the DCD and CSF it parsed. */
    constructor FromRead(rd: Read3b, dcd: CS.CmdSegment, csf: CS.CmdSegment)
      requires Read3bShaped(rd) && dcd.tag == H.TAG_DCD && csf.tag == H.TAG_CSF
      ensures Valid() && this.dcd == dcd && this.csf == csf
      ensures address == [B.INITIAL_LOAD_ADDR_SCU_ROM, B.INITIAL_LOAD_ADDR_AP_ROM] && offset == B.DEFAULT_OFFSET && !plg && scdAddress == 0
      ensures ivt == rd.ivt && bdt == rd.bds && |app| == B.CONTAINERS
      ensures forall c :: 0 <= c < B.CONTAINERS ==> |app[c]| == S.BDS3B_SLOTS
      ensures forall c, j :: 0 <= c < B.CONTAINERS && 0 <= j < S.BDS3B_SLOTS ==>
        app[c][j] == if j < |rd.apps[c]| then S.APP(Some(rd.apps[c][j]), 0) else S.APP(None, 0)
      ensures scd == (if rd.scd.Some? then S.APP(Some(rd.scd.value), 0) else S.APP(None, 0))
    {
      address := [B.INITIAL_LOAD_ADDR_SCU_ROM, B.INITIAL_LOAD_ADDR_AP_ROM];
      offset := B.DEFAULT_OFFSET;
      plg := false;
      scdAddress := 0;
      ivt := rd.ivt;
      bdt := rd.bds;
      app := [FilledApps3b(rd.apps[0]), FilledApps3b(rd.apps[1])];
      scd := if rd.scd.Some? then S.APP(Some(rd.scd.value), 0) else S.APP(None, 0);
      this.dcd := dcd;
      this.csf := csf;
    }

    /**
     * `BootImg3b.export`: `_update`, then the blob `ExportImage3b` describes from the
     * containers and the SCD it laid out; a failing update raises before anything is
     * exported.
     */
    method Export() returns (r: Result<bytes>)
      requires Valid()
      modifies this, csf`padding
      ensures Valid() && csf == old(csf) && dcd == old(dcd)
      ensures address == old(address) && offset == old(offset) && plg == old(plg) && scdAddress == old(scdAddress)
      ensures var u := Update3b(address, offset, old(DcdShape()), old(CsfShape()), old(Containers()), old(scd));
        && (u.Failure? ==> r == Failure(u.error))
        && (u.Success? ==> Containers() == u.value.0 && scd == u.value.1.scd && csf.padding == u.value.1.csfPadding)
        && (u.Success? ==>
              r == ExportImage3b(offset, Containers(), scd,
                                 CS.ExportSegment(dcd.enabled, dcd.Header(), dcd.commands, true, dcd.padding),
                                 CS.ExportSegment(csf.enabled, csf.Header(), csf.commands, true, csf.padding)))
    {
      var o := Update();
      if o.Fail? {
        return Failure(o.error);
      }
      r := ExportLaidOut();
    }

    /** The concatenation `export` writes once `_update` has run: the body, then the SCD and CSF blobs the table points to. */
    method ExportLaidOut() returns (r: Result<bytes>)
      requires Valid()
      ensures r == ExportImage3b(offset, Containers(), scd,
                                 CS.ExportSegment(dcd.enabled, dcd.Header(), dcd.commands, true, dcd.padding),
                                 CS.ExportSegment(csf.enabled, csf.Header(), csf.commands, true, csf.padding))
    {
      var ks := Containers();
      var d := dcd.Export(true);
      var body := B.AssembleFrom(offset, I.JoinAll(HeadParts3b(ks, d)), ks[0].Images(), ks[1].Images());
      if body.Failure? {
        return Failure(body.error);
      }
      var scdBlob: bytes, csfBlob: bytes := [], [];
      if ks[0].bds.scd.source != 0 {
        var e := S.ExportAPP(scd, true);
        if e.Failure? {
          return Failure(e.error);
        }
        scdBlob := e.value;
      }
      if ks[0].bds.csf.source != 0 {
        var e := csf.Export(true);
        if e.Failure? {
          return Failure(e.error);
        }
        csfBlob := e.value;
      }
      return Success(body.value + scdBlob + csfBlob);
    }
  }
}
