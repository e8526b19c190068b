// The two-container boot images of imx/img/images.py: BootImg3a (i.MX8QXP-A0) and
// BootImg3b (i.MX8QM-A0). Each holds two IVTs and two boot data tables; `_update`
// chains the images of both containers from 0x1200 on, each image padded to the
// 0x200-byte sector, `add_image` fills the tables' slots, `export` writes the head
// and then every image, and `parse` reads them back from the IVT its probe finds.
module ImgBootImg3 {
  import opened Base
  import H = ImgHeader
  import S = ImgSegments
  import CS = ImgCmdSegments
  import M = ImgMisc
  import I = ImgImages
  import ImgCommands

  const SECTOR_SIZE: int := 0x200
  const IMG_AUTO_ALIGN: int := 0x10
  /** `APP_ALIGN`: the first image of container 0 sits at 0x1200. */
  const APP_ALIGN3: int := 0x1200
  const CONTAINERS: nat := 2

  const INITIAL_LOAD_ADDR_SCU_ROM: int := 0x2000e000
  const INITIAL_LOAD_ADDR_AP_ROM: int := 0x00110000

  const IMG_TYPE_SCD: int := 0x02
  const IMG_TYPE_EXEC: int := 0x03

  /** `offset` of a freshly built image, which `parse` never changes. */
  const DEFAULT_OFFSET: int := 0x400

  // ---------------------------------------------------------------------------
  // Shared helpers

  /** Python's `xs[i]` for `-n <= i < n`: a negative index counts from the end. */
  function PyIndex(i: int, n: nat): (r: int)
    requires -(n as int) <= i < n
    ensures 0 <= r < n && (i >= 0 ==> r == i) && (i < 0 ==> r == n + i)
  {
    if i < 0 then n + i else i
  }

  /** `SegAPP.space`: the data's length and the padding; `len(None)` raises TypeError. */
  function AppSpace(a: S.APP): (r: Result<int>)
    ensures r.Success? <==> a.data.Some?
    ensures r.Failure? ==> r.error == TypeErr
    ensures r.Success? ==> r.value == |a.data.value| + a.padding
  {
    if a.data.None? then Failure(TypeErr) else Success(|a.data.value| + a.padding)
  }

  /** The descriptors and APP segments of one container after its image loop. */
  datatype Chain = Chain(images: seq<S.IDS>, apps: seq<S.APP>)

  /**
   * What the image loop of `_update` leaves: images 1 to `count - 1` get a new source
   * and their APPs the padding to the sector boundary of the descriptor's size; every
   * other field and slot is kept; and each image starts where the previous one's data
   * and padding end.
   */
  predicate Chained(images: seq<S.IDS>, apps: seq<S.APP>, count: int, c: Chain)
    requires count <= |images| == |apps|
  {
    && |c.images| == |images| && |c.apps| == |apps|
    && (forall j :: 0 <= j < |images| ==>
          c.images[j] == (if 1 <= j < count then images[j].(source := c.images[j].source) else images[j]))
    && (forall j :: 0 <= j < |apps| ==>
          c.apps[j] == (if 1 <= j < count then apps[j].(padding := I.ComputePadding(images[j].size, SECTOR_SIZE)) else apps[j]))
    && (forall j :: 0 <= j < count - 1 ==>
          apps[j].data.Some? && c.images[j + 1].source == c.images[j].source + |apps[j].data.value| + c.apps[j].padding)
  }

  /** The loop reads the space of every image but the last, so each of those needs data. */
  predicate ChainData(apps: seq<S.APP>, count: int)
    requires count <= |apps|
  {
    forall j :: 0 <= j < count - 1 ==> apps[j].data.Some?
  }

  /** The first `k` rounds of the image loop, one after the other. */
  function ChainSteps(images: seq<S.IDS>, apps: seq<S.APP>, k: nat): (r: Result<Chain>)
    requires k < |images| == |apps|
    ensures r.Success? ==> |r.value.images| == |images| && |r.value.apps| == |apps|
    ensures r.Failure? ==> r.error == TypeErr
    decreases k
  {
    if k == 0 then Success(Chain(images, apps))
    else
      var prev :- ChainSteps(images, apps, k - 1);
      var space :- AppSpace(prev.apps[k - 1]);
      Success(Chain(prev.images[k := prev.images[k].(source := prev.images[k - 1].source + space)],
                    prev.apps[k := prev.apps[k].(padding := I.ComputePadding(prev.images[k].size, SECTOR_SIZE))]))
  }

  /** The rounds change sources only, so every descriptor keeps its layout. */
  lemma {:induction false} ChainStepsSlots(images: seq<S.IDS>, apps: seq<S.APP>, k: nat)
    requires k < |images| == |apps| && ChainSteps(images, apps, k).Success?
    ensures forall j :: 0 <= j < |images| ==> ChainSteps(images, apps, k).value.images[j].IDS3a? == images[j].IDS3a?
    decreases k
  {
    if k > 0 {
      ChainStepsSlots(images, apps, k - 1);
    }
  }

  /** The whole image loop: `images_count - 1` rounds, none for a count below 2. */
  function ChainOf(images: seq<S.IDS>, apps: seq<S.APP>, count: int): (r: Result<Chain>)
    requires count <= |images| == |apps| && 0 < |images|
    ensures r.Success? ==> |r.value.images| == |images| && |r.value.apps| == |apps|
    ensures r.Failure? ==> r.error == TypeErr
  {
    ChainSteps(images, apps, if count >= 1 then count - 1 else 0)
  }

  /** `k` rounds succeed exactly when the first `k` APPs have data, and leave the images chained. */
  lemma {:induction false} ChainStepsChained(images: seq<S.IDS>, apps: seq<S.APP>, k: nat)
    requires k < |images| == |apps|
    ensures ChainSteps(images, apps, k).Success? <==> ChainData(apps, k + 1)
    ensures ChainSteps(images, apps, k).Success? ==> Chained(images, apps, k + 1, ChainSteps(images, apps, k).value)
    decreases k
  {
    if k > 0 {
      ChainStepsChained(images, apps, k - 1);
      var prev := ChainSteps(images, apps, k - 1);
      if prev.Success? {
        var p := prev.value;
        assert p.apps[k - 1].data == apps[k - 1].data;
        if apps[k - 1].data.Some? {
          var c := ChainSteps(images, apps, k).value;
          assert c.images == p.images[k := p.images[k].(source := p.images[k - 1].source + |apps[k - 1].data.value| + p.apps[k - 1].padding)];
          assert c.apps == p.apps[k := p.apps[k].(padding := I.ComputePadding(images[k].size, SECTOR_SIZE))];
          forall j | 0 <= j < |images|
            ensures c.images[j] == (if 1 <= j < k + 1 then images[j].(source := c.images[j].source) else images[j])
          {
            if j != k {
              assert c.images[j] == p.images[j];
            }
          }
          forall j | 0 <= j < k
            ensures apps[j].data.Some? && c.images[j + 1].source == c.images[j].source + |apps[j].data.value| + c.apps[j].padding
          {
            if j < k - 1 {
              assert c.images[j + 1] == p.images[j + 1];
            }
          }
        }
      }
    }
  }

  /** The image loop succeeds exactly when every image but the last has data, and chains the images. */
  lemma {:induction false} ChainOfChained(images: seq<S.IDS>, apps: seq<S.APP>, count: int)
    requires count <= |images| == |apps| && 0 < |images|
    ensures ChainOf(images, apps, count).Success? <==> ChainData(apps, count)
    ensures ChainOf(images, apps, count).Success? ==> Chained(images, apps, count, ChainOf(images, apps, count).value)
  {
    var k := if count >= 1 then count - 1 else 0;
    ChainStepsChained(images, apps, k);
  }

  /**
   * `for i in range(images_count - 1)`: image `i + 1` starts at image `i`'s source
   * plus the space of APP `i`, and APP `i + 1` is padded to the sector size. The
   * descriptors and APPs are updated in place, so `reached` is what the rounds left,
   * the ones before a round that raises included.
   */
  method ChainImages(images: seq<S.IDS>, apps: seq<S.APP>, count: int) returns (r: Result<Chain>, reached: Chain)
    requires count <= |images| == |apps| && 0 < |images|
    ensures r == ChainOf(images, apps, count)
    ensures reached == ChainReached(images, apps, if count >= 1 then count - 1 else 0)
  {
    var im, ap := images, apps;
    var i := 0;
    while i < count - 1
      invariant 0 <= i <= Max(0, count - 1)
      invariant ChainSteps(images, apps, i) == Success(Chain(im, ap))
    {
      var space := AppSpace(ap[i]);
      if space.Failure? {
        assert ChainSteps(images, apps, i + 1).Failure?;
        StepsFailFrom(images, apps, i + 1, count - 1);
        ReachedAfterFail(images, apps, i, count - 1);
        return Failure(TypeErr), Chain(im, ap);
      }
      im := im[i + 1 := im[i + 1].(source := im[i].source + space.value)];
      ap := ap[i + 1 := ap[i + 1].(padding := I.ComputePadding(im[i + 1].size, SECTOR_SIZE))];
      i := i + 1;
    }
    return Success(Chain(im, ap)), Chain(im, ap);
  }

  /** Once a round fails, every later number of rounds fails the same way. */
  lemma {:induction false} StepsFailFrom(images: seq<S.IDS>, apps: seq<S.APP>, k: nat, n: nat)
    requires k <= n < |images| == |apps| && ChainSteps(images, apps, k).Failure?
    ensures ChainSteps(images, apps, n) == Failure(TypeErr)
    decreases n - k
  {
    if k < n {
      StepsFailFrom(images, apps, k + 1, n);
    }
  }

  /**
   * What `k` rounds of the image loop leave in the descriptors and APPs they update in
   * place: all `k` rounds when none raises, else the rounds before the one that raises.
   */
  function ChainReached(images: seq<S.IDS>, apps: seq<S.APP>, k: nat): (r: Chain)
    requires k < |images| == |apps|
    ensures |r.images| == |images| && |r.apps| == |apps|
    decreases k
  {
    var steps := ChainSteps(images, apps, k);
    if steps.Success? then steps.value
    else if k == 0 then assert false; Chain(images, apps)
    else ChainReached(images, apps, k - 1)
  }

  /**
   * The rounds that ran: `k` rounds leave the chain of some `i <= k` rounds, all `k`
   * when they succeed, and otherwise the rounds before the first that raises, on the
   * APP `i` that has no data.
   */
  lemma {:induction false} ChainReachedAt(images: seq<S.IDS>, apps: seq<S.APP>, k: nat) returns (i: nat)
    requires k < |images| == |apps|
    ensures i <= k && ChainSteps(images, apps, i) == Success(ChainReached(images, apps, k))
    ensures ChainSteps(images, apps, k).Success? <==> i == k
    ensures i < k ==> ChainSteps(images, apps, i + 1).Failure? && apps[i].data.None?
    decreases k
  {
    if ChainSteps(images, apps, k).Success? {
      i := k;
    } else {
      i := ChainReachedAt(images, apps, k - 1);
      if i < k - 1 {
        assert ChainSteps(images, apps, i + 1).Failure?;
      } else {
        ChainStepsChained(images, apps, i);
        ChainStepsChained(images, apps, i + 1);
      }
    }
  }

  /** After the first round that raises, more rounds leave what the ones before it left. */
  lemma {:induction false} ReachedAfterFail(images: seq<S.IDS>, apps: seq<S.APP>, i: nat, n: nat)
    requires i < n < |images| == |apps|
    requires ChainSteps(images, apps, i).Success? && ChainSteps(images, apps, i + 1).Failure?
    ensures ChainReached(images, apps, n) == ChainSteps(images, apps, i).value
    decreases n - i
  {
    StepsFailFrom(images, apps, i + 1, n);
    if n - 1 > i {
      ReachedAfterFail(images, apps, i, n - 1);
    }
  }

  /**
   * Chained images whose data is as long as their descriptors say start on sector
   * boundaries when the first does.
   */
  lemma {:induction false} ChainAligned(images: seq<S.IDS>, apps: seq<S.APP>, count: int, c: Chain, j: nat)
    requires count <= |images| == |apps| && Chained(images, apps, count, c)
    requires 0 < count && c.images[0].source % SECTOR_SIZE == 0
    requires c.apps[0].padding == I.ComputePadding(images[0].size, SECTOR_SIZE)
    requires forall k :: 0 <= k < count && apps[k].data.Some? ==> |apps[k].data.value| == images[k].size
    requires j < count
    ensures c.images[j].source % SECTOR_SIZE == 0
    decreases j
  {
    if j > 0 {
      ChainAligned(images, apps, count, c, j - 1);
      var pad := c.apps[j - 1].padding;
      assert apps[j - 1].data.Some? && c.images[j].source == c.images[j - 1].source + |apps[j - 1].data.value| + pad;
      assert |apps[j - 1].data.value| == images[j - 1].size;
      assert pad == I.ComputePadding(images[j - 1].size, SECTOR_SIZE);
      PaddedEndAligned(c.images[j - 1].source, images[j - 1].size, pad);
    }
  }

  /** Chained images never start before the first: every space added is non-negative. */
  lemma {:induction false} ChainAscending(images: seq<S.IDS>, apps: seq<S.APP>, count: int, c: Chain, j: nat)
    requires count <= |images| == |apps| && Chained(images, apps, count, c)
    requires j < count && c.apps[0].padding >= 0
    ensures c.images[j].source >= c.images[0].source
    decreases j
  {
    if j > 0 {
      ChainAscending(images, apps, count, c, j - 1);
      if j - 1 > 0 {
        assert c.apps[j - 1].padding == I.ComputePadding(images[j - 1].size, SECTOR_SIZE);
      }
    }
  }

  // ---------------------------------------------------------------------------
  // The head: two IVTs, then two boot data tables, then DCD and CSF

  /** The four addresses `_update` writes into a container's IVT. */
  datatype Head = Head(ivt: int, bdt: int, dcd: int, csf: int)

  /**
   * Container `c`'s IVT sits `c` IVTs past `address + offset`, its table after the
   * rest of the IVTs and the tables before it; DCD and CSF follow both tables, in
   * container 0 only, each present only when enabled.
   */
  function HeadOf(c: nat, base: int, offset: int, ivtSize: int, bdsSize: int, dcd: I.Shape, csf: I.Shape): Head
  {
    var ivt := base + offset + c * ivtSize;
    var bdt := ivt + ivtSize * (CONTAINERS - c) + c * bdsSize;
    if c != 0 then Head(ivt, bdt, 0, 0)
    else if dcd.enabled then
      var d := bdt + bdsSize * 2;
      Head(ivt, bdt, d, if csf.enabled then d + dcd.Space() else 0)
    else Head(ivt, bdt, 0, if csf.enabled then bdt + bdsSize * 2 else 0)
  }

  /**
   * When both containers load at the same address, the head is laid out in the order
   * `export` writes it: IVT 0, IVT 1, table 0, table 1, then the DCD and the CSF;
   * container 1 never points to a DCD or CSF.
   */
  lemma {:induction false} HeadContiguous(base: int, offset: int, ivtSize: int, bdsSize: int, dcd: I.Shape, csf: I.Shape)
    ensures var h0 := HeadOf(0, base, offset, ivtSize, bdsSize, dcd, csf);
      var h1 := HeadOf(1, base, offset, ivtSize, bdsSize, dcd, csf);
      && h0.ivt == base + offset && h1.ivt == h0.ivt + ivtSize
      && h0.bdt == h1.ivt + ivtSize && h1.bdt == h0.bdt + bdsSize
      && (dcd.enabled ==> h0.dcd == h1.bdt + bdsSize)
      && (csf.enabled ==> h0.csf == h1.bdt + bdsSize + dcd.Space())
      && (!dcd.enabled ==> h0.dcd == 0) && (!csf.enabled ==> h0.csf == 0)
      && h1.dcd == 0 && h1.csf == 0
  {
  }

  /**
   * Where container `c`'s first image goes: 0x1200 in container 0, and in container 1
   * right after the space of container 0's last image, `images[images_count - 1]`,
   * which is slot -1, the last slot, when container 0 holds no image.
   */
  function FirstSource(c: nat, prevImages: seq<S.IDS>, prevApps: seq<S.APP>, prevCount: int): (r: Result<int>)
    requires 0 < |prevImages| == |prevApps| && 0 <= prevCount <= |prevImages|
    ensures c == 0 ==> r == Success(APP_ALIGN3)
    ensures c != 0 ==>
      var last := if prevCount == 0 then |prevImages| - 1 else prevCount - 1;
      && (r.Success? <==> prevApps[last].data.Some?)
      && (r.Success? ==> r.value == prevImages[last].source + |prevApps[last].data.value| + prevApps[last].padding)
  {
    if c == 0 then Success(APP_ALIGN3)
    else
      var last := PyIndex(prevCount - 1, |prevImages|);
      var space :- AppSpace(prevApps[last]);
      Success(prevImages[last].source + space)
  }

  /** The images and APPs a container holds before the loop: APP 0 padded, image 0 placed when there is one. */
  function Seed(images: seq<S.IDS>, apps: seq<S.APP>, count: int, first: int): (r: Chain)
    requires 0 < |images| == |apps|
    ensures |r.images| == |images| && |r.apps| == |apps|
  {
    Chain(if count != 0 then images[0 := images[0].(source := first)] else images,
          apps[0 := apps[0].(padding := I.ComputePadding(images[0].size, SECTOR_SIZE))])
  }

  // ---------------------------------------------------------------------------
  // The images after the head, as `export` writes them and `parse` reads them

  /** The image slots of one container: descriptors, APP segments and how many are counted. */
  datatype Slots = Slots(images: seq<S.IDS>, apps: seq<S.APP>, count: int)
  {
    /** As many APPs as descriptors, and a count that fits them. */
    predicate Fits()
    {
      0 <= count <= |images| == |apps|
    }
  }

  /** The exported APPs of the first `n` slots, in slot order. */
  function AppParts(apps: seq<S.APP>, n: nat): (r: seq<Result<bytes>>)
    requires n <= |apps|
    ensures |r| == n
  {
    seq(n, i requires 0 <= i < n => S.ExportAPP(apps[i], true))
  }

  /** `for i in range(images_count): data += app[i].export(True)`: the APP blobs of a container's counted images. */
  function ContainerApps(s: Slots): Result<bytes>
    requires s.Fits()
  {
    I.JoinAll(AppParts(s.apps, s.count))
  }

  /** `for container in range(2)`: both containers' APP blobs, container 0's first. */
  function BothApps(s0: Slots, s1: Slots): (r: seq<Result<bytes>>)
    requires s0.Fits() && s1.Fits()
    ensures |r| == CONTAINERS
  {
    [ContainerApps(s0), ContainerApps(s1)]
  }

  /**
   * The part of `export` from the end of the head to the last image: zeros up to the
   * next multiple of `0x1200 - offset` (a ZeroDivisionError when the offset is 0x1200),
   * then every counted APP of container 0 and of container 1.
   */
  function Assemble(offset: int, head: Result<bytes>, s0: Slots, s1: Slots): Result<bytes>
    requires s0.Fits() && s1.Fits()
  {
    var h :- head;
    if APP_ALIGN3 - offset == 0 then Failure(ZeroDivErr)
    else
      var apps :- I.JoinAll(BothApps(s0, s1));
      Success(h + Zeros(I.ComputePadding(|h|, APP_ALIGN3 - offset)) + apps)
  }

  /** The image loop of `export` for one container. */
  method ExportContainerApps(s: Slots) returns (r: Result<bytes>)
    requires s.Fits()
    ensures r == ContainerApps(s)
  {
    var n: nat := s.count;
    var data: bytes := [];
    for i := 0 to n
      invariant I.JoinAll(AppParts(s.apps, i)) == Success(data)
    {
      var e := S.ExportAPP(s.apps[i], true);
      assert AppParts(s.apps, i + 1) == AppParts(s.apps, i) + [e];
      I.JoinAllSnoc(AppParts(s.apps, i), e);
      if e.Failure? {
        assert AppParts(s.apps, n) == AppParts(s.apps, i + 1) + AppParts(s.apps, n)[i + 1..];
        I.JoinAllConcat(AppParts(s.apps, i + 1), AppParts(s.apps, n)[i + 1..]);
        return Failure(e.error);
      }
      data := data + e.value;
    }
    return Success(data);
  }

  /** The container loop of `export`: both containers' APP blobs, in order. */
  method ExportAllApps(s0: Slots, s1: Slots) returns (r: Result<bytes>)
    requires s0.Fits() && s1.Fits()
    ensures r == I.JoinAll(BothApps(s0, s1))
  {
    var parts := BothApps(s0, s1);
    var apps: bytes := [];
    for i := 0 to CONTAINERS
      invariant I.JoinAll(parts[..i]) == Success(apps)
    {
      var e := ExportContainerApps(if i == 0 then s0 else s1);
      assert parts[..i + 1] == parts[..i] + [e];
      I.JoinAllSnoc(parts[..i], e);
      if e.Failure? {
        assert parts == parts[..i + 1] + parts[i + 1..];
        I.JoinAllConcat(parts[..i + 1], parts[i + 1..]);
        return Failure(e.error);
      }
      apps := apps + e.value;
    }
    assert parts[..CONTAINERS] == parts;
    return Success(apps);
  }

  /** `Assemble`, appended part by part as `export` does. */
  method AssembleFrom(offset: int, head: Result<bytes>, s0: Slots, s1: Slots) returns (r: Result<bytes>)
    requires s0.Fits() && s1.Fits()
    ensures r == Assemble(offset, head, s0, s1)
  {
    if head.Failure? {
      return Failure(head.error);
    }
    if APP_ALIGN3 - offset == 0 {
      return Failure(ZeroDivErr);
    }
    var apps := ExportAllApps(s0, s1);
    if apps.Failure? {
      return Failure(apps.error);
    }
    return Success(head.value + Zeros(I.ComputePadding(|head.value|, APP_ALIGN3 - offset)) + apps.value);
  }

  /**
   * A container as `_update` leaves it: every counted APP padded by a non-negative
   * amount and as long as its descriptor says, each image right after the previous
   * one's data and padding.
   */
  predicate Laid(s: Slots)
    requires s.Fits()
  {
    && SizesMatch(s.images, s.apps, s.count)
    && (forall j :: 0 <= j < s.count ==> s.apps[j].padding >= 0)
    && (forall j :: 0 <= j < s.count - 1 ==>
          s.apps[j].data.Some? && s.images[j + 1].source == s.images[j].source + |s.apps[j].data.value| + s.apps[j].padding)
  }

  /** The first `j` APPs of a laid-out container fill the bytes from its first image's source to image `j`'s. */
  lemma {:induction false} ContainerAppsOffsets(s: Slots, j: nat)
    requires s.Fits() && Laid(s) && ContainerApps(s).Success? && j <= s.count
    ensures j < s.count ==> I.TotalLength(AppParts(s.apps, j)) == s.images[j].source - s.images[0].source
    ensures 0 < j ==> s.apps[j - 1].data.Some?
    ensures 0 < j ==>
      I.TotalLength(AppParts(s.apps, j)) == s.images[j - 1].source - s.images[0].source + |s.apps[j - 1].data.value| + s.apps[j - 1].padding
  {
    var n: nat := s.count;
    if j == 0 {
      assert AppParts(s.apps, 0) == [];
    } else {
      var e := S.ExportAPP(s.apps[j - 1], true);
      assert AppParts(s.apps, j) == AppParts(s.apps, j - 1) + [e];
      assert AppParts(s.apps, n)[j - 1] == e;
      I.TotalLengthSnoc(AppParts(s.apps, j - 1), e);
      ContainerAppsOffsets(s, j - 1);
    }
  }

  /** A laid-out container's APP blob ends where its last image's data and padding end. */
  lemma {:induction false} ContainerAppsEnd(s: Slots)
    requires s.Fits() && Laid(s) && ContainerApps(s).Success? && 0 < s.count
    ensures s.apps[s.count - 1].data.Some?
    ensures |ContainerApps(s).value| ==
      s.images[s.count - 1].source - s.images[0].source + |s.apps[s.count - 1].data.value| + s.apps[s.count - 1].padding
  {
    ContainerAppsOffsets(s, s.count);
  }

  /** Image `j`'s bytes sit in the container's APP blob at its source less the first image's. */
  lemma {:induction false} ContainerAppAt(s: Slots, j: nat)
    requires s.Fits() && Laid(s) && ContainerApps(s).Success? && j < s.count
    ensures var a := ContainerApps(s).value;
      var at := s.images[j].source - s.images[0].source;
      var d := s.images[j];
      && s.apps[j].data.Some? && 0 <= at && at + d.size <= |a| && a[at..at + d.size] == s.apps[j].data.value
  {
    var n: nat := s.count;
    var parts := AppParts(s.apps, n);
    I.JoinAllAt(parts, j);
    assert parts[..j] == AppParts(s.apps, j);
    ContainerAppsOffsets(s, j);
    var a := ContainerApps(s).value;
    var at := I.TotalLength(parts[..j]);
    var e := parts[j].value;
    assert a[at..at + |e|] == e;
    assert e[..|s.apps[j].data.value|] == s.apps[j].data.value;
    assert a[at..at + |e|][..|s.apps[j].data.value|] == a[at..at + |s.apps[j].data.value|];
  }

  /**
   * Two containers as `_update` leaves them: both laid out, container 0's first image
   * at 0x1200 and container 1's right after container 0's last.
   */
  predicate LaidOut(s0: Slots, s1: Slots)
    requires s0.Fits() && s1.Fits()
  {
    var n0 := s0.count;
    && Laid(s0) && Laid(s1)
    && (n0 != 0 ==> s0.images[0].source == APP_ALIGN3)
    && (n0 != 0 && s1.count != 0 ==>
          s0.apps[n0 - 1].data.Some?
          && s1.images[0].source == s0.images[n0 - 1].source + |s0.apps[n0 - 1].data.value| + s0.apps[n0 - 1].padding)
  }

  /**
   * After a head that fits below `0x1200 - offset` bytes, the head and its zero fill
   * take exactly those bytes, and the two containers' APP blobs follow.
   */
  lemma {:induction false} AssembleLayout(offset: int, head: bytes, s0: Slots, s1: Slots)
    requires s0.Fits() && s1.Fits()
    requires Assemble(offset, Success(head), s0, s1).Success?
    requires 0 < |head| <= APP_ALIGN3 - offset
    ensures var e := Assemble(offset, Success(head), s0, s1).value;
      && ContainerApps(s0).Success? && ContainerApps(s1).Success?
      && |e| == APP_ALIGN3 - offset + |ContainerApps(s0).value| + |ContainerApps(s1).value|
      && e[APP_ALIGN3 - offset..] == ContainerApps(s0).value + ContainerApps(s1).value
  {
    I.PaddingToOneSector(|head|, APP_ALIGN3 - offset);
    var two := BothApps(s0, s1);
    assert two[1..][1..] == [];
    assert I.JoinAll(two).value == ContainerApps(s0).value + ContainerApps(s1).value;
    var e := head + Zeros(I.ComputePadding(|head|, APP_ALIGN3 - offset)) + I.JoinAll(two).value;
    assert Assemble(offset, Success(head), s0, s1).value == e;
    assert e[APP_ALIGN3 - offset..] == I.JoinAll(two).value;
  }

  /** A slice of the left part of a concatenation. */
  lemma SliceLeft(a: bytes, b: bytes, i: nat, j: nat)
    requires i <= j <= |a|
    ensures (a + b)[i..j] == a[i..j]
  {
  }

  /** A slice of the right part of a concatenation. */
  lemma SliceRight(a: bytes, b: bytes, i: nat, j: nat)
    requires i <= j <= |b|
    ensures (a + b)[|a| + i..|a| + j] == b[i..j]
  {
  }

  /** What a suffix holds at `i`, the whole holds at `s + i`. */
  lemma PlacedInSuffix(e: bytes, s: nat, a: bytes, i: nat, size: nat, x: bytes)
    requires s <= |e| && e[s..] == a && i + size <= |a| && a[i..i + size] == x
    ensures s + i + size <= |e| && e[s + i..s + i + size] == x
  {
    assert e[s..][i..i + size] == e[s + i..s + i + size];
  }

  /** Image `j` of container `c` lies in the two containers' APP blobs at its source less 0x1200. */
  lemma {:induction false} LaidOutAppAt(s0: Slots, s1: Slots, c: nat, s: Slots, j: nat)
    requires s0.Fits() && s1.Fits() && LaidOut(s0, s1)
    requires ContainerApps(s0).Success? && ContainerApps(s1).Success?
    requires c < CONTAINERS && s == (if c == 0 then s0 else s1) && j < s.count && (c == 1 ==> s0.count != 0)
    ensures var a := ContainerApps(s0).value + ContainerApps(s1).value;
      var d := s.images[j];
      && s.apps[j].data.Some?
      && 0 <= d.source - APP_ALIGN3 && d.source - APP_ALIGN3 + d.size <= |a|
      && a[d.source - APP_ALIGN3..d.source - APP_ALIGN3 + d.size] == s.apps[j].data.value
  {
    var a0, a1 := ContainerApps(s0).value, ContainerApps(s1).value;
    if c == 0 {
      AppInLeft(s0, j, a1);
    } else {
      ContainerAppsEnd(s0);
      AppInRight(s1, j, a0);
    }
  }

  /** Image `j` of a container whose first image sits at 0x1200, in front of other bytes. */
  lemma {:induction false} AppInLeft(s: Slots, j: nat, rest: bytes)
    requires s.Fits() && Laid(s) && ContainerApps(s).Success? && j < s.count && s.images[0].source == APP_ALIGN3
    ensures var a := ContainerApps(s).value + rest;
      var d := s.images[j];
      && s.apps[j].data.Some?
      && 0 <= d.source - APP_ALIGN3 && d.source - APP_ALIGN3 + d.size <= |a|
      && a[d.source - APP_ALIGN3..d.source - APP_ALIGN3 + d.size] == s.apps[j].data.value
  {
    ContainerAppAt(s, j);
    var d := s.images[j];
    var at := d.source - APP_ALIGN3;
    SliceLeft(ContainerApps(s).value, rest, at, at + d.size);
  }

  /** Image `j` of a container whose first image sits at 0x1200 plus the bytes before it. */
  lemma {:induction false} AppInRight(s: Slots, j: nat, before: bytes)
    requires s.Fits() && Laid(s) && ContainerApps(s).Success? && j < s.count
    requires s.images[0].source == APP_ALIGN3 + |before|
    ensures var a := before + ContainerApps(s).value;
      var d := s.images[j];
      && s.apps[j].data.Some?
      && 0 <= d.source - APP_ALIGN3 && d.source - APP_ALIGN3 + d.size <= |a|
      && a[d.source - APP_ALIGN3..d.source - APP_ALIGN3 + d.size] == s.apps[j].data.value
  {
    ContainerAppAt(s, j);
    var d := s.images[j];
    var at := d.source - s.images[0].source;
    SliceRight(before, ContainerApps(s).value, at, at + d.size);
  }

  /**
   * In the blob `e` that follows a head fitting below `0x1200 - offset` bytes, each
   * image of laid-out containers sits at its source address less the offset.
   */
  lemma {:induction false} ExportPlaces(offset: int, s0: Slots, s1: Slots, head: bytes, e: bytes, c: nat, s: Slots, j: nat)
    requires s0.Fits() && s1.Fits() && LaidOut(s0, s1)
    requires Assemble(offset, Success(head), s0, s1) == Success(e)
    requires 0 < |head| <= APP_ALIGN3 - offset
    requires c < CONTAINERS && s == (if c == 0 then s0 else s1) && j < s.count && (c == 1 ==> s0.count != 0)
    ensures var d := s.images[j];
      && s.apps[j].data.Some?
      && 0 <= d.source - offset && d.source - offset + d.size <= |e|
      && e[d.source - offset..d.source - offset + d.size] == s.apps[j].data.value
  {
    AssembleLayout(offset, head, s0, s1);
    PlacedAfterHead(offset, s0, s1, e, c, s, j);
  }

  /** The same placement, from a blob whose APP part starts at `0x1200 - offset`. */
  lemma {:induction false} PlacedAfterHead(offset: int, s0: Slots, s1: Slots, e: bytes, c: nat, s: Slots, j: nat)
    requires s0.Fits() && s1.Fits() && LaidOut(s0, s1)
    requires ContainerApps(s0).Success? && ContainerApps(s1).Success?
    requires 0 <= APP_ALIGN3 - offset <= |e| && e[APP_ALIGN3 - offset..] == ContainerApps(s0).value + ContainerApps(s1).value
    requires c < CONTAINERS && s == (if c == 0 then s0 else s1) && j < s.count && (c == 1 ==> s0.count != 0)
    ensures var d := s.images[j];
      && s.apps[j].data.Some?
      && 0 <= d.source - offset && d.source - offset + d.size <= |e|
      && e[d.source - offset..d.source - offset + d.size] == s.apps[j].data.value
  {
    LaidOutAppAt(s0, s1, c, s, j);
    var d := s.images[j];
    var a := ContainerApps(s0).value + ContainerApps(s1).value;
    SourceInSuffix(e, offset, a, d.source, d.size, s.apps[j].data.value);
  }

  /** Bytes at `source - 0x1200` of the blob that starts at `0x1200 - offset` of `e` sit at `source - offset` of `e`. */
  lemma {:induction false} SourceInSuffix(e: bytes, offset: int, a: bytes, source: int, size: nat, x: bytes)
    requires 0 <= APP_ALIGN3 - offset <= |e| && e[APP_ALIGN3 - offset..] == a
    requires 0 <= source - APP_ALIGN3 && source - APP_ALIGN3 + size <= |a| && a[source - APP_ALIGN3..source - APP_ALIGN3 + size] == x
    ensures 0 <= source - offset && source - offset + size <= |e| && e[source - offset..source - offset + size] == x
  {
    var base: nat, lo: nat := APP_ALIGN3 - offset, source - APP_ALIGN3;
    PlacedInSuffix(e, base, a, lo, size, x);
    assert base + lo == source - offset;
  }

  // ---------------------------------------------------------------------------
  // BootImg3a: two containers of six image slots each

  const SCFW_FLAGS_APP: int := 0x01355FC4
  const SCFW_FLAGS_M4_0: int := 0x4a5162
  const SCFW_FLAGS_M4_1: int := 0x4f52a3
  const SCFW_FLAGS_SCFW: int := 0x1
  const SCFW_ADDRESS_3A: int := 0x1ffe0000

  /** A container's IVT, boot data table and six APP segments. */
  datatype Container3a = Container3a(ivt: S.IVT3a, bds: S.BDS3a, apps: seq<S.APP>)
  {
    /** The container's image slots. */
    function Images(): Slots
    {
      Slots(bds.images, apps, bds.imagesCount)
    }
  }

  /** Six 3a descriptors, six APPs and an image count that fits them. */
  predicate Sized3a(k: Container3a)
  {
    && |k.bds.images| == S.BDS3A_SLOTS && |k.apps| == S.BDS3A_SLOTS
    && S.SlotsOf(true, k.bds.images, S.BDS3A_SLOTS) && 0 <= k.bds.imagesCount <= S.BDS3A_SLOTS
  }

  /**
   * `BootImg3a._update` for container `c`, given container 0 as already updated:
   * zero IVT and table padding, the head addresses, APP 0 padded, the first image
   * placed and the rest chained; container 1's last APP, slot -1 when it is empty,
   * loses its padding. An address list too short raises IndexError.
   */
  function UpdateContainer3a(c: nat, address: seq<int>, offset: int, dcd: I.Shape, csf: I.Shape,
                             k: Container3a, prev: Container3a): (r: Result<Container3a>)
    requires c < CONTAINERS && Sized3a(k) && Sized3a(prev)
    ensures r.Failure? ==> r.error == IndexErr || r.error == TypeErr
    ensures r.Success? ==> Sized3a(r.value)
  {
    if c >= |address| then Failure(IndexErr)
    else
      var h := HeadOf(c, address[c], offset, S.IVT3A_SIZE, S.BDS3A_SIZE, dcd, csf);
      var count := k.bds.imagesCount;
      var first :- if count != 0 then FirstSource(c, prev.bds.images, prev.apps, prev.bds.imagesCount) else Success(0);
      var seed := Seed(k.bds.images, k.apps, count, first);
      var ch :- ChainOf(seed.images, seed.apps, count);
      ChainStepsSlots(seed.images, seed.apps, if count >= 1 then count - 1 else 0);
      var last := PyIndex(count - 1, S.BDS3A_SLOTS);
      Success(Container3a(
        k.ivt.(padding := 0, ivt := h.ivt, bdt := h.bdt, dcd := h.dcd, csf := h.csf),
        k.bds.(padding := 0, bootDataSize := if count != 0 then S.BDS3A_SIZE else k.bds.bootDataSize, images := ch.images),
        if c == CONTAINERS - 1 then ch.apps[last := ch.apps[last].(padding := 0)] else ch.apps))
  }

  /**
   * What a round of `BootImg3a._update` leaves in container `c` whether or not it
   * raises, as it writes the fields one after the other: the IVT and table padding
   * zeroed before the address list is indexed, then the head addresses, APP 0's
   * padding and, for a counted container, the table size before the first image's
   * source is computed; then the rounds of the image loop that ran, and container 1's
   * last padding cleared only when the loop completed.
   */
  function Round3a(c: nat, address: seq<int>, offset: int, dcd: I.Shape, csf: I.Shape,
                   k: Container3a, prev: Container3a): (r: Container3a)
    requires c < CONTAINERS && Sized3a(k) && Sized3a(prev)
  {
    var iv := k.ivt.(padding := 0);
    var bd := k.bds.(padding := 0);
    if c >= |address| then Container3a(iv, bd, k.apps)
    else
      var h := HeadOf(c, address[c], offset, S.IVT3A_SIZE, S.BDS3A_SIZE, dcd, csf);
      var iv := iv.(ivt := h.ivt, bdt := h.bdt, dcd := h.dcd, csf := h.csf);
      var count := k.bds.imagesCount;
      var bd := if count != 0 then bd.(bootDataSize := S.BDS3A_SIZE) else bd;
      var first := if count != 0 then FirstSource(c, prev.bds.images, prev.apps, prev.bds.imagesCount) else Success(0);
      if first.Failure? then Container3a(iv, bd, Seed(k.bds.images, k.apps, 0, 0).apps)
      else
        var seed := Seed(k.bds.images, k.apps, count, first.value);
        var rounds := if count >= 1 then count - 1 else 0;
        var ch := ChainReached(seed.images, seed.apps, rounds);
        var last := PyIndex(count - 1, S.BDS3A_SLOTS);
        Container3a(iv, bd.(images := ch.images),
                    if c == CONTAINERS - 1 && ChainSteps(seed.images, seed.apps, rounds).Success?
                    then ch.apps[last := ch.apps[last].(padding := 0)] else ch.apps)
  }

  /** A round that completes leaves the container `UpdateContainer3a` describes. */
  lemma {:induction false} Round3aOfSuccess(c: nat, address: seq<int>, offset: int, dcd: I.Shape, csf: I.Shape,
                                            k: Container3a, prev: Container3a)
    requires c < CONTAINERS && Sized3a(k) && Sized3a(prev)
    requires UpdateContainer3a(c, address, offset, dcd, csf, k, prev).Success?
    ensures Round3a(c, address, offset, dcd, csf, k, prev) == UpdateContainer3a(c, address, offset, dcd, csf, k, prev).value
  {
  }

  /**
   * A round that raises has already written part of the container: the IVT and table
   * padding are zero, and only that when the address list raises IndexError; a
   * TypeError on a missing APP comes after the IVT took its head addresses, APP 0 its
   * sector padding and the table its size.
   */
  lemma {:induction false} Round3aRaised(c: nat, address: seq<int>, offset: int, dcd: I.Shape, csf: I.Shape,
                                         k: Container3a, prev: Container3a)
    requires c < CONTAINERS && Sized3a(k) && Sized3a(prev)
    requires UpdateContainer3a(c, address, offset, dcd, csf, k, prev).Failure?
    ensures var r := Round3a(c, address, offset, dcd, csf, k, prev);
      && r.ivt.padding == 0 && r.bds.padding == 0 && r.bds.imagesCount == k.bds.imagesCount
      && (UpdateContainer3a(c, address, offset, dcd, csf, k, prev).error == IndexErr <==> c >= |address|)
      && (c >= |address| ==> r == Container3a(k.ivt.(padding := 0), k.bds.(padding := 0), k.apps))
      && (c < |address| ==>
            var h := HeadOf(c, address[c], offset, S.IVT3A_SIZE, S.BDS3A_SIZE, dcd, csf);
            && (r.ivt.ivt, r.ivt.bdt, r.ivt.dcd, r.ivt.csf) == (h.ivt, h.bdt, h.dcd, h.csf)
            && r.apps[0] == k.apps[0].(padding := I.ComputePadding(k.bds.images[0].size, SECTOR_SIZE))
            && r.bds.bootDataSize == S.BDS3A_SIZE && 1 <= k.bds.imagesCount)
  {
    if c < |address| {
      var count := k.bds.imagesCount;
      var first := if count != 0 then FirstSource(c, prev.bds.images, prev.apps, prev.bds.imagesCount) else Success(0);
      if first.Success? {
        var seed := Seed(k.bds.images, k.apps, count, first.value);
        var rounds := if count >= 1 then count - 1 else 0;
        var i := ChainReachedAt(seed.images, seed.apps, rounds);
        ChainStepsChained(seed.images, seed.apps, i);
      }
    }
  }

  /** Whatever a round leaves keeps six slots of the 3a layout, and the counted slots' data as long as their descriptors. */
  lemma {:induction false} Round3aSized(c: nat, address: seq<int>, offset: int, dcd: I.Shape, csf: I.Shape,
                                        k: Container3a, prev: Container3a)
    requires c < CONTAINERS && Sized3a(k) && Sized3a(prev)
    requires SizesMatch(k.bds.images, k.apps, k.bds.imagesCount)
    ensures var r := Round3a(c, address, offset, dcd, csf, k, prev);
      Sized3a(r) && r.bds.imagesCount == k.bds.imagesCount && SizesMatch(r.bds.images, r.apps, r.bds.imagesCount)
  {
    var count := k.bds.imagesCount;
    if c < |address| {
      var first := if count != 0 then FirstSource(c, prev.bds.images, prev.apps, prev.bds.imagesCount) else Success(0);
      if first.Success? {
        ChainedRoundSized(k, Seed(k.bds.images, k.apps, count, first.value), if count >= 1 then count - 1 else 0);
      }
    }
  }

  /** The chain a round reaches from its seed keeps the slots' kinds, the descriptors' sizes and the APPs' data. */
  lemma {:induction false} ChainedRoundSized(k: Container3a, seed: Chain, rounds: nat)
    requires Sized3a(k) && rounds < S.BDS3A_SLOTS
    requires |seed.images| == |seed.apps| == S.BDS3A_SLOTS
    requires forall j :: 0 <= j < S.BDS3A_SLOTS ==>
      && seed.images[j].IDS3a? == k.bds.images[j].IDS3a?
      && seed.images[j].size == k.bds.images[j].size && seed.apps[j].data == k.apps[j].data
    ensures var ch := ChainReached(seed.images, seed.apps, rounds);
      && S.SlotsOf(true, ch.images, S.BDS3A_SLOTS)
      && forall j :: 0 <= j < |ch.images| ==> ch.images[j].size == k.bds.images[j].size && ch.apps[j].data == k.apps[j].data
  {
    var i := ChainReachedAt(seed.images, seed.apps, rounds);
    ChainStepsChained(seed.images, seed.apps, i);
    ChainStepsSlots(seed.images, seed.apps, i);
  }


  /** `BootImg3a._update`: container 0, then container 1 after it. */
  function Update3a(address: seq<int>, offset: int, dcd: I.Shape, csf: I.Shape, ks: seq<Container3a>): (r: Result<seq<Container3a>>)
    requires |ks| == CONTAINERS && Sized3a(ks[0]) && Sized3a(ks[1])
    ensures r.Success? ==> |r.value| == CONTAINERS && Sized3a(r.value[0]) && Sized3a(r.value[1])
  {
    var k0 :- UpdateContainer3a(0, address, offset, dcd, csf, ks[0], ks[0]);
    var k1 :- UpdateContainer3a(1, address, offset, dcd, csf, ks[1], k0);
    Success([k0, k1])
  }

  /** The counted slots' data are as long as their descriptors say, as `add_image` writes them. */
  predicate SizesMatch(images: seq<S.IDS>, apps: seq<S.APP>, count: int)
    requires count <= |images| == |apps|
  {
    forall j :: 0 <= j < count && apps[j].data.Some? ==> |apps[j].data.value| == images[j].size
  }

  /**
   * What the container update promises: the first image at `FirstSource`, each later
   * image right after the previous one's data and padding, every counted APP padded
   * to the sector size but container 1's last, which is not padded, and the
   * descriptors' other fields kept.
   */
  lemma {:induction false} UpdateContainer3aChains(c: nat, address: seq<int>, offset: int, dcd: I.Shape, csf: I.Shape,
                                                   k: Container3a, prev: Container3a)
    requires c < CONTAINERS && Sized3a(k) && Sized3a(prev)
    requires UpdateContainer3a(c, address, offset, dcd, csf, k, prev).Success?
    ensures var r := UpdateContainer3a(c, address, offset, dcd, csf, k, prev).value;
      var n := k.bds.imagesCount;
      && (n != 0 ==> FirstSource(c, prev.bds.images, prev.apps, prev.bds.imagesCount).Success?
                     && r.bds.images[0].source == FirstSource(c, prev.bds.images, prev.apps, prev.bds.imagesCount).value)
      && (forall j :: 0 <= j < n - 1 ==>
            k.apps[j].data.Some? && r.bds.images[j + 1].source == r.bds.images[j].source + |k.apps[j].data.value| + r.apps[j].padding)
      && (forall j :: 0 <= j < n ==> r.bds.images[j] == k.bds.images[j].(source := r.bds.images[j].source))
      && (forall j :: 0 <= j < n ==>
            r.apps[j] == k.apps[j].(padding := if c == 1 && j == n - 1 then 0 else I.ComputePadding(k.bds.images[j].size, SECTOR_SIZE)))
  {
    var n := k.bds.imagesCount;
    var first := if n != 0 then FirstSource(c, prev.bds.images, prev.apps, prev.bds.imagesCount).value else 0;
    var seed := Seed(k.bds.images, k.apps, n, first);
    ChainOfChained(seed.images, seed.apps, n);
    var ch := ChainOf(seed.images, seed.apps, n).value;
    var r := UpdateContainer3a(c, address, offset, dcd, csf, k, prev).value;
    forall j | 0 <= j < n - 1
      ensures k.apps[j].data.Some? && r.bds.images[j + 1].source == r.bds.images[j].source + |k.apps[j].data.value| + r.apps[j].padding
    {
      assert seed.apps[j].data == k.apps[j].data;
      assert r.apps[j] == ch.apps[j];
    }
  }

  /** The container update keeps the image count, and sizes that match their data still match. */
  lemma {:induction false} UpdateContainer3aSizes(c: nat, address: seq<int>, offset: int, dcd: I.Shape, csf: I.Shape,
                                                  k: Container3a, prev: Container3a, r: Container3a)
    requires c < CONTAINERS && Sized3a(k) && Sized3a(prev)
    requires UpdateContainer3a(c, address, offset, dcd, csf, k, prev) == Success(r)
    requires SizesMatch(k.bds.images, k.apps, k.bds.imagesCount)
    ensures r.bds.imagesCount == k.bds.imagesCount
    ensures SizesMatch(r.bds.images, r.apps, r.bds.imagesCount)
  {
    UpdateContainer3aChains(c, address, offset, dcd, csf, k, prev);
  }

  /** With sizes that match their data and a sector-aligned first image, every image of the container starts on a sector. */
  lemma {:induction false} UpdateContainer3aAligned(c: nat, address: seq<int>, offset: int, dcd: I.Shape, csf: I.Shape,
                                                    k: Container3a, prev: Container3a)
    requires c < CONTAINERS && Sized3a(k) && Sized3a(prev)
    requires UpdateContainer3a(c, address, offset, dcd, csf, k, prev).Success?
    requires SizesMatch(k.bds.images, k.apps, k.bds.imagesCount)
    requires k.bds.imagesCount != 0 ==> FirstSource(c, prev.bds.images, prev.apps, prev.bds.imagesCount).value % SECTOR_SIZE == 0
    ensures var r := UpdateContainer3a(c, address, offset, dcd, csf, k, prev).value;
      forall j :: 0 <= j < k.bds.imagesCount ==> r.bds.images[j].source % SECTOR_SIZE == 0
  {
    var n := k.bds.imagesCount;
    if n != 0 {
      var first := FirstSource(c, prev.bds.images, prev.apps, prev.bds.imagesCount).value;
      var seed := Seed(k.bds.images, k.apps, n, first);
      ChainOfChained(seed.images, seed.apps, n);
      var ch := ChainOf(seed.images, seed.apps, n).value;
      forall j | 0 <= j < n
        ensures ch.images[j].source % SECTOR_SIZE == 0
      {
        ChainAligned(seed.images, seed.apps, n, ch, j);
      }
    }
  }

  /**
   * After `BootImg3a._update`, container 0's images start at 0x1200 and container 1's
   * first right after container 0's last; with data as long as the descriptors, every
   * image of container 0, and of container 1 too when container 0 holds an image,
   * starts on a 0x200-byte sector.
   */
  lemma {:induction false} Update3aAligned(address: seq<int>, offset: int, dcd: I.Shape, csf: I.Shape, ks: seq<Container3a>)
    requires |ks| == CONTAINERS && Sized3a(ks[0]) && Sized3a(ks[1])
    requires Update3a(address, offset, dcd, csf, ks).Success?
    requires SizesMatch(ks[0].bds.images, ks[0].apps, ks[0].bds.imagesCount)
    requires SizesMatch(ks[1].bds.images, ks[1].apps, ks[1].bds.imagesCount)
    ensures var r := Update3a(address, offset, dcd, csf, ks).value;
      var n0 := ks[0].bds.imagesCount;
      && (n0 != 0 ==> r[0].bds.images[0].source == APP_ALIGN3)
      && (n0 != 0 && ks[1].bds.imagesCount != 0 ==>
            r[0].apps[n0 - 1].data.Some?
            && r[1].bds.images[0].source == r[0].bds.images[n0 - 1].source + |r[0].apps[n0 - 1].data.value| + r[0].apps[n0 - 1].padding)
      && (forall j :: 0 <= j < n0 ==> r[0].bds.images[j].source % SECTOR_SIZE == 0)
      && (n0 != 0 ==> forall j :: 0 <= j < ks[1].bds.imagesCount ==> r[1].bds.images[j].source % SECTOR_SIZE == 0)
  {
    var k0 := UpdateContainer3a(0, address, offset, dcd, csf, ks[0], ks[0]).value;
    var k1 := UpdateContainer3a(1, address, offset, dcd, csf, ks[1], k0).value;
    assert Update3a(address, offset, dcd, csf, ks).value == [k0, k1];
    FirstContainerAligned(address, offset, dcd, csf, ks[0]);
    if ks[0].bds.imagesCount != 0 {
      SecondContainerAligned(address, offset, dcd, csf, ks[0], ks[1]);
    }
  }

  /** Container 0's images start at 0x1200, each on a sector. */
  lemma {:induction false} FirstContainerAligned(address: seq<int>, offset: int, dcd: I.Shape, csf: I.Shape, k: Container3a)
    requires Sized3a(k) && UpdateContainer3a(0, address, offset, dcd, csf, k, k).Success?
    requires SizesMatch(k.bds.images, k.apps, k.bds.imagesCount)
    ensures var r := UpdateContainer3a(0, address, offset, dcd, csf, k, k).value;
      var n := k.bds.imagesCount;
      && (n != 0 ==> r.bds.images[0].source == APP_ALIGN3)
      && (forall j :: 0 <= j < n ==> r.bds.images[j].source % SECTOR_SIZE == 0)
  {
    UpdateContainer3aChains(0, address, offset, dcd, csf, k, k);
    UpdateContainer3aAligned(0, address, offset, dcd, csf, k, k);
  }

  /**
   * Container 1's images, after a container 0 that holds some, start right after
   * container 0's last padded image, each on a sector.
   */
  lemma {:induction false} SecondContainerAligned(address: seq<int>, offset: int, dcd: I.Shape, csf: I.Shape, k: Container3a, l: Container3a)
    requires Sized3a(k) && Sized3a(l) && k.bds.imagesCount != 0
    requires UpdateContainer3a(0, address, offset, dcd, csf, k, k).Success?
    requires UpdateContainer3a(1, address, offset, dcd, csf, l, UpdateContainer3a(0, address, offset, dcd, csf, k, k).value).Success?
    requires SizesMatch(k.bds.images, k.apps, k.bds.imagesCount) && SizesMatch(l.bds.images, l.apps, l.bds.imagesCount)
    ensures var r0 := UpdateContainer3a(0, address, offset, dcd, csf, k, k).value;
      var r1 := UpdateContainer3a(1, address, offset, dcd, csf, l, r0).value;
      var n0 := k.bds.imagesCount;
      && (l.bds.imagesCount != 0 ==>
            r0.apps[n0 - 1].data.Some?
            && r1.bds.images[0].source == r0.bds.images[n0 - 1].source + |r0.apps[n0 - 1].data.value| + r0.apps[n0 - 1].padding)
      && (forall j :: 0 <= j < l.bds.imagesCount ==> r1.bds.images[j].source % SECTOR_SIZE == 0)
  {
    var k0 := UpdateContainer3a(0, address, offset, dcd, csf, k, k).value;
    var n0 := k.bds.imagesCount;
    UpdateContainer3aChains(0, address, offset, dcd, csf, k, k);
    UpdateContainer3aAligned(0, address, offset, dcd, csf, k, k);
    UpdateContainer3aChains(1, address, offset, dcd, csf, l, k0);
    if l.bds.imagesCount != 0 {
      var last := n0 - 1;
      var img := k0.bds.images[last];
      assert img.size == k.bds.images[last].size;
      assert k0.apps[last].padding == I.ComputePadding(img.size, SECTOR_SIZE);
      assert img.source % SECTOR_SIZE == 0;
      var fs := FirstSource(1, k0.bds.images, k0.apps, n0);
      assert fs.Success? && fs.value == img.source + img.size + k0.apps[last].padding;
      PaddedEndAligned(img.source, img.size, k0.apps[last].padding);
      UpdateContainer3aAligned(1, address, offset, dcd, csf, l, k0);
    }
  }

  /** An aligned start plus a size padded to the sector size ends on a sector. */
  lemma {:induction false} PaddedEndAligned(start: int, size: int, pad: int)
    requires start % SECTOR_SIZE == 0 && pad == I.ComputePadding(size, SECTOR_SIZE)
    ensures (start + size + pad) % SECTOR_SIZE == 0
  {
    var a := start / SECTOR_SIZE;
    var b := (size + pad) / SECTOR_SIZE;
    assert start == SECTOR_SIZE * a;
    assert size + pad == SECTOR_SIZE * b;
    assert start + size + pad == SECTOR_SIZE * (a + b);
    I.MultipleMod(SECTOR_SIZE, a + b);
  }

  /**
   * Filling the next free slot of a container, as each branch of `add_image` does:
   * the descriptor's destination, entry and size and flags, the APP's data padded
   * to the sector size, and the count up by one; a full table raises IndexError
   * before anything changes.
   */
  function Place3a(k: Container3a, data: bytes, dest: int, entry: int, hab: int, scfw: int): (r: Result<Container3a>)
    requires Sized3a(k)
    ensures r.Success? <==> k.bds.imagesCount < S.BDS3A_SLOTS
    ensures r.Failure? ==> r.error == IndexErr
    ensures r.Success? ==> Sized3a(r.value)
  {
    var n := k.bds.imagesCount;
    if n >= S.BDS3A_SLOTS then Failure(IndexErr)
    else
      var d := k.bds.images[n].(destination := dest, entry := entry, size := |data|, romFlags := 0, habFlags := hab, scfwFlags := scfw);
      Success(Container3a(k.ivt, k.bds.(imagesCount := n + 1, images := k.bds.images[n := d]),
                          k.apps[n := S.APP(Some(data), I.ComputePadding(|data|, SECTOR_SIZE))]))
  }

  /**
   * A placed image is counted, its descriptor records its data's size, its APP is
   * padded to the next sector, and the slots already counted keep data as long as
   * their sizes.
   */
  lemma {:induction false} Place3aRecords(k: Container3a, data: bytes, dest: int, entry: int, hab: int, scfw: int)
    requires Sized3a(k) && SizesMatch(k.bds.images, k.apps, k.bds.imagesCount)
    requires Place3a(k, data, dest, entry, hab, scfw).Success?
    ensures var r := Place3a(k, data, dest, entry, hab, scfw).value;
      var n := k.bds.imagesCount;
      && r.bds.imagesCount == n + 1
      && r.bds.images[n].destination == dest && r.bds.images[n].entry == entry && r.bds.images[n].size == |data|
      && r.apps[n].data == Some(data) && (|data| + r.apps[n].padding) % SECTOR_SIZE == 0
      && (forall j :: 0 <= j < S.BDS3A_SLOTS && j != n ==> r.bds.images[j] == k.bds.images[j] && r.apps[j] == k.apps[j])
      && SizesMatch(r.bds.images, r.apps, r.bds.imagesCount)
  {
  }

  /**
   * `BootImg3a.add_image(data, img_type, address)` on both containers and the SCD
   * address: an A35 image goes to container 1, M4 cores, SCFW and SCD to container 0;
   * the SCFW goes to 0x1ffe0000 and fixes the SCD address at its end, rounded up to 16
   * bytes; an SCD before any SCFW, or an unknown type, raises.
   */
  function AddImage3a(ks: seq<Container3a>, sdc: int, data: bytes, imgType: int, address: int): (r: Result<(seq<Container3a>, int)>)
    requires |ks| == CONTAINERS && Sized3a(ks[0]) && Sized3a(ks[1])
    ensures r.Success? ==> |r.value.0| == CONTAINERS && Sized3a(r.value.0[0]) && Sized3a(r.value.0[1])
  {
    if imgType == I.IMG_APP then
      var k :- Place3a(ks[1], data, address, address, IMG_TYPE_EXEC, SCFW_FLAGS_APP);
      Success(([ks[0], k], sdc))
    else if imgType == I.IMG_M4_0 || imgType == I.IMG_M4_1 then
      var k :- Place3a(ks[0], data, address, address, IMG_TYPE_EXEC,
                       if imgType == I.IMG_M4_0 then SCFW_FLAGS_M4_0 else SCFW_FLAGS_M4_1);
      Success(([k, ks[1]], sdc))
    else if imgType == I.IMG_SCFW then
      var k :- Place3a(ks[0], data, SCFW_ADDRESS_3A, SCFW_ADDRESS_3A, IMG_TYPE_EXEC, SCFW_FLAGS_SCFW);
      Success(([k, ks[1]], SCFW_ADDRESS_3A + |data| + I.ComputePadding(|data|, IMG_AUTO_ALIGN)))
    else if imgType == I.IMG_SCD then
      if sdc == 0 then Failure(Raised("SCFW have to be define before SCD !"))
      else
        var k :- Place3a(ks[0], data, sdc, 0, IMG_TYPE_SCD, 1);
        Success(([k, ks[1]], sdc))
    else Failure(Raised("Unknown data type !"))
  }

  /** The container `add_image` puts an image of this type in, if any. */
  function Target3a(imgType: int): Option<nat>
  {
    if imgType == I.IMG_APP then Some(1)
    else if imgType in {I.IMG_M4_0, I.IMG_M4_1, I.IMG_SCFW, I.IMG_SCD} then Some(0)
    else None
  }

  /**
   * An added image lands in the next free slot of its type's container, destined
   * where its type says, with the data it was given; the other container and the
   * already counted images are untouched; a full container raises IndexError and an
   * unknown type raises.
   */
  lemma {:induction false} AddImage3aPlaces(ks: seq<Container3a>, sdc: int, data: bytes, imgType: int, address: int)
    requires |ks| == CONTAINERS && Sized3a(ks[0]) && Sized3a(ks[1])
    requires SizesMatch(ks[0].bds.images, ks[0].apps, ks[0].bds.imagesCount)
    requires SizesMatch(ks[1].bds.images, ks[1].apps, ks[1].bds.imagesCount)
    ensures var r := AddImage3a(ks, sdc, data, imgType, address);
      && (Target3a(imgType).None? ==> r == Failure(Raised("Unknown data type !")))
      && (Target3a(imgType).Some? && ks[Target3a(imgType).value].bds.imagesCount == S.BDS3A_SLOTS && !(imgType == I.IMG_SCD && sdc == 0)
          ==> r == Failure(IndexErr))
      && (r.Success? ==>
            var c := Target3a(imgType).value;
            var n := ks[c].bds.imagesCount;
            var k := r.value.0[c];
            && r.value.0[1 - c] == ks[1 - c]
            && k.bds.imagesCount == n + 1 && k.bds.images[n].size == |data|
            && k.apps[n].data == Some(data) && (|data| + k.apps[n].padding) % SECTOR_SIZE == 0
            && k.bds.images[n].destination == (if imgType == I.IMG_SCFW then SCFW_ADDRESS_3A else if imgType == I.IMG_SCD then sdc else address)
            && (forall j :: 0 <= j < n ==> k.bds.images[j] == ks[c].bds.images[j] && k.apps[j] == ks[c].apps[j])
            && SizesMatch(k.bds.images, k.apps, k.bds.imagesCount)
            && SizesMatch(r.value.0[1 - c].bds.images, r.value.0[1 - c].apps, r.value.0[1 - c].bds.imagesCount))
  {
    var r := AddImage3a(ks, sdc, data, imgType, address);
    if r.Success? {
      var c := Target3a(imgType).value;
      var hab := if imgType == I.IMG_SCD then IMG_TYPE_SCD else IMG_TYPE_EXEC;
      var dest := if imgType == I.IMG_SCFW then SCFW_ADDRESS_3A else if imgType == I.IMG_SCD then sdc else address;
      var entry := if imgType == I.IMG_SCFW then SCFW_ADDRESS_3A else if imgType == I.IMG_SCD then 0 else address;
      var flags := if imgType == I.IMG_APP then SCFW_FLAGS_APP else if imgType == I.IMG_M4_0 then SCFW_FLAGS_M4_0
                   else if imgType == I.IMG_M4_1 then SCFW_FLAGS_M4_1 else 1;
      assert r.value.0[c] == Place3a(ks[c], data, dest, entry, hab, flags).value;
      Place3aRecords(ks[c], data, dest, entry, hab, flags);
    }
  }

  /**
   * An SCD added after an SCFW is destined to the first 16-byte boundary at or past
   * the SCFW's end, so the two never overlap in target memory.
   */
  lemma {:induction false} ScdFollowsScfw(ks: seq<Container3a>, sdc: int, scfw: bytes, scd: bytes, address: int)
    requires |ks| == CONTAINERS && Sized3a(ks[0]) && Sized3a(ks[1])
    requires AddImage3a(ks, sdc, scfw, I.IMG_SCFW, address).Success?
    ensures var r1 := AddImage3a(ks, sdc, scfw, I.IMG_SCFW, address).value;
      var r2 := AddImage3a(r1.0, r1.1, scd, I.IMG_SCD, address);
      && r1.1 % IMG_AUTO_ALIGN == 0 && SCFW_ADDRESS_3A + |scfw| <= r1.1 < SCFW_ADDRESS_3A + |scfw| + IMG_AUTO_ALIGN
      && (r2.Success? ==> r2.value.0[0].bds.images[ks[0].bds.imagesCount + 1].destination == r1.1)
  {
    var r1 := AddImage3a(ks, sdc, scfw, I.IMG_SCFW, address).value;
    var t := |scfw| + I.ComputePadding(|scfw|, IMG_AUTO_ALIGN);
    assert t % IMG_AUTO_ALIGN == 0;
    assert t == IMG_AUTO_ALIGN * (t / IMG_AUTO_ALIGN);
    assert r1.1 == IMG_AUTO_ALIGN * (0x1ffe000 + t / IMG_AUTO_ALIGN);
    I.MultipleMod(IMG_AUTO_ALIGN, 0x1ffe000 + t / IMG_AUTO_ALIGN);
    assert r1.0[0].bds.imagesCount == ks[0].bds.imagesCount + 1;
  }

  // ---------------------------------------------------------------------------
  // BootImg3a.export

  /** The head `export` writes before the zero fill: both IVTs, both tables, the DCD and the CSF. */
  function HeadParts3a(ks: seq<Container3a>, dcdBytes: Result<bytes>, csfBytes: Result<bytes>): (r: seq<Result<bytes>>)
    requires |ks| == CONTAINERS
    ensures |r| == 6
  {
    [S.ExportIVT3a(ks[0].ivt, true), S.ExportIVT3a(ks[1].ivt, true),
     S.ExportBDS3a(ks[0].bds, true), S.ExportBDS3a(ks[1].bds, true), dcdBytes, csfBytes]
  }

  /** Unpadded IVTs and tables make a head of 2 * 48 + 2 * 256 bytes and the DCD and CSF blobs. */
  lemma {:induction false} HeadLength3a(ks: seq<Container3a>, dcdBytes: Result<bytes>, csfBytes: Result<bytes>)
    requires |ks| == CONTAINERS && Sized3a(ks[0]) && Sized3a(ks[1])
    requires I.JoinAll(HeadParts3a(ks, dcdBytes, csfBytes)).Success?
    requires ks[0].ivt.padding == 0 && ks[1].ivt.padding == 0 && ks[0].bds.padding == 0 && ks[1].bds.padding == 0
    ensures dcdBytes.Success? && csfBytes.Success?
    ensures |I.JoinAll(HeadParts3a(ks, dcdBytes, csfBytes)).value| ==
      2 * S.IVT3A_SIZE + 2 * S.BDS3A_SIZE + |dcdBytes.value| + |csfBytes.value|
  {
    var parts := HeadParts3a(ks, dcdBytes, csfBytes);
    assert parts[0] == S.ExportIVT3a(ks[0].ivt, true) && parts[4] == dcdBytes && parts[5] == csfBytes;
    I.TotalLengthSplit(parts[1..]);
    assert I.TotalLength(parts) == |parts[0].value| + I.TotalLength(parts[1..]);
  }

  /**
   * `BootImg3a.export` after `_update`: both IVTs and both tables with their padding,
   * the DCD and CSF blobs, then the zero fill and the APPs.
   */
  function ExportImage3a(offset: int, ks: seq<Container3a>, dcdBytes: Result<bytes>, csfBytes: Result<bytes>): Result<bytes>
    requires |ks| == CONTAINERS && Sized3a(ks[0]) && Sized3a(ks[1])
  {
    Assemble(offset, I.JoinAll(HeadParts3a(ks, dcdBytes, csfBytes)), ks[0].Images(), ks[1].Images())
  }

  /** After `_update`, both containers are laid out and the IVTs and tables carry no padding. */
  lemma {:induction false} Update3aLaid(address: seq<int>, offset: int, dcd: I.Shape, csf: I.Shape, ks: seq<Container3a>)
    requires |ks| == CONTAINERS && Sized3a(ks[0]) && Sized3a(ks[1])
    requires SizesMatch(ks[0].bds.images, ks[0].apps, ks[0].bds.imagesCount)
    requires SizesMatch(ks[1].bds.images, ks[1].apps, ks[1].bds.imagesCount)
    requires Update3a(address, offset, dcd, csf, ks).Success?
    ensures var r := Update3a(address, offset, dcd, csf, ks).value;
      && Laid(r[0].Images()) && Laid(r[1].Images())
      && r[0].ivt.padding == 0 && r[1].ivt.padding == 0 && r[0].bds.padding == 0 && r[1].bds.padding == 0
      && r[0].bds.imagesCount == ks[0].bds.imagesCount && r[1].bds.imagesCount == ks[1].bds.imagesCount
  {
    var k0 := UpdateContainer3a(0, address, offset, dcd, csf, ks[0], ks[0]).value;
    UpdateContainer3aChains(0, address, offset, dcd, csf, ks[0], ks[0]);
    UpdateContainer3aChains(1, address, offset, dcd, csf, ks[1], k0);
  }

  /** Two containers as `_update` leaves them: laid out one after the other, no IVT or table padding. */
  predicate LaidOut3a(r: seq<Container3a>)
    requires |r| == CONTAINERS && Sized3a(r[0]) && Sized3a(r[1])
  {
    && LaidOut(r[0].Images(), r[1].Images())
    && r[0].ivt.padding == 0 && r[1].ivt.padding == 0 && r[0].bds.padding == 0 && r[1].bds.padding == 0
  }

  /** `_update` lays out the containers of an image whose slots hold data as long as their descriptors. */
  lemma {:induction false} Update3aLaidOut(address: seq<int>, offset: int, dcd: I.Shape, csf: I.Shape, ks: seq<Container3a>)
    requires |ks| == CONTAINERS && Sized3a(ks[0]) && Sized3a(ks[1])
    requires SizesMatch(ks[0].bds.images, ks[0].apps, ks[0].bds.imagesCount)
    requires SizesMatch(ks[1].bds.images, ks[1].apps, ks[1].bds.imagesCount)
    requires Update3a(address, offset, dcd, csf, ks).Success?
    ensures var r := Update3a(address, offset, dcd, csf, ks).value;
      LaidOut3a(r) && r[0].bds.imagesCount == ks[0].bds.imagesCount && r[1].bds.imagesCount == ks[1].bds.imagesCount
  {
    Update3aLaid(address, offset, dcd, csf, ks);
    Update3aAligned(address, offset, dcd, csf, ks);
  }

  /**
   * The body of one round of `BootImg3a._update`'s container loop, on container `c`
   * and container 0 as it stands: zero padding, the head addresses, APP 0's padding,
   * the first image's source, the image loop and, in container 1, the last APP's
   * padding cleared; `after` is the container as the round left it, raising or not.
   */
  method LayOutContainer3a(c: nat, address: seq<int>, offset: int, dcd0: I.Shape, csf0: I.Shape,
                           k: Container3a, prev: Container3a) returns (r: Result<Container3a>, after: Container3a)
    requires c < CONTAINERS && Sized3a(k) && Sized3a(prev)
    ensures r == UpdateContainer3a(c, address, offset, dcd0, csf0, k, prev)
    ensures after == Round3a(c, address, offset, dcd0, csf0, k, prev)
  {
    var iv := k.ivt.(padding := 0);
    var bd := k.bds.(padding := 0);
    if c >= |address| {
      return Failure(IndexErr), Container3a(iv, bd, k.apps);
    }
    var h := HeadOf(c, address[c], offset, S.IVT3A_SIZE, S.BDS3A_SIZE, dcd0, csf0);
    iv := iv.(ivt := h.ivt, bdt := h.bdt, dcd := h.dcd, csf := h.csf);
    var ap := k.apps[0 := k.apps[0].(padding := I.ComputePadding(k.bds.images[0].size, SECTOR_SIZE))];
    var count := bd.imagesCount;
    var first := 0;
    if count != 0 {
      bd := bd.(bootDataSize := S.BDS3A_SIZE);
      if c == 0 {
        first := APP_ALIGN3;
      } else {
        var last := PyIndex(prev.bds.imagesCount - 1, S.BDS3A_SLOTS);
        var space := AppSpace(prev.apps[last]);
        if space.Failure? {
          return Failure(TypeErr), Container3a(iv, bd, ap);
        }
        first := prev.bds.images[last].source + space.value;
      }
    }
    var seed := Seed(k.bds.images, k.apps, count, first);
    var ch, reached := ChainImages(seed.images, seed.apps, count);
    bd := bd.(images := reached.images);
    ap := reached.apps;
    assert count != 0 ==> FirstSource(c, prev.bds.images, prev.apps, prev.bds.imagesCount) == Success(first);
    if ch.Failure? {
      return Failure(TypeErr), Container3a(iv, bd, ap);
    }
    if c == CONTAINERS - 1 {
      var last := PyIndex(count - 1, S.BDS3A_SLOTS);
      ap := ap[last := ap[last].(padding := 0)];
    }
    assert UpdateContainer3a(c, address, offset, dcd0, csf0, k, prev) == Success(Container3a(iv, bd, ap)) by {
      assert ChainOf(seed.images, seed.apps, count) == ch;
    }
    return Success(Container3a(iv, bd, ap)), Container3a(iv, bd, ap);
  }

  // ---------------------------------------------------------------------------
  // BootImg3a.parse

  /** `buffer.seek(position, 0)`: a negative position raises ValueError. */
  function SeekTo(position: int): (r: Result<nat>)
    ensures r.Success? <==> position >= 0
    ensures r.Success? ==> r.value == position
    ensures r.Failure? ==> r.error == ValueErr
  {
    if position < 0 then Failure(ValueErr) else Success(position)
  }

  /** Where `parse` seeks for an image: its source less the image's own offset, from the IVT the probe found at `p`. */
  function ImageStart(p: int, d: S.IDS): int
  {
    d.source - DEFAULT_OFFSET + p
  }

  /** The read of an image succeeds: the seek is not negative and the data, unless empty, lies inside the buffer. */
  predicate Readable(data: bytes, p: int, d: S.IDS)
  {
    var start := ImageStart(p, d);
    0 <= start && 0 <= d.size && (d.size == 0 || start + d.size <= |data|)
  }

  /**
   * `for i in range(images_count)`: seek to each image's start and read `image_size`
   * bytes, in slot order; the first read that raises stops the loop.
   */
  function ReadImages(data: bytes, p: int, images: seq<S.IDS>, n: nat): (r: Result<seq<bytes>>)
    requires n <= |images|
    ensures r.Success? <==> forall j :: 0 <= j < n ==> Readable(data, p, images[j])
    ensures r.Failure? ==> r.error == ValueErr || r.error == Raised("Could not read enough bytes")
    ensures r.Success? ==> |r.value| == n
    ensures r.Success? ==> forall j :: 0 <= j < n ==>
      |r.value[j]| == images[j].size
      && (0 < images[j].size ==> ImageStart(p, images[j]) + images[j].size <= |data|
                                 && r.value[j] == data[ImageStart(p, images[j])..ImageStart(p, images[j]) + images[j].size])
  {
    if n == 0 then Success([])
    else
      var prev :- ReadImages(data, p, images, n - 1);
      var d := images[n - 1];
      var at :- SeekTo(ImageStart(p, d));
      var got :- M.ReadAt(data, at, d.size, None).0;
      Success(prev + [got])
  }

  /** Once an image read fails, reading more slots fails the same way. */
  lemma {:induction false} ReadImagesFailFrom(data: bytes, p: int, images: seq<S.IDS>, k: nat, n: nat)
    requires k <= n <= |images| && ReadImages(data, p, images, k).Failure?
    ensures ReadImages(data, p, images, n) == ReadImages(data, p, images, k)
    decreases n - k
  {
    if k < n {
      ReadImagesFailFrom(data, p, images, k + 1, n);
    }
  }

  /** What `BootImg3a.parse` reads: both IVTs and tables, the DCD and CSF segments when IVT 0 points to them, and every counted image. */
  datatype Read3a = Read3a(ivt: seq<S.IVT3a>, bds: seq<S.BDS3a>, dcd: Option<bytes>, csf: Option<bytes>, apps: seq<seq<bytes>>)

  /**
   * `read_raw_segment` of the segment with `tag` at `p + (address - ivt)`, when
   * `address` is set, and the segment's parse, which raises before anything else is
   * read.
   */
  function ReadPointed(data: bytes, p: int, ivt: int, address: int, tag: byte, kinds: seq<ImgCommands.Kind>): (r: Result<Option<bytes>>)
    ensures address == 0 ==> r == Success(None)
    ensures r.Success? && address != 0 ==> r.value.Some?
    ensures r.Success? && r.value.Some? ==>
      var start := p + (address - ivt);
      && 0 <= start && start + |r.value.value| <= |data| && r.value.value == data[start..start + |r.value.value|]
      && CS.ParseSegment(tag, kinds, r.value.value, 0).Success?
  {
    if address == 0 then Success(None)
    else
      var at :- SeekTo(p + (address - ivt));
      var seg :- M.SegmentAt(data, at, tag, None).0;
      var _ :- CS.ParseSegment(tag, kinds, seg, 0);
      Success(Some(seg))
  }

  /** The two IVT segments at the probe's position `p`, parsed, and the position after them. */
  function ReadIvts3a(data: bytes, p: nat): (r: Result<(seq<S.IVT3a>, nat)>)
    requires p + H.SIZE < |data| && I.Accepts(I.V3a, I.HeaderAt(data, p))
    ensures r.Success? ==>
      && |r.value.0| == CONTAINERS && p + S.IVT3A_SIZE <= |data|
      && S.ParseIVT3a(data[p..p + S.IVT3A_SIZE]) == Success(r.value.0[0])
  {
    var i0 := M.SegmentAt(data, p, H.TAG_IVT3, None);
    var b0 :- i0.0;
    IvtRead3a(data, p, i0.1, b0);
    var ivt0 :- S.ParseIVT3a(b0);
    var i1 := M.SegmentAt(data, i0.1, H.TAG_IVT3, None);
    var b1 :- i1.0;
    var ivt1 :- S.ParseIVT3a(b1);
    Success(([ivt0, ivt1], i1.1))
  }

  /** The two 256-byte boot data tables read from `pos` on, parsed. */
  function ReadTables3a(data: bytes, pos: nat): (r: Result<seq<S.BDS3a>>)
    ensures r.Success? ==> |r.value| == CONTAINERS
    ensures r.Success? ==> forall c :: 0 <= c < CONTAINERS ==>
      0 <= r.value[c].imagesCount <= S.BDS3A_SLOTS && |r.value[c].images| == S.BDS3A_SLOTS
      && S.SlotsOf(true, r.value[c].images, S.BDS3A_SLOTS)
  {
    var t0 := M.ReadAt(data, pos, S.BDS3A_SIZE, None);
    var tb0 :- t0.0;
    var bds0 :- S.ParseBDS3a(tb0);
    var t1 := M.ReadAt(data, t0.1, S.BDS3A_SIZE, None);
    var tb1 :- t1.0;
    var bds1 :- S.ParseBDS3a(tb1);
    Success([bds0, bds1])
  }

  /** The data of the first `n` APP slots. */
  function SlotData(apps: seq<S.APP>, n: nat): (r: seq<bytes>)
    requires n <= |apps| && forall j :: 0 <= j < n ==> apps[j].data.Some?
    ensures |r| == n && forall j :: 0 <= j < n ==> r[j] == apps[j].data.value
  {
    seq(n, j requires 0 <= j < n => apps[j].data.value)
  }

  /** An image's data lie at its read position. */
  predicate PlacedAt(data: bytes, p: int, d: S.IDS, a: S.APP)
  {
    && a.data.Some? && 0 <= ImageStart(p, d) && 0 <= d.size && ImageStart(p, d) + d.size <= |data|
    && data[ImageStart(p, d)..ImageStart(p, d) + d.size] == a.data.value
  }

  /** Images whose data lie at their read positions are read back exactly. */
  lemma {:induction false} ReadImagesOfPlaced(data: bytes, p: int, images: seq<S.IDS>, n: nat, apps: seq<S.APP>)
    requires n <= |images| && n <= |apps|
    requires forall j :: 0 <= j < n ==> PlacedAt(data, p, images[j], apps[j])
    ensures forall j :: 0 <= j < n ==> apps[j].data.Some?
    ensures ReadImages(data, p, images, n) == Success(SlotData(apps, n))
    decreases n
  {
    if n > 0 {
      ReadImagesOfPlaced(data, p, images, n - 1, apps);
      assert SlotData(apps, n) == SlotData(apps, n - 1) + [apps[n - 1].data.value];
    }
  }

  /** A table as `SegBDS3a.parse` leaves it, and the data read for its counted images, each as long as its descriptor says. */
  predicate TableRead(b: S.BDS3a, apps: seq<bytes>)
  {
    && 0 <= b.imagesCount <= S.BDS3A_SLOTS && |b.images| == S.BDS3A_SLOTS
    && S.SlotsOf(true, b.images, S.BDS3A_SLOTS) && |apps| == b.imagesCount
    && forall j :: 0 <= j < |apps| ==> |apps[j]| == b.images[j].size
  }

  /** What a successful `ReadV3a` hands to the image: two IVTs, and two tables with their images' data. */
  predicate Read3aShaped(rd: Read3a)
  {
    && |rd.ivt| == CONTAINERS && |rd.bds| == CONTAINERS && |rd.apps| == CONTAINERS
    && TableRead(rd.bds[0], rd.apps[0]) && TableRead(rd.bds[1], rd.apps[1])
  }

  /** The data read for each image is as long as its descriptor says. */
  lemma {:induction false} ReadImagesSized(data: bytes, p: nat, b: S.BDS3a, apps: seq<bytes>)
    requires 0 <= b.imagesCount <= S.BDS3A_SLOTS && |b.images| == S.BDS3A_SLOTS && S.SlotsOf(true, b.images, S.BDS3A_SLOTS)
    requires ReadImages(data, p, b.images, b.imagesCount) == Success(apps)
    ensures TableRead(b, apps)
  {
  }

  /**
   * The reads of `BootImg3a.parse` from the IVT its probe found at `p`: two IVT
   * segments, two 256-byte tables, the DCD and CSF IVT 0 points to, each parsed as it
   * is read, and then the images of container 0 and of container 1.
   */
  function ReadV3a(data: bytes, p: nat): (r: Result<Read3a>)
    requires p + H.SIZE < |data| && I.Accepts(I.V3a, I.HeaderAt(data, p))
    ensures r.Success? ==>
      && Read3aShaped(r.value)
      && p + S.IVT3A_SIZE <= |data| && S.ParseIVT3a(data[p..p + S.IVT3A_SIZE]) == Success(r.value.ivt[0])
      && (r.value.dcd.Some? <==> r.value.ivt[0].dcd != 0) && (r.value.csf.Some? <==> r.value.ivt[0].csf != 0)
      && (r.value.dcd.Some? ==> CS.ParseSegment(H.TAG_DCD, CS.DCD_KINDS, r.value.dcd.value, 0).Success?)
      && (r.value.csf.Some? ==> CS.ParseSegment(H.TAG_CSF, CS.CSF_KINDS, r.value.csf.value, 0).Success?)
      && ReadImages(data, p, r.value.bds[0].images, r.value.bds[0].imagesCount) == Success(r.value.apps[0])
      && ReadImages(data, p, r.value.bds[1].images, r.value.bds[1].imagesCount) == Success(r.value.apps[1])
  {
    var ivts :- ReadIvts3a(data, p);
    var bds :- ReadTables3a(data, ivts.1);
    var ivt0 := ivts.0[0];
    var dcd :- ReadPointed(data, p, ivt0.ivt, ivt0.dcd, H.TAG_DCD, CS.DCD_KINDS);
    var csf :- ReadPointed(data, p, ivt0.ivt, ivt0.csf, H.TAG_CSF, CS.CSF_KINDS);
    var apps0 :- ReadImages(data, p, bds[0].images, bds[0].imagesCount);
    var apps1 :- ReadImages(data, p, bds[1].images, bds[1].imagesCount);
    ReadImagesSized(data, p, bds[0], apps0);
    ReadImagesSized(data, p, bds[1], apps1);
    var rd := Read3a(ivts.0, bds, dcd, csf, [apps0, apps1]);
    assert Read3aShaped(rd);
    Success(rd)
  }

  /** The segment read at an accepted v3a probe is the 48 bytes of the IVT. */
  lemma {:induction false} IvtRead3a(data: bytes, p: nat, next: nat, raw: bytes)
    requires p + H.SIZE < |data| && I.Accepts(I.V3a, I.HeaderAt(data, p))
    requires M.SegmentAt(data, p, H.TAG_IVT3, None) == (Success(raw), next)
    ensures next == p + S.IVT3A_SIZE && p + S.IVT3A_SIZE <= |data| && raw == data[p..p + S.IVT3A_SIZE]
  {
    assert raw[..H.SIZE] == data[p..p + H.SIZE];
    assert raw[1..3] == data[p..p + H.SIZE][1..3];
  }

  /** The image loop of `parse` for one container, on the stream. */
  method ReadImagesFrom(stream: M.Stream, p: int, images: seq<S.IDS>, n: nat) returns (r: Result<seq<bytes>>)
    requires n <= |images|
    modifies stream
    ensures r == ReadImages(stream.data, p, images, n)
  {
    var got: seq<bytes> := [];
    for i := 0 to n
      invariant ReadImages(stream.data, p, images, i) == Success(got)
    {
      var at := SeekTo(ImageStart(p, images[i]));
      if at.Failure? {
        ReadImagesFailFrom(stream.data, p, images, i + 1, n);
        return Failure(at.error);
      }
      stream.Seek(at.value);
      var x := M.ReadRawData(stream, images[i].size, None);
      if x.Failure? {
        ReadImagesFailFrom(stream.data, p, images, i + 1, n);
        return Failure(x.error);
      }
      got := got + [x.value];
    }
    return Success(got);
  }

  /** The seek and segment read of the DCD or CSF that IVT 0 points to, with its parse as a check. */
  method ReadPointedFrom(stream: M.Stream, p: int, ivt: int, address: int, tag: byte, kinds: seq<ImgCommands.Kind>) returns (r: Result<Option<bytes>>)
    modifies stream
    ensures r == ReadPointed(stream.data, p, ivt, address, tag, kinds)
  {
    if address == 0 {
      return Success(None);
    }
    var at := SeekTo(p + (address - ivt));
    if at.Failure? {
      return Failure(at.error);
    }
    stream.Seek(at.value);
    var seg := M.ReadRawSegment(stream, tag, None);
    if seg.Failure? {
      return Failure(seg.error);
    }
    var parsed := CS.ParseSegment(tag, kinds, seg.value, 0);
    if parsed.Failure? {
      return Failure(parsed.error);
    }
    return Success(Some(seg.value));
  }

  /** The two IVT reads of `parse` on the stream. */
  method ReadIvtsFrom(stream: M.Stream) returns (r: Result<seq<S.IVT3a>>)
    requires stream.pos + H.SIZE < |stream.data| && I.Accepts(I.V3a, I.HeaderAt(stream.data, stream.pos))
    modifies stream
    ensures var spec := ReadIvts3a(stream.data, old(stream.pos));
      && (r.Success? <==> spec.Success?) && (r.Failure? ==> r.error == spec.error)
      && (r.Success? ==> r.value == spec.value.0 && stream.pos == spec.value.1)
  {
    var b0 := M.ReadRawSegment(stream, H.TAG_IVT3, None);
    if b0.Failure? {
      return Failure(b0.error);
    }
    var ivt0 := S.ParseIVT3a(b0.value);
    if ivt0.Failure? {
      return Failure(ivt0.error);
    }
    var b1 := M.ReadRawSegment(stream, H.TAG_IVT3, None);
    if b1.Failure? {
      return Failure(b1.error);
    }
    var ivt1 := S.ParseIVT3a(b1.value);
    if ivt1.Failure? {
      return Failure(ivt1.error);
    }
    return Success([ivt0.value, ivt1.value]);
  }

  /** The two table reads of `parse` on the stream. */
  method ReadTablesFrom(stream: M.Stream) returns (r: Result<seq<S.BDS3a>>)
    modifies stream
    ensures r == ReadTables3a(stream.data, old(stream.pos))
  {
    var tb0 := M.ReadRawData(stream, S.BDS3A_SIZE, None);
    if tb0.Failure? {
      return Failure(tb0.error);
    }
    var bds0 := S.ParseBDS3a(tb0.value);
    if bds0.Failure? {
      return Failure(bds0.error);
    }
    var tb1 := M.ReadRawData(stream, S.BDS3A_SIZE, None);
    if tb1.Failure? {
      return Failure(tb1.error);
    }
    var bds1 := S.ParseBDS3a(tb1.value);
    if bds1.Failure? {
      return Failure(bds1.error);
    }
    return Success([bds0.value, bds1.value]);
  }

  /** The reads of `BootImg3a.parse` on the stream, from the probe's position. */
  method ReadSegments3a(stream: M.Stream) returns (r: Result<Read3a>)
    requires stream.pos + H.SIZE < |stream.data| && I.Accepts(I.V3a, I.HeaderAt(stream.data, stream.pos))
    modifies stream
    ensures r == ReadV3a(stream.data, old(stream.pos))
  {
    var p := stream.pos;
    var ivts := ReadIvtsFrom(stream);
    if ivts.Failure? {
      return Failure(ivts.error);
    }
    var bds := ReadTablesFrom(stream);
    if bds.Failure? {
      return Failure(bds.error);
    }
    var ivt0 := ivts.value[0];
    var dcd := ReadPointedFrom(stream, p, ivt0.ivt, ivt0.dcd, H.TAG_DCD, CS.DCD_KINDS);
    if dcd.Failure? {
      return Failure(dcd.error);
    }
    var csf := ReadPointedFrom(stream, p, ivt0.ivt, ivt0.csf, H.TAG_CSF, CS.CSF_KINDS);
    if csf.Failure? {
      return Failure(csf.error);
    }
    var apps0 := ReadImagesFrom(stream, p, bds.value[0].images, bds.value[0].imagesCount);
    if apps0.Failure? {
      return Failure(apps0.error);
    }
    var apps1 := ReadImagesFrom(stream, p, bds.value[1].images, bds.value[1].imagesCount);
    if apps1.Failure? {
      return Failure(apps1.error);
    }
    return Success(Read3a(ivts.value, bds.value, dcd.value, csf.value, [apps0.value, apps1.value]));
  }

  /**
   * `parse` reads back the images `export` wrote: in the blob of an image at the
   * default offset whose head fits, the reads from an IVT at 0 give every counted
   * slot's data, in container 1 as long as container 0 holds an image.
   */
  lemma {:induction false} ExportReadsImages(s0: Slots, s1: Slots, head: bytes, e: bytes, c: nat, s: Slots)
    requires s0.Fits() && s1.Fits() && LaidOut(s0, s1)
    requires Assemble(DEFAULT_OFFSET, Success(head), s0, s1) == Success(e)
    requires 0 < |head| <= APP_ALIGN3 - DEFAULT_OFFSET
    requires c < CONTAINERS && (c == 1 ==> s0.count != 0) && s == (if c == 0 then s0 else s1)
    ensures forall j :: 0 <= j < s.count ==> s.apps[j].data.Some?
    ensures ReadImages(e, 0, s.images, s.count) == Success(SlotData(s.apps, s.count))
  {
    forall j | 0 <= j < s.count
      ensures PlacedAt(e, 0, s.images[j], s.apps[j])
    {
      ExportPlaces(DEFAULT_OFFSET, s0, s1, head, e, c, s, j);
    }
    ReadImagesOfPlaced(e, 0, s.images, s.count, s.apps);
  }

  /** Six APP slots: the data read for the first ones, without padding, and empty slots after them. */
  function FilledApps(data: seq<bytes>): (r: seq<S.APP>)
    requires |data| <= S.BDS3A_SLOTS
    ensures |r| == S.BDS3A_SLOTS
    ensures forall j :: 0 <= j < S.BDS3A_SLOTS ==> r[j] == if j < |data| then S.APP(Some(data[j]), 0) else S.APP(None, 0)
  {
    seq(S.BDS3A_SLOTS, j requires 0 <= j < S.BDS3A_SLOTS => if j < |data| then S.APP(Some(data[j]), 0) else S.APP(None, 0))
  }

  class BootImg3a {
    var address: seq<int>
    var offset: int
    var plg: bool
    var ivt: seq<S.IVT3a>
    var bdt: seq<S.BDS3a>
    var app: seq<seq<S.APP>>
    var dcd: CS.CmdSegment
    var csf: CS.CmdSegment
    var sdcAddress: int

    /**
     * Two containers of six 3a slots whose counted images have data as long as their
     * descriptors say, and the DCD and CSF segments the setters accept.
     */
    predicate Valid()
      reads this
    {
      && |ivt| == CONTAINERS && |bdt| == CONTAINERS && |app| == CONTAINERS
      && Sized3a(K(0)) && Sized3a(K(1))
      && SizesMatch(bdt[0].images, app[0], bdt[0].imagesCount)
      && SizesMatch(bdt[1].images, app[1], bdt[1].imagesCount)
      && dcd.tag == H.TAG_DCD && csf.tag == H.TAG_CSF
    }

    function K(c: nat): Container3a
      requires c < |ivt| && c < |bdt| && c < |app|
      reads this
    {
      Container3a(ivt[c], bdt[c], app[c])
    }

    function Containers(): seq<Container3a>
      requires |ivt| == CONTAINERS && |bdt| == CONTAINERS && |app| == CONTAINERS
      reads this
    {
      [K(0), K(1)]
    }

    function DcdShape(): I.Shape
      reads this, dcd
    {
      I.Shape(dcd.enabled, dcd.length, dcd.padding)
    }

    function CsfShape(): I.Shape
      reads this, csf
    {
      I.Shape(csf.enabled, csf.length, csf.padding)
    }

    /**
     * `BootImg3a(address, offset, version)`: IVTs of param `version`, version 1, the
     * first pointing `next` past its own 48 bytes; empty tables and APPs; a disabled
     * DCD and CSF; an address that is not a list becomes the two ROM load addresses.
     */
    constructor (address: Option<seq<int>>, offset: int, version: byte)
      ensures Valid() && fresh(dcd) && fresh(csf)
      ensures this.address == (if address.Some? then address.value else [INITIAL_LOAD_ADDR_SCU_ROM, INITIAL_LOAD_ADDR_AP_ROM])
      ensures this.offset == offset && !plg && sdcAddress == 0
      ensures ivt == [S.NewIVT3a(version).(version := 1, next := S.IVT3A_SIZE), S.NewIVT3a(version).(version := 1)]
      ensures bdt == [S.NewBDS3a(), S.NewBDS3a()]
      ensures forall c, j :: 0 <= c < CONTAINERS && 0 <= j < S.BDS3A_SLOTS ==> app[c][j] == S.APP(None, 0)
      ensures !dcd.enabled && dcd.commands == [] && !csf.enabled && csf.commands == []
    {
      this.address := if address.Some? then address.value else [INITIAL_LOAD_ADDR_SCU_ROM, INITIAL_LOAD_ADDR_AP_ROM];
      this.offset := offset;
      ivt := [S.NewIVT3a(version).(version := 1, next := S.IVT3A_SIZE), S.NewIVT3a(version).(version := 1)];
      bdt := [S.NewBDS3a(), S.NewBDS3a()];
      var empty := seq(S.BDS3A_SLOTS, _ => S.APP(None, 0));
      app := [empty, empty];
      dcd := new CS.CmdSegment.DCD(0x41, false);
      csf := new CS.CmdSegment.CSF(0, false);
      plg := false;
      sdcAddress := 0;
    }

    /**
     * One round of `_update`'s container loop: the container becomes what
     * `UpdateContainer3a` describes and the other one is kept; a round that raises
     * leaves the container as far as `Round3a` says it got.
     */
    method UpdateContainer(c: nat, dcd0: I.Shape, csf0: I.Shape) returns (o: Outcome)
      requires Valid() && c < CONTAINERS
      modifies this
      ensures Valid()
      ensures address == old(address) && offset == old(offset) && plg == old(plg) && sdcAddress == old(sdcAddress)
      ensures dcd == old(dcd) && csf == old(csf) && K(1 - c) == old(K(1 - c))
      ensures K(c) == Round3a(c, address, offset, dcd0, csf0, old(K(c)), old(K(0)))
      ensures var u := UpdateContainer3a(c, address, offset, dcd0, csf0, old(K(c)), old(K(0)));
        && (o.Pass? <==> u.Success?) && (o.Fail? ==> o.error == u.error)
        && (o.Pass? ==> K(c) == u.value)
    {
      var k, prev := K(c), K(0);
      var r, after := LayOutContainer3a(c, address, offset, dcd0, csf0, k, prev);
      Round3aSized(c, address, offset, dcd0, csf0, k, prev);
      ivt, bdt, app := ivt[c := after.ivt], bdt[c := after.bds], app[c := after.apps];
      if r.Failure? {
        return Fail(r.error);
      }
      Round3aOfSuccess(c, address, offset, dcd0, csf0, k, prev);
      return Pass;
    }

    /**
     * `BootImg3a.add_image`: the containers and the SCD address become what
     * `AddImage3a` describes; an image that raises changes nothing.
     */
    method AddImage(data: bytes, imgType: int, address: int) returns (o: Outcome)
      requires Valid()
      modifies this
      ensures Valid()
      ensures this.address == old(this.address) && offset == old(offset) && plg == old(plg) && dcd == old(dcd) && csf == old(csf)
      ensures var u := AddImage3a(old(Containers()), old(sdcAddress), data, imgType, address);
        && (o.Pass? <==> u.Success?)
        && (o.Fail? ==> o.error == u.error && Containers() == old(Containers()) && sdcAddress == old(sdcAddress))
        && (o.Pass? ==> Containers() == u.value.0 && sdcAddress == u.value.1)
    {
      var ks := Containers();
      var c: nat, dest, entry, hab, flags := 0, address, address, IMG_TYPE_EXEC, 0;
      if imgType == I.IMG_APP {
        c, flags := 1, SCFW_FLAGS_APP;
      } else if imgType == I.IMG_M4_0 || imgType == I.IMG_M4_1 {
        flags := if imgType == I.IMG_M4_0 then SCFW_FLAGS_M4_0 else SCFW_FLAGS_M4_1;
      } else if imgType == I.IMG_SCFW {
        dest, entry, flags := SCFW_ADDRESS_3A, SCFW_ADDRESS_3A, SCFW_FLAGS_SCFW;
      } else if imgType == I.IMG_SCD {
        if sdcAddress == 0 {
          return Fail(Raised("SCFW have to be define before SCD !"));
        }
        dest, entry, hab, flags := sdcAddress, 0, IMG_TYPE_SCD, 1;
      } else {
        return Fail(Raised("Unknown data type !"));
      }
      var placed := Place3a(ks[c], data, dest, entry, hab, flags);
      if placed.Failure? {
        return Fail(placed.error);
      }
      Place3aRecords(ks[c], data, dest, entry, hab, flags);
      var k := placed.value;
      ivt, bdt, app := ivt[c := k.ivt], bdt[c := k.bds], app[c := k.apps];
      if imgType == I.IMG_SCFW {
        sdcAddress := SCFW_ADDRESS_3A + |data| + I.ComputePadding(|data|, IMG_AUTO_ALIGN);
      }
      return Pass;
    }

    /**
     * `BootImg3a._update`: both containers in turn, as `Update3a` describes; a
     * failure stops it in the round that raised, with that container as far as
     * `Round3a` says it got and the later one untouched.
     */
    method Update() returns (o: Outcome)
      requires Valid()
      modifies this
      ensures Valid()
      ensures address == old(address) && offset == old(offset) && plg == old(plg) && sdcAddress == old(sdcAddress)
      ensures dcd == old(dcd) && csf == old(csf)
      ensures var u := Update3a(address, offset, old(DcdShape()), old(CsfShape()), old(Containers()));
        && (o.Pass? <==> u.Success?) && (o.Fail? ==> o.error == u.error) && (o.Pass? ==> Containers() == u.value)
      ensures o.Fail? ==>
        var u0 := UpdateContainer3a(0, address, offset, old(DcdShape()), old(CsfShape()), old(K(0)), old(K(0)));
        if u0.Failure? then
          K(0) == Round3a(0, address, offset, old(DcdShape()), old(CsfShape()), old(K(0)), old(K(0))) && K(1) == old(K(1))
        else
          K(0) == u0.value && K(1) == Round3a(1, address, offset, old(DcdShape()), old(CsfShape()), old(K(1)), u0.value)
    {
      var dcd0, csf0, ks := DcdShape(), CsfShape(), Containers();
      for c := 0 to CONTAINERS
        invariant Valid()
        invariant address == old(address) && offset == old(offset) && plg == old(plg) && sdcAddress == old(sdcAddress)
        invariant dcd == old(dcd) && csf == old(csf)
        invariant c == 0 ==> K(0) == ks[0]
        invariant c < CONTAINERS ==> K(1) == ks[1]
        invariant c >= 1 ==> UpdateContainer3a(0, address, offset, dcd0, csf0, ks[0], ks[0]) == Success(K(0))
        invariant c == CONTAINERS ==> UpdateContainer3a(1, address, offset, dcd0, csf0, ks[1], K(0)) == Success(K(1))
      {
        o := UpdateContainer(c, dcd0, csf0);
        if o.Fail? {
          return;
        }
      }
      assert Containers() == [K(0), K(1)];
      return Pass;
    }

    /**
     * The image `BootImg3a.parse` builds from what it read: a default image's address,
     * offset and SCD address, the IVTs and tables read, each counted slot's data with
     * no padding and the other slots empty, and the DCD and CSF parsed, or the default
     * disabled ones when IVT 0 does not point to them.
     */
    predicate BuiltFrom(rd: Read3a)
      requires Read3aShaped(rd)
      reads this, dcd, csf
    {
      && address == [INITIAL_LOAD_ADDR_SCU_ROM, INITIAL_LOAD_ADDR_AP_ROM] && offset == DEFAULT_OFFSET && !plg && sdcAddress == 0
      && ivt == rd.ivt && bdt == rd.bds && |app| == CONTAINERS
      && (forall c :: 0 <= c < CONTAINERS ==> |app[c]| == S.BDS3A_SLOTS)
      && (forall c, j :: 0 <= c < CONTAINERS && 0 <= j < S.BDS3A_SLOTS ==>
            app[c][j] == if j < |rd.apps[c]| then S.APP(Some(rd.apps[c][j]), 0) else S.APP(None, 0))
      && (rd.dcd.None? ==> !dcd.enabled && dcd.param == 0x41 && dcd.commands == [])
      && (rd.dcd.Some? ==> dcd.enabled && dcd.padding == 0 && CS.ParseSegment(H.TAG_DCD, CS.DCD_KINDS, rd.dcd.value, 0) == Success((dcd.param, dcd.commands)))
      && (rd.csf.None? ==> !csf.enabled && csf.param == 0 && csf.commands == [])
      && (rd.csf.Some? ==> csf.enabled && csf.padding == 0 && CS.ParseSegment(H.TAG_CSF, CS.CSF_KINDS, rd.csf.value, 0) == Success((csf.param, csf.commands)))
    }

    /**
     * `BootImg3a.parse(buffer, step)` on a stream positioned at `start`: the probe
     * for a v3a IVT from `start` while the cursor is below the size of the rest of the
     * buffer less four, then the reads `ReadV3a` describes; the image is built from
     * them, and any read or parse that raises is the error of the whole.
     */
    static method Parse(data: bytes, start: nat, step: nat) returns (r: Result<BootImg3a>)
      requires step > 0
      ensures I.Find(I.V3a, data, start, step, |data| - start).None? ==> r == Failure(Raised(I.NOT_IMX))
      ensures I.Find(I.V3a, data, start, step, |data| - start).Some? ==>
        var rd := ReadV3a(data, I.Find(I.V3a, data, start, step, |data| - start).value);
        && (r.Success? <==> rd.Success?) && (rd.Failure? ==> r == Failure(rd.error))
        && (r.Success? ==> fresh(r.value) && fresh(r.value.dcd) && fresh(r.value.csf) && r.value.Valid()
                           && Read3aShaped(rd.value) && r.value.BuiltFrom(rd.value))
    {
      var stream := new M.Stream(data);
      stream.Seek(start);
      ghost var spot := I.Find(I.V3a, data, start, step, |data| - start);
      var found := I.Sniff(stream, I.V3a, step, |data| - start);
      assert found <==> spot.Some?;
      if !found {
        return Failure(Raised(I.NOT_IMX));
      }
      assert stream.pos == spot.value;
      var rd := ReadSegments3a(stream);
      assert rd == ReadV3a(data, spot.value);
      if rd.Failure? {
        return Failure(rd.error);
      }
      var dcd := new CS.CmdSegment.DCD(0x41, false);
      if rd.value.dcd.Some? {
        var parsed := CS.ParseDCD(rd.value.dcd.value);
        if parsed.Success? {
          dcd := parsed.value;
        }
      }
      var csf := new CS.CmdSegment.CSF(0, false);
      if rd.value.csf.Some? {
        var parsed := CS.ParseCSF(rd.value.csf.value, 0);
        if parsed.Success? {
          csf := parsed.value;
        }
      }
      var obj := new BootImg3a.FromRead(rd.value, dcd, csf);
      return Success(obj);
    }

    /** The image `parse` assembles from a shaped read and the DCD and CSF it parsed. */
    constructor FromRead(rd: Read3a, dcd: CS.CmdSegment, csf: CS.CmdSegment)
      requires Read3aShaped(rd) && dcd.tag == H.TAG_DCD && csf.tag == H.TAG_CSF
      ensures Valid() && this.dcd == dcd && this.csf == csf
      ensures address == [INITIAL_LOAD_ADDR_SCU_ROM, INITIAL_LOAD_ADDR_AP_ROM] && offset == DEFAULT_OFFSET && !plg && sdcAddress == 0
      ensures ivt == rd.ivt && bdt == rd.bds && |app| == CONTAINERS
      ensures forall c :: 0 <= c < CONTAINERS ==> |app[c]| == S.BDS3A_SLOTS
      ensures forall c, j :: 0 <= c < CONTAINERS && 0 <= j < S.BDS3A_SLOTS ==>
        app[c][j] == if j < |rd.apps[c]| then S.APP(Some(rd.apps[c][j]), 0) else S.APP(None, 0)
    {
      address := [INITIAL_LOAD_ADDR_SCU_ROM, INITIAL_LOAD_ADDR_AP_ROM];
      offset := DEFAULT_OFFSET;
      plg := false;
      sdcAddress := 0;
      ivt := rd.ivt;
      bdt := rd.bds;
      app := [FilledApps(rd.apps[0]), FilledApps(rd.apps[1])];
      this.dcd := dcd;
      this.csf := csf;
    }

    /**
     * `BootImg3a.export`: `_update`, then the blob `ExportImage3a` describes from the
     * containers it laid out; a failing update raises before anything is exported.
     */
    method Export() returns (r: Result<bytes>)
      requires Valid()
      modifies this
      ensures Valid()
      ensures address == old(address) && offset == old(offset) && plg == old(plg) && sdcAddress == old(sdcAddress)
      ensures dcd == old(dcd) && csf == old(csf)
      ensures var u := Update3a(address, offset, old(DcdShape()), old(CsfShape()), old(Containers()));
        && (u.Failure? ==> r == Failure(u.error))
        && (u.Success? ==> Containers() == u.value)
        && (u.Success? ==>
              r == ExportImage3a(offset, Containers(),
                                 CS.ExportSegment(dcd.enabled, dcd.Header(), dcd.commands, true, dcd.padding),
                                 CS.ExportSegment(csf.enabled, csf.Header(), csf.commands, true, csf.padding)))
    {
      var o := Update();
      if o.Fail? {
        return Failure(o.error);
      }
      var d := dcd.Export(true);
      var c := csf.Export(true);
      r := AssembleFrom(offset, I.JoinAll(HeadParts3a(Containers(), d, c)), K(0).Images(), K(1).Images());
    }
  }
}
