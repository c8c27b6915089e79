/**
 * The layout engine: images are packed edge to edge along the x axis,
 * in the order in which they are released by the load queue.
 */
module Layout {

  /** Gap between two neighbouring images (GALLERY_DIST). */
  const GalleryDist: real := 100.0

  /**
   * One image mesh of the gallery: its sequence id, half of its rendered
   * width (the x of the plane's right edge), its x position and whether
   * it is drawn.
   */
  datatype Img = Img(id: nat, halfWidth: real, x: real, visible: bool)

  function HalfWidths(s: seq<Img>): (hws: seq<real>)
    ensures |hws| == |s|
    ensures forall i :: 0 <= i < |s| ==> hws[i] == s[i].halfWidth
  {
    seq(|s|, i requires 0 <= i < |s| => s[i].halfWidth)
  }

  function Positions(s: seq<Img>): (xs: seq<real>)
    ensures |xs| == |s|
    ensures forall i :: 0 <= i < |s| ==> xs[i] == s[i].x
  {
    seq(|s|, i requires 0 <= i < |s| => s[i].x)
  }

  /** Where an image of half-width `half` goes, right of an image at `prevX` of half-width `prevHalf`. */
  function NextX(prevX: real, prevHalf: real, half: real): (x: real)
  {
    prevX + prevHalf + half + GalleryDist
  }

  /**
   * The positions that images of half-widths `hws` take when they are
   * loaded one after the other and nothing moves them in between.
   */
  function Packed(hws: seq<real>): (xs: seq<real>)
    ensures |xs| == |hws|
    ensures |hws| > 0 ==> xs[0] == 0.0
    decreases |hws|
  {
    if |hws| == 0 then []
    else if |hws| == 1 then [0.0]
    else
      var p := Packed(hws[..|hws| - 1]);
      p + [NextX(p[|p| - 1], hws[|hws| - 2], hws[|hws| - 1])]
  }

  /** The gallery width after loading images of half-widths `hws` at rest: the x of the last one, 0 before the second. */
  function Extent(hws: seq<real>): (w: real)
  {
    if |hws| == 0 then 0.0 else Packed(hws)[|hws| - 1]
  }

  predicate NonNegative(hws: seq<real>)
  {
    forall i :: 0 <= i < |hws| ==> hws[i] >= 0.0
  }

  /** Packing a longer sequence does not move the images already placed. */
  lemma {:induction false} PackedPrefix(hws: seq<real>, k: nat)
    requires k <= |hws|
    ensures Packed(hws[..k]) == Packed(hws)[..k]
    decreases |hws|
  {
    if k < |hws| {
      var front := hws[..|hws| - 1];
      assert hws[..k] == front[..k];
      PackedPrefix(front, k);
      if |hws| > 1 {
        assert Packed(hws)[..|hws| - 1] == Packed(front);
      }
    } else {
      assert hws[..k] == hws;
    }
  }

  /** Every image after the first sits exactly one packing step right of its predecessor. */
  lemma {:induction false} PackedStep(hws: seq<real>, i: nat)
    requires 0 < i < |hws|
    ensures Packed(hws)[i] == NextX(Packed(hws)[i - 1], hws[i - 1], hws[i])
  {
    var front := hws[..i + 1];
    PackedPrefix(hws, i + 1);
    assert front[..|front| - 1] == hws[..i];
    PackedPrefix(hws, i);
    assert Packed(front)[i] == Packed(hws)[i];
    assert Packed(front)[i - 1] == Packed(hws)[i - 1];
  }

  /** With non-negative half-widths, the images are strictly ordered by id and at least the gap apart. */
  lemma {:induction false} PackedIncreasing(hws: seq<real>, i: nat, j: nat)
    requires NonNegative(hws)
    requires i < j < |hws|
    ensures Packed(hws)[i] + GalleryDist <= Packed(hws)[j]
    decreases j - i
  {
    PackedStep(hws, j);
    if i < j - 1 {
      PackedIncreasing(hws, i, j - 1);
    }
  }

  /** Loading one more image at rest never shrinks the gallery width. */
  lemma ExtentGrows(hws: seq<real>, half: real)
    requires NonNegative(hws) && half >= 0.0
    ensures Extent(hws + [half]) >= Extent(hws)
    ensures |hws| > 0 ==> Extent(hws + [half]) == NextX(Extent(hws), hws[|hws| - 1], half)
  {
  }

  /** The image the layout engine creates when `half` is loaded after the images `s`. */
  function Placed(s: seq<Img>, half: real): (img: Img)
  {
    var n := |s|;
    Img(n, half, if n == 0 then 0.0 else NextX(s[n - 1].x, s[n - 1].halfWidth, half), true)
  }

  /** The gallery width after that load: unchanged for the first image, the new image's x after. */
  function WidthAfter(s: seq<Img>, width: real, half: real): (w: real)
  {
    if |s| == 0 then width else Placed(s, half).x
  }

  /** Images (and gallery width) exactly where loading alone put them, with no animation since. */
  ghost predicate Settled(s: seq<Img>, width: real)
  {
    Positions(s) == Packed(HalfWidths(s)) && width == Extent(HalfWidths(s))
  }

  /** Loading onto a settled gallery keeps it settled and does not shrink its width. */
  lemma LoadKeepsSettled(s: seq<Img>, width: real, half: real)
    requires NonNegative(HalfWidths(s)) && half >= 0.0
    requires Settled(s, width)
    ensures Settled(s + [Placed(s, half)], WidthAfter(s, width, half))
    ensures WidthAfter(s, width, half) >= width
  {
    var n := |s|;
    var t := s + [Placed(s, half)];
    var hws := HalfWidths(s);
    assert HalfWidths(t) == hws + [half];
    ExtentGrows(hws, half);
    assert Positions(t) == Positions(s) + [Placed(s, half).x];
    if n >= 1 {
      assert HalfWidths(t)[..n] == hws;
    }
  }

  /** The images after loading entries of half-widths `hws`, one after the other, onto `s`. */
  function LoadAll(s: seq<Img>, hws: seq<real>): (r: seq<Img>)
    ensures |r| == |s| + |hws| && s <= r
    decreases |hws|
  {
    if hws == [] then s
    else
      var p := LoadAll(s, hws[..|hws| - 1]);
      p + [Placed(p, hws[|hws| - 1])]
  }

  /** Loading keeps the half-widths already there and appends the loaded ones. */
  lemma {:induction false} LoadAllWidths(s: seq<Img>, hws: seq<real>)
    ensures HalfWidths(LoadAll(s, hws)) == HalfWidths(s) + hws
    decreases |hws|
  {
    if hws != [] {
      var front := hws[..|hws| - 1];
      LoadAllWidths(s, front);
      assert hws == front + [hws[|hws| - 1]];
    }
  }

  /**
   * The gallery width after those loads: unchanged when nothing is
   * loaded or only the first image is, otherwise the x of the last image.
   */
  function WidthAfterAll(s: seq<Img>, width: real, hws: seq<real>): (w: real)
  {
    var r := LoadAll(s, hws);
    if hws == [] || |r| <= 1 then width else r[|r| - 1].x
  }

  /** Loading one more entry after a run of loads is one more load step. */
  lemma LoadAllStep(s: seq<Img>, width: real, hws: seq<real>, half: real)
    ensures LoadAll(s, hws + [half]) == LoadAll(s, hws) + [Placed(LoadAll(s, hws), half)]
    ensures WidthAfterAll(s, width, hws + [half]) == WidthAfter(LoadAll(s, hws), WidthAfterAll(s, width, hws), half)
  {
  }

  /** Any number of loads onto a settled gallery keep it settled and never shrink its width. */
  lemma {:induction false} LoadAllKeepsSettled(s: seq<Img>, width: real, hws: seq<real>)
    requires NonNegative(HalfWidths(s)) && NonNegative(hws)
    requires Settled(s, width)
    ensures Settled(LoadAll(s, hws), WidthAfterAll(s, width, hws))
    ensures WidthAfterAll(s, width, hws) >= width
    decreases |hws|
  {
    if hws != [] {
      var front := hws[..|hws| - 1];
      LoadAllKeepsSettled(s, width, front);
      var p := LoadAll(s, front);
      LoadAllWidths(s, front);
      LoadKeepsSettled(p, WidthAfterAll(s, width, front), hws[|hws| - 1]);
    }
  }
}
