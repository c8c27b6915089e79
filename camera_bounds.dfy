/**
 * Camera bounds and the mode detector's building blocks: the clamps the
 * camera goes through each tick, the guards for switching between the
 * gallery strip and the focal view, and the choice of the focal image.
 */
module CameraBounds {
  import opened Layout

  /** Field of view when fully zoomed out: at or beyond it the gallery strip shows. */
  const FovWide: real := 75.0

  /** Field of view when fully zoomed in. */
  const FovNarrow: real := 20.0

  /**
   * The camera's field of view after the clamps: raised to FovNarrow
   * first, then anything at or beyond FovWide is set to FovWide.
   */
  function ClampFov(fov: real): (r: real)
    ensures FovNarrow <= r <= FovWide
    ensures FovNarrow <= fov <= FovWide ==> r == fov
    ensures r >= FovWide <==> fov >= FovWide
    ensures fov < FovNarrow ==> r == FovNarrow
  {
    var raised := if fov < FovNarrow then FovNarrow else fov;
    if raised >= FovWide then FovWide else raised
  }

  /**
   * The camera's x in gallery mode: raised to 0 first, then lowered to
   * the gallery width.
   */
  function ClampPan(x: real, width: real): (r: real)
    ensures width >= 0.0 ==> 0.0 <= r <= width
    ensures 0.0 <= x <= width ==> r == x
    ensures width < 0.0 ==> r == width
    ensures x < 0.0 <= width ==> r == 0.0
    ensures x > width ==> r == width
  {
    var raised := if x < 0.0 then 0.0 else x;
    if raised > width then width else raised
  }

  function Abs(v: real): (r: real)
    ensures r >= 0.0 && (r == v || r == -v)
  {
    if v < 0.0 then -v else v
  }

  /** Distance from the camera's x to an image's x. */
  function Dist(img: Img, camX: real): (r: real)
    ensures r >= 0.0
  {
    Abs(camX - img.x)
  }

  /**
   * `k` is the image nearest to `camX`, and the first such image when
   * several are equally near.
   */
  ghost predicate IsNearest(s: seq<Img>, camX: real, k: nat)
  {
    && k < |s|
    && (forall j :: 0 <= j < |s| ==> Dist(s[k], camX) <= Dist(s[j], camX))
    && (forall j :: 0 <= j < k ==> Dist(s[j], camX) > Dist(s[k], camX))
  }

  /** Ties are broken, so there is only one nearest image. */
  lemma NearestIsUnique(s: seq<Img>, camX: real, a: nat, b: nat)
    requires IsNearest(s, camX, a) && IsNearest(s, camX, b)
    ensures a == b
  {
    assert Dist(s[a], camX) <= Dist(s[b], camX);
    assert Dist(s[b], camX) <= Dist(s[a], camX);
  }

  /**
   * The head of the images stably sorted by distance to `camX`: one pass
   * that keeps the first image strictly nearer than any before it.
   */
  method NearestImage(s: seq<Img>, camX: real) returns (k: nat)
    requires |s| > 0
    ensures IsNearest(s, camX, k)
  {
    k := 0;
    for i := 1 to |s|
      invariant k < i
      invariant forall j :: 0 <= j < i ==> Dist(s[k], camX) <= Dist(s[j], camX)
      invariant forall j :: 0 <= j < k ==> Dist(s[j], camX) > Dist(s[k], camX)
    {
      if Dist(s[i], camX) < Dist(s[k], camX) {
        k := i;
      }
    }
  }

  /** Every image made visible, nothing else changed. */
  function AllVisible(s: seq<Img>): (r: seq<Img>)
    ensures |r| == |s|
    ensures forall i :: 0 <= i < |s| ==> r[i] == s[i].(visible := true)
  {
    seq(|s|, i requires 0 <= i < |s| => s[i].(visible := true))
  }

  /** The guard for switching into the gallery strip, checked on the raw field of view. */
  predicate EntersGallery(fov: real, galleryMode: bool, count: nat)
  {
    fov >= FovWide && !galleryMode && count > 1
  }

  /** The guard for switching to the focal view: any field of view below FovWide. */
  predicate LeavesGallery(fov: real, galleryMode: bool, count: nat)
  {
    fov < FovWide && galleryMode && count > 1
  }
}
