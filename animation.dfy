/**
 * The transition animation: each tick every image other than the focal
 * one slides by a fixed offset, towards the focal image on the way into
 * the gallery strip and away from it on the way out.
 */
module Animation {
  import opened Layout

  /** Distance an image slides per tick (GALLERY_OFFSET). */
  const GalleryOffset: real := 50.0

  /** Number of ticks a from-gallery transition runs before it settles. */
  const FrameBudget: int := 60

  /**
   * One image after one tick with offset `d` around the image with id
   * `focalId`: lower ids move by +d, higher ids by -d, the focal image
   * stays where it is. The to-gallery tick uses d = GalleryOffset, the
   * from-gallery tick d = -GalleryOffset.
   */
  function Shift(img: Img, focalId: nat, d: real): (r: Img)
    ensures r.id == img.id && r.halfWidth == img.halfWidth && r.visible == img.visible
  {
    if img.id < focalId then img.(x := img.x + d)
    else if img.id > focalId then img.(x := img.x - d)
    else img
  }

  function ShiftAll(s: seq<Img>, focalId: nat, d: real): (r: seq<Img>)
    ensures |r| == |s|
    ensures forall i :: 0 <= i < |s| ==> r[i] == Shift(s[i], focalId, d)
  {
    seq(|s|, i requires 0 <= i < |s| => Shift(s[i], focalId, d))
  }

  /** Images after `n` ticks with the same focal image and offset. */
  function Ticks(s: seq<Img>, focalId: nat, d: real, n: nat): (r: seq<Img>)
    decreases n
  {
    if n == 0 then s else ShiftAll(Ticks(s, focalId, d, n - 1), focalId, d)
  }

  /**
   * The end of a from-gallery transition: every image whose index is not
   * the focal id is hidden; the focal image keeps its visibility.
   */
  function HideAllBut(s: seq<Img>, focalId: nat): (r: seq<Img>)
    ensures |r| == |s|
    ensures forall i :: 0 <= i < |s| ==> r[i] == (if i != focalId then s[i].(visible := false) else s[i])
  {
    seq(|s|, i requires 0 <= i < |s| => if i != focalId then s[i].(visible := false) else s[i])
  }

  /** A tick keeps ids, widths and visibility, keeps the focal image in place and moves each other image by exactly d. */
  lemma ShiftMoves(s: seq<Img>, focalId: nat, d: real, i: nat)
    requires i < |s|
    ensures var r := ShiftAll(s, focalId, d)[i];
            && r.id == s[i].id && r.halfWidth == s[i].halfWidth && r.visible == s[i].visible
            && (s[i].id == focalId ==> r.x == s[i].x)
            && (s[i].id < focalId ==> r.x == s[i].x + d)
            && (s[i].id > focalId ==> r.x == s[i].x - d)
  {
  }

  /** Two ticks around the same focal image add up to one tick with the summed offset. */
  lemma ShiftAllCompose(s: seq<Img>, focalId: nat, a: real, b: real)
    ensures ShiftAll(ShiftAll(s, focalId, a), focalId, b) == ShiftAll(s, focalId, a + b)
  {
  }

  lemma ShiftAllZero(s: seq<Img>, focalId: nat)
    ensures ShiftAll(s, focalId, 0.0) == s
  {
  }

  /** n ticks with offset d move every non-focal image by n * d in all. */
  lemma {:induction false} TicksAddUp(s: seq<Img>, focalId: nat, d: real, n: nat)
    ensures Ticks(s, focalId, d, n) == ShiftAll(s, focalId, (n as real) * d)
    decreases n
  {
    if n == 0 {
      ShiftAllZero(s, focalId);
    } else {
      var m: nat := n - 1;
      TicksAddUp(s, focalId, d, m);
      assert Ticks(s, focalId, d, n) == ShiftAll(ShiftAll(s, focalId, (m as real) * d), focalId, d);
      ShiftAllCompose(s, focalId, (m as real) * d, d);
      var total := (m as real) * d + d;
      assert total == (n as real) * d;
      assert Ticks(s, focalId, d, n) == ShiftAll(s, focalId, total);
    }
  }

  /**
   * As many to-gallery ticks as from-gallery ticks, around the same focal
   * image, put every image back where it was.
   */
  lemma {:induction false} ToGalleryUndoesFromGallery(s: seq<Img>, focalId: nat, n: nat)
    ensures Ticks(Ticks(s, focalId, -GalleryOffset, n), focalId, GalleryOffset, n) == s
  {
    TicksAddUp(s, focalId, -GalleryOffset, n);
    TicksAddUp(ShiftAll(s, focalId, (n as real) * -GalleryOffset), focalId, GalleryOffset, n);
    ShiftAllCompose(s, focalId, (n as real) * -GalleryOffset, (n as real) * GalleryOffset);
    ShiftAllZero(s, focalId);
  }

  /** After the from-gallery transition settles, an image is visible exactly when it is the focal one and was visible. */
  lemma HideAllButLeavesFocal(s: seq<Img>, focalId: nat)
    ensures forall i :: 0 <= i < |s| ==> (HideAllBut(s, focalId)[i].visible <==> i == focalId && s[i].visible)
    ensures Positions(HideAllBut(s, focalId)) == Positions(s)
  {
  }
}
