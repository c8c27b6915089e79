/**
 * Worked runs of the gallery viewer: concrete event sequences whose
 * outcome follows from the contracts of the viewer's methods alone.
 */
module GalleryScenarios {
  import opened Layout
  import opened LoadQueue
  import opened GalleryViewer
  import opened CameraBounds

  /**
   * Three fetches are added, and they complete in the order second,
   * third, first: nothing is laid out until the first one completes,
   * and then all three are laid out in the order they were added.
   */
  method OutOfOrderCompletions() returns (g: Gallery)
    ensures g.Valid() && g.queue == []
    ensures HalfWidths(g.images) == [10.0, 20.0, 30.0]
    ensures Positions(g.images) == [0.0, 130.0, 280.0]
    ensures g.galleryWidth == 280.0 && g.galleryMode
  {
    g := new Gallery();
    var a := g.Add();
    var b := g.Add();
    var c := g.Add();
    assert g.queue == [Entry(0, true, 0.0), Entry(1, true, 0.0), Entry(2, true, 0.0)];
    CompleteBehindHead(g, b, 20.0);
    CompleteBehindHead(g, c, 30.0);
    ReleaseAllThree(g, a);
  }

  /** A completion for an entry behind a still-loading head only marks that entry. */
  method CompleteBehindHead(g: Gallery, ticket: nat, halfWidth: real)
    requires g.Valid() && halfWidth >= 0.0
    requires g.queue != [] && g.queue[0].ticket != ticket
    modifies g`queue, g`images, g`galleryMode, g`galleryWidth, g`released
    ensures g.Valid()
    ensures g.queue == MarkLoaded(old(g.queue), ticket, halfWidth)
    ensures g.images == old(g.images) && g.galleryWidth == old(g.galleryWidth) && g.galleryMode == old(g.galleryMode)
  {
    CompletionBehindHeadWaits(g.queue, ticket, halfWidth);
    g.Complete(ticket, halfWidth);
  }

  /** The first fetch completes last: all three are laid out, in the order they were added. */
  method ReleaseAllThree(g: Gallery, a: nat)
    requires g.Valid() && a == 0 && g.images == [] && g.galleryWidth == 0.0
    requires g.queue == [Entry(0, true, 0.0), Entry(1, false, 20.0), Entry(2, false, 30.0)]
    modifies g`queue, g`images, g`galleryMode, g`galleryWidth, g`released
    ensures g.Valid() && g.queue == []
    ensures g.images == [Img(0, 10.0, 0.0, true), Img(1, 20.0, 130.0, true), Img(2, 30.0, 280.0, true)]
    ensures g.galleryWidth == 280.0 && g.galleryMode
  {
    ghost var q := [Entry(0, false, 10.0), Entry(1, false, 20.0), Entry(2, false, 30.0)];
    assert MarkLoaded(g.queue, a, 10.0) == q;
    ReadyPrefixSplit(q, []);
    assert q + [] == q;
    assert Widths(q) == [10.0, 20.0, 30.0];
    ThreeLoads();
    g.Complete(a, 10.0);
  }

  /**
   * A gallery with a single image stays in the focal view: the image is
   * laid out at x = 0, the width stays 0, and even zooming fully out
   * starts no transition and moves nothing.
   */
  method SingleImage() returns (g: Gallery)
    ensures g.Valid() && g.queue == []
    ensures g.images == [Img(0, 10.0, 0.0, true)]
    ensures g.galleryWidth == 0.0
    ensures !g.galleryMode && !g.toGallery && !g.fromGallery
  {
    g := new Gallery();
    var a := g.Add();
    ghost var q := [Entry(0, false, 10.0)];
    assert MarkLoaded(g.queue, a, 10.0) == q;
    ReadyPrefixSplit(q, []);
    assert q + [] == q;
    assert Widths(q) == [10.0];
    g.Complete(a, 10.0);
    g.Update(0.0, 0.0, FovWide);
  }

  /** The packing of half-widths 10, 20 and 30 onto an empty gallery. */
  lemma ThreeLoads()
    ensures LoadAll([], [10.0, 20.0, 30.0]) == [Img(0, 10.0, 0.0, true), Img(1, 20.0, 130.0, true), Img(2, 30.0, 280.0, true)]
  {
  }

  /**
   * Leaving the gallery with the camera exactly halfway between the first
   * two images (x = 0 and x = 140) picks the first one, as the stable
   * sort by distance does.
   */
  method TieGoesToLowerIndex() returns (k: nat)
    ensures k == 0
  {
    var s := [Img(0, 20.0, 0.0, true), Img(1, 20.0, 140.0, true), Img(2, 20.0, 280.0, true)];
    k := NearestImage(s, 70.0);
    assert IsNearest(s, 70.0, 0);
    NearestIsUnique(s, 70.0, k, 0);
  }

  /** Images at x = 0, 140 and 280 with the camera at x = 120: the image at 140 becomes the focal one. */
  method NearestOfThree() returns (k: nat)
    ensures k == 1
  {
    var s := [Img(0, 20.0, 0.0, true), Img(1, 20.0, 140.0, true), Img(2, 20.0, 280.0, true)];
    k := NearestImage(s, 120.0);
    assert IsNearest(s, 120.0, 1);
    NearestIsUnique(s, 120.0, k, 1);
  }
}
