/**
 * The gallery viewer's state machine: one object holding the images, the
 * load queue, the camera and the transition flags, updated in place by
 * the load-completion handler and by the per-tick driver.
 */
module GalleryViewer {
  import opened Layout
  import opened LoadQueue
  import opened Animation
  import opened CameraBounds

  datatype Option<T> = None | Some(value: T)

  /** The camera object shared with the input controller: position and field of view. */
  class Camera {
    var x: real
    var y: real
    var fov: real

    /** Placed at the origin (seen from z = 400, not modelled) at the widest zoom. */
    constructor ()
      ensures x == 0.0 && y == 0.0 && fov == FovWide
    {
      x, y, fov := 0.0, 0.0, FovWide;
    }
  }

  /** Image i has id i and a non-negative half-width, the half-width of the i-th released entry. */
  ghost predicate ImagesMatch(imgs: seq<Img>, rel: seq<Entry>)
  {
    && |rel| == |imgs|
    && forall i :: 0 <= i < |imgs| ==>
         imgs[i].id == i && imgs[i].halfWidth >= 0.0 && rel[i].halfWidth == imgs[i].halfWidth
  }

  /**
   * Tickets are issued 0, 1, 2, ... by the add calls; the released
   * entries hold the first tickets in order and the queued entries the
   * rest, also in order, each with a non-negative half-width.
   */
  ghost predicate QueueInOrder(rel: seq<Entry>, q: seq<Entry>, next: nat)
  {
    && |rel| + |q| == next
    && (forall i :: 0 <= i < |rel| ==> rel[i].ticket == i)
    && (forall i :: 0 <= i < |q| ==> q[i].ticket == |rel| + i && q[i].halfWidth >= 0.0)
  }

  lemma LoadKeepsMatch(imgs: seq<Img>, rel: seq<Entry>, e: Entry)
    requires ImagesMatch(imgs, rel) && e.halfWidth >= 0.0
    ensures ImagesMatch(imgs + [Placed(imgs, e.halfWidth)], rel + [e])
  {
  }

  lemma ShiftKeepsMatch(imgs: seq<Img>, rel: seq<Entry>, focalId: nat, d: real)
    requires ImagesMatch(imgs, rel)
    ensures ImagesMatch(ShiftAll(imgs, focalId, d), rel)
  {
  }

  lemma HideKeepsMatch(imgs: seq<Img>, rel: seq<Entry>, focalId: nat)
    requires ImagesMatch(imgs, rel)
    ensures ImagesMatch(HideAllBut(imgs, focalId), rel)
  {
  }

  lemma ShowKeepsMatch(imgs: seq<Img>, rel: seq<Entry>)
    requires ImagesMatch(imgs, rel)
    ensures ImagesMatch(AllVisible(imgs), rel)
  {
  }

  /** One more release in the drain loop is one more load step onto what the earlier releases built. */
  lemma DrainStep(images0: seq<Img>, width0: real, drained: seq<Entry>, e: Entry, imgs: seq<Img>, width: real)
    requires imgs == LoadAll(images0, Widths(drained))
    requires width == WidthAfterAll(images0, width0, Widths(drained))
    ensures imgs + [Placed(imgs, e.halfWidth)] == LoadAll(images0, Widths(drained + [e]))
    ensures WidthAfter(imgs, width, e.halfWidth) == WidthAfterAll(images0, width0, Widths(drained + [e]))
  {
    WidthsAppend(drained, e);
    LoadAllStep(images0, width0, Widths(drained), e.halfWidth);
  }

  /** Draining a prefix of an ordered queue onto settled images keeps them settled and never shrinks the width. */
  lemma DrainKeepsSettled(imgs: seq<Img>, rel: seq<Entry>, width: real, q: seq<Entry>, next: nat, drained: seq<Entry>)
    requires ImagesMatch(imgs, rel) && QueueInOrder(rel, q, next) && drained <= q
    requires Settled(imgs, width)
    ensures Settled(LoadAll(imgs, Widths(drained)), WidthAfterAll(imgs, width, Widths(drained)))
    ensures WidthAfterAll(imgs, width, Widths(drained)) >= width
  {
    assert NonNegative(HalfWidths(imgs));
    assert NonNegative(Widths(drained));
    LoadAllKeepsSettled(imgs, width, Widths(drained));
  }

  /** Two image sequences that match the same released entries have the same half-widths. */
  lemma MatchSameWidths(a: seq<Img>, b: seq<Img>, rel: seq<Entry>)
    requires ImagesMatch(a, rel) && ImagesMatch(b, rel)
    ensures HalfWidths(a) == HalfWidths(b)
  {
  }

  lemma AddKeepsOrder(rel: seq<Entry>, q: seq<Entry>, next: nat)
    requires QueueInOrder(rel, q, next)
    ensures QueueInOrder(rel, q + [Entry(next, true, 0.0)], next + 1)
    ensures next !in Tickets(q)
  {
  }

  lemma MarkKeepsOrder(rel: seq<Entry>, q: seq<Entry>, next: nat, ticket: nat, half: real)
    requires QueueInOrder(rel, q, next) && half >= 0.0
    ensures QueueInOrder(rel, MarkLoaded(q, ticket, half), next)
  {
  }

  lemma ReleaseHeadKeepsOrder(rel: seq<Entry>, q: seq<Entry>, next: nat)
    requires QueueInOrder(rel, q, next) && q != []
    ensures QueueInOrder(rel + [q[0]], q[1..], next)
    ensures q[0].halfWidth >= 0.0
  {
  }

  /**
   * One frame's transition tick, from the images `imgs`, frame counter
   * `frames` and flags `to`/`from` left by the mode detector, around the
   * focal image `f`, to `imgs'`, `frames'`, `to'` and `from'`: a running
   * from-gallery transition slides the images out and counts up, settling
   * (every other image hidden, transition over) at FrameBudget; a running
   * to-gallery transition slides them back and counts down, ending at 0;
   * with neither running nothing changes. No tick starts a transition.
   */
  ghost predicate Ticked(imgs: seq<Img>, frames: int, to: bool, from: bool, f: Option<nat>,
                         imgs': seq<Img>, frames': int, to': bool, from': bool)
  {
    if from then
      && f.Some? && !to'
      && var moved := ShiftAll(imgs, f.value, -GalleryOffset);
         var done := frames + 1 >= FrameBudget;
         && imgs' == (if done then HideAllBut(moved, f.value) else moved)
         && frames' == (if done then FrameBudget else frames + 1)
         && from' == !done
    else if to then
      && f.Some? && !from'
      && imgs' == ShiftAll(imgs, f.value, GalleryOffset)
      && frames' == (if frames - 1 <= 0 then 0 else frames - 1)
      && to' == (frames - 1 > 0)
    else
      imgs' == imgs && frames' == frames && !to' && !from'
  }

  class Gallery {
    /** Loaded images, in release order; image i has id i. */
    var images: seq<Img>
    /** Fetches not yet handed to the layout engine, in the order they were added. */
    var queue: seq<Entry>
    /** The ticket the next added fetch receives. */
    var nextTicket: nat

    /** Written by the input controller and clamped here. */
    const camera: Camera

    var galleryMode: bool
    /** Id of the focal image (the gallery holds a reference to it; ids never change). */
    var focal: Option<nat>
    var galleryWidth: real
    var toGallery: bool
    var fromGallery: bool
    var animateFrames: int

    /** The entries handed to the layout engine so far, in the order they were handed on. */
    ghost var released: seq<Entry>

    /** Ids are dense and zero-based, and image i has the half-width of the i-th released entry. */
    ghost predicate ImagesValid()
      reads this
    {
      ImagesMatch(images, released)
    }

    /**
     * At most one transition runs at a time, a transition always has a
     * focal image, the focal view with several images has one, gallery
     * mode needs more than one image, and the frame counter stays within
     * [0, FrameBudget].
     */
    ghost predicate ModeValid()
      reads this
    {
      && (focal.Some? ==> focal.value < |images|)
      && !(toGallery && fromGallery)
      && ((toGallery || fromGallery) ==> focal.Some?)
      && (!galleryMode && |images| > 1 ==> focal.Some?)
      && (|images| <= 1 ==> !galleryMode && !toGallery && !fromGallery)
      && 0 <= animateFrames <= FrameBudget
    }

    /** The released and queued entries hold the tickets issued so far, in issue order. */
    ghost predicate QueueOrder()
      reads this
    {
      QueueInOrder(released, queue, nextTicket)
    }

    /** Between events the head of the queue, if any, is still loading. */
    ghost predicate Valid()
      reads this
    {
      ImagesValid() && ModeValid() && QueueOrder() && (queue == [] || queue[0].loading)
    }

    /** A fresh viewer: no images, nothing queued, focal view, camera at the widest zoom. */
    constructor ()
      ensures Valid() && Settled(images, galleryWidth)
      ensures images == [] && queue == [] && focal == None
      ensures !galleryMode && !toGallery && !fromGallery
      ensures galleryWidth == 0.0 && animateFrames == 0
      ensures fresh(camera) && camera.x == 0.0 && camera.y == 0.0 && camera.fov == FovWide
    {
      images, queue, nextTicket := [], [], 0;
      camera := new Camera();
      galleryMode, focal := false, None;
      galleryWidth := 0.0;
      toGallery, fromGallery, animateFrames := false, false, 0;
      released := [];
    }

    /** Queue a new fetch: it goes to the tail, still loading. */
    method Add() returns (ticket: nat)
      requires Valid()
      modifies this`queue, this`nextTicket
      ensures Valid()
      ensures ticket == old(nextTicket) && nextTicket == ticket + 1
      ensures queue == old(queue) + [Entry(ticket, true, 0.0)]
      ensures ticket !in Tickets(old(queue))
    {
      AddKeepsOrder(released, queue, nextTicket);
      ticket := nextTicket;
      queue := queue + [Entry(ticket, true, 0.0)];
      nextTicket := nextTicket + 1;
    }

    /**
     * Hand one loaded image to the layout engine: it gets the next id and
     * is placed one packing step right of the last image, wherever that
     * image is now; from the second image on, gallery mode is switched on.
     */
    method Load(e: Entry)
      requires ImagesValid() && ModeValid()
      requires e.halfWidth >= 0.0
      modifies this`images, this`galleryMode, this`galleryWidth, this`released
      ensures ImagesValid() && ModeValid()
      ensures images == old(images) + [Placed(old(images), e.halfWidth)]
      ensures galleryWidth == WidthAfter(old(images), old(galleryWidth), e.halfWidth)
      ensures galleryMode == (old(galleryMode) || |old(images)| >= 1)
      ensures released == old(released) + [e]
    {
      LoadKeepsMatch(images, released, e);
      var n := |images|;
      var x := 0.0;
      if n >= 1 {
        galleryMode := true;
        x := NextX(images[n - 1].x, images[n - 1].halfWidth, e.halfWidth);
        galleryWidth := x;
      }
      images := images + [Img(n, e.halfWidth, x, true)];
      released := released + [e];
    }

    /**
     * The fetch with this ticket completed with the given half-width:
     * its entry stops loading and the queue is drained.
     */
    method Complete(ticket: nat, halfWidth: real)
      requires Valid()
      requires halfWidth >= 0.0
      modifies this`queue, this`images, this`galleryMode, this`galleryWidth, this`released
      ensures Valid()
      ensures var q := MarkLoaded(old(queue), ticket, halfWidth);
              var n := ReadyPrefix(q);
              && queue == q[n..]
              && released == old(released) + q[..n]
              && images == LoadAll(old(images), Widths(q[..n]))
              && galleryWidth == WidthAfterAll(old(images), old(galleryWidth), Widths(q[..n]))
              && galleryMode == (old(galleryMode) || (n > 0 && |images| > 1))
      ensures Settled(old(images), old(galleryWidth)) ==> Settled(images, galleryWidth) && galleryWidth >= old(galleryWidth)
    {
      MarkKeepsOrder(released, queue, nextTicket, ticket, halfWidth);
      queue := MarkLoaded(queue, ticket, halfWidth);
      ghost var q, released0, images0, width0 := queue, released, images, galleryWidth;
      ghost var drained := Drain();
      ReadyPrefixSplit(drained, queue);
      if Settled(images0, width0) {
        DrainKeepsSettled(images0, released0, width0, q, nextTicket, drained);
      }
    }

    /**
     * While the head of the queue is no longer loading, take it off the
     * queue and hand it to Load: the longest loaded prefix is released,
     * in queue order, and the rest stays queued as it was.
     */
    method Drain() returns (ghost drained: seq<Entry>)
      requires ImagesValid() && ModeValid() && QueueOrder()
      modifies this`queue, this`images, this`galleryMode, this`galleryWidth, this`released
      ensures Valid()
      ensures old(queue) == drained + queue
      ensures forall j :: 0 <= j < |drained| ==> !drained[j].loading
      ensures released == old(released) + drained
      ensures images == LoadAll(old(images), Widths(drained))
      ensures galleryWidth == WidthAfterAll(old(images), old(galleryWidth), Widths(drained))
      ensures galleryMode == (old(galleryMode) || (|drained| > 0 && |images| > 1))
    {
      drained := [];
      ghost var queue0, released0, images0 := queue, released, images;
      ghost var width0, mode0 := galleryWidth, galleryMode;
      while |queue| > 0 && !queue[0].loading
        invariant queue0 == drained + queue
        invariant forall j :: 0 <= j < |drained| ==> !drained[j].loading
        invariant released == released0 + drained
        invariant ImagesValid() && ModeValid() && QueueOrder()
        invariant images == LoadAll(images0, Widths(drained))
        invariant galleryWidth == WidthAfterAll(images0, width0, Widths(drained))
        invariant galleryMode == (mode0 || (|drained| > 0 && |images| > 1))
        decreases |queue|
      {
        MoveHead(drained, queue);
        AppendOne(released0, drained, queue[0]);
        var e := ReleaseHead(images0, width0, drained);
        drained := drained + [e];
      }
    }

    /**
     * One turn of the drain loop: the head of the queue, already loaded,
     * comes off the queue and is handed to Load, one more load step onto
     * what the earlier turns (`drained`) built from `images0`.
     */
    method ReleaseHead(ghost images0: seq<Img>, ghost width0: real, ghost drained: seq<Entry>) returns (e: Entry)
      requires ImagesValid() && ModeValid() && QueueOrder()
      requires queue != [] && !queue[0].loading
      requires images == LoadAll(images0, Widths(drained))
      requires galleryWidth == WidthAfterAll(images0, width0, Widths(drained))
      modifies this`queue, this`images, this`galleryMode, this`galleryWidth, this`released
      ensures ImagesValid() && ModeValid() && QueueOrder()
      ensures e == old(queue[0]) && queue == old(queue[1..]) && released == old(released) + [e]
      ensures images == LoadAll(images0, Widths(drained + [e]))
      ensures galleryWidth == WidthAfterAll(images0, width0, Widths(drained + [e]))
      ensures galleryMode == (old(galleryMode) || |images| > 1)
    {
      ReleaseHeadKeepsOrder(released, queue, nextTicket);
      e := queue[0];
      DrainStep(images0, width0, drained, e, images, galleryWidth);
      queue := queue[1..];
      Load(e);
    }

    /**
     * Camera bounds and the mode detector. In gallery mode the camera is
     * kept over the strip; the zoom is kept within [FovNarrow, FovWide];
     * zooming fully out with more than one image enters gallery mode and
     * starts the to-gallery transition; zooming in at all leaves it,
     * choosing the image nearest the camera as the focal one, and starts
     * the from-gallery transition.
     */
    method SetCamera()
      requires Valid()
      modifies camera, this`galleryMode, this`images, this`focal, this`toGallery, this`fromGallery
      ensures Valid()
      ensures old(galleryMode) ==> camera.x == ClampPan(old(camera.x), galleryWidth) && camera.y == 0.0
      ensures !old(galleryMode) ==> camera.x == old(camera.x) && camera.y == old(camera.y)
      ensures camera.fov == ClampFov(old(camera.fov))
      ensures EntersGallery(old(camera.fov), old(galleryMode), |old(images)|) ==>
                && galleryMode && toGallery && !fromGallery
                && images == AllVisible(old(images)) && focal == old(focal)
      ensures LeavesGallery(old(camera.fov), old(galleryMode), |old(images)|) ==>
                && !galleryMode && fromGallery && !toGallery
                && images == old(images) && focal.Some? && IsNearest(images, camera.x, focal.value)
      ensures !EntersGallery(old(camera.fov), old(galleryMode), |old(images)|) && !LeavesGallery(old(camera.fov), old(galleryMode), |old(images)|) ==>
                && galleryMode == old(galleryMode) && toGallery == old(toGallery) && fromGallery == old(fromGallery)
                && images == old(images) && focal == old(focal)
    {
      if galleryMode {
        if camera.x < 0.0 {
          camera.x := 0.0;
        }
        if camera.x > galleryWidth {
          camera.x := galleryWidth;
        }
        camera.y := 0.0;
      }

      if camera.fov < FovNarrow {
        camera.fov := FovNarrow;
      }

      if camera.fov >= FovWide {
        if !galleryMode && |images| > 1 {
          EnterGallery();
        }
        camera.fov := FovWide;
      } else {
        if galleryMode && |images| > 1 {
          LeaveGallery();
        }
      }
    }

    /** The switch into gallery mode: every image shown, the to-gallery transition started. */
    method EnterGallery()
      requires Valid() && !galleryMode && |images| > 1
      modifies this`galleryMode, this`images, this`toGallery, this`fromGallery
      ensures Valid()
      ensures galleryMode && toGallery && !fromGallery
      ensures images == AllVisible(old(images))
    {
      ShowKeepsMatch(images, released);
      galleryMode := true;
      ShowAll();
      fromGallery := false;
      toGallery := true;
    }

    /**
     * The switch to the focal view: the image nearest the camera becomes
     * the focal one and the from-gallery transition starts.
     */
    method LeaveGallery()
      requires Valid() && galleryMode && |images| > 1
      modifies this`galleryMode, this`focal, this`toGallery, this`fromGallery
      ensures Valid()
      ensures !galleryMode && fromGallery && !toGallery
      ensures focal.Some? && IsNearest(images, camera.x, focal.value)
    {
      galleryMode := false;
      var nearest := NearestImage(images, camera.x);
      focal := Some(images[nearest].id);
      toGallery := false;
      fromGallery := true;
    }

    /** Make every image visible (the loop of the switch into gallery mode). */
    method ShowAll()
      modifies this`images
      ensures images == AllVisible(old(images))
    {
      for i := 0 to |images|
        invariant |images| == |old(images)|
        invariant forall j :: 0 <= j < i ==> images[j] == old(images)[j].(visible := true)
        invariant forall j :: i <= j < |images| ==> images[j] == old(images)[j]
      {
        images := images[i := images[i].(visible := true)];
      }
    }

    /**
     * One tick of the to-gallery transition: images slide back towards
     * the packing around the focal image, and the frame counter counts
     * down; at 0 the transition ends.
     */
    method AnimateToGallery()
      requires Valid() && focal.Some?
      modifies this`images, this`animateFrames, this`toGallery
      ensures Valid()
      ensures images == ShiftAll(old(images), focal.value, GalleryOffset)
      ensures animateFrames == (if old(animateFrames) - 1 <= 0 then 0 else old(animateFrames) - 1)
      ensures toGallery == (old(toGallery) && old(animateFrames) - 1 > 0)
    {
      ShiftKeepsMatch(images, released, focal.value, GalleryOffset);
      ShiftImages(GalleryOffset);
      animateFrames := animateFrames - 1;
      if animateFrames <= 0 {
        animateFrames := 0;
        toGallery := false;
      }
    }

    /**
     * One tick of the from-gallery transition: images slide away from
     * the focal image and the frame counter counts up; at FrameBudget
     * every image but the focal one is hidden and the transition ends.
     */
    method AnimateFromGallery()
      requires Valid() && focal.Some?
      modifies this`images, this`animateFrames, this`fromGallery
      ensures Valid()
      ensures var moved := ShiftAll(old(images), focal.value, -GalleryOffset);
              var done := old(animateFrames) + 1 >= FrameBudget;
              && images == (if done then HideAllBut(moved, focal.value) else moved)
              && animateFrames == (if done then FrameBudget else old(animateFrames) + 1)
              && fromGallery == (old(fromGallery) && !done)
    {
      ShiftKeepsMatch(images, released, focal.value, -GalleryOffset);
      ShiftImages(-GalleryOffset);
      animateFrames := animateFrames + 1;
      if animateFrames >= FrameBudget {
        HideKeepsMatch(images, released, focal.value);
        HideOthers();
        animateFrames := FrameBudget;
        fromGallery := false;
      }
    }

    /**
     * The slide loop of both transitions: every image left of the focal
     * one moves by `d`, every image right of it by `-d`, the focal image
     * stays (d = GalleryOffset into the gallery, -GalleryOffset out of it).
     */
    method ShiftImages(d: real)
      requires focal.Some?
      modifies this`images
      ensures images == ShiftAll(old(images), focal.value, d)
    {
      var f := focal.value;
      for i := 0 to |images|
        invariant |images| == |old(images)|
        invariant forall j :: 0 <= j < i ==> images[j] == Shift(old(images)[j], f, d)
        invariant forall j :: i <= j < |images| ==> images[j] == old(images)[j]
      {
        var offset := images[i].id - f;
        if offset < 0 {
          images := images[i := images[i].(x := images[i].x + d)];
        } else if offset > 0 {
          images := images[i := images[i].(x := images[i].x - d)];
        }
      }
    }

    /** The settle loop of the from-gallery transition: every image whose index is not the focal id is hidden. */
    method HideOthers()
      requires focal.Some?
      modifies this`images
      ensures images == HideAllBut(old(images), focal.value)
    {
      var f := focal.value;
      for i := 0 to |images|
        invariant |images| == |old(images)|
        invariant forall j :: 0 <= j < i ==> images[j] == (if j != f then old(images)[j].(visible := false) else old(images)[j])
        invariant forall j :: i <= j < |images| ==> images[j] == old(images)[j]
      {
        if i != f {
          images := images[i := images[i].(visible := false)];
        }
      }
    }

    /**
     * One frame: the input controller's writes to the camera (given here
     * as the raw values), then the bounds and mode detector, then at most
     * one transition tick; rendering reads the state and changes nothing.
     */
    method Update(rawX: real, rawY: real, rawFov: real)
      requires Valid()
      modifies camera, this`galleryMode, this`images, this`focal, this`toGallery,
               this`fromGallery, this`animateFrames
      ensures Valid()
      ensures camera.fov == ClampFov(rawFov)
      ensures old(galleryMode) ==> camera.x == ClampPan(rawX, galleryWidth) && camera.y == 0.0
      ensures !old(galleryMode) ==> camera.x == rawX && camera.y == rawY
      ensures |images| == |old(images)| && HalfWidths(images) == HalfWidths(old(images))
      ensures var enter := EntersGallery(rawFov, old(galleryMode), |old(images)|);
              var leave := LeavesGallery(rawFov, old(galleryMode), |old(images)|);
              && galleryMode == (if enter then true else if leave then false else old(galleryMode))
              && (leave ==> focal.Some? && IsNearest(old(images), camera.x, focal.value))
              && (!leave ==> focal == old(focal))
              && Ticked(if enter then AllVisible(old(images)) else old(images), old(animateFrames),
                        if enter then true else if leave then false else old(toGallery),
                        if enter then false else if leave then true else old(fromGallery),
                        focal, images, animateFrames, toGallery, fromGallery)
    {
      camera.x, camera.y, camera.fov := rawX, rawY, rawFov;
      SetCamera();
      Tick();
      MatchSameWidths(old(images), images, released);
    }

    /** The transition part of a frame: a from-gallery tick if one runs, then a to-gallery tick if one runs. */
    method Tick()
      requires Valid()
      modifies this`images, this`animateFrames, this`toGallery, this`fromGallery
      ensures Valid()
      ensures Ticked(old(images), old(animateFrames), old(toGallery), old(fromGallery), focal,
                     images, animateFrames, toGallery, fromGallery)
    {
      if fromGallery {
        AnimateFromGallery();
      }
      if toGallery {
        AnimateToGallery();
      }
    }
  }
}
