# Gallery viewer state machine, modelled in Dafny

This project models the core of `GALLERY.Gallery` (src/Gallery.js): a
browser image gallery that lays images out in one horizontal strip and
lets the user zoom between that strip (the gallery mode) and a single
focal image. With the rendering and browser plumbing taken away, the
object is a state machine over a handful of fields, updated in place:

- **the load queue.** `add` queues an image fetch, flagged as loading. When any fetch completes, its flag is cleared. The queue is then drained: while the head is no longer loading, it is shifted off and handed to `load`. Images therefore reach the layout in the order they were added, whatever order the fetches complete in.
- **the layout engine.** `load` gives the new image the next id. The first image goes at x = 0. Every later image goes one gap (`GALLERY_DIST` = 100) plus both half-widths to the right of the last image. The gallery width becomes that x, and from the second image on, gallery mode is switched on.
- **the camera bounds and mode detector.** `setCamera` keeps the camera over the strip in gallery mode and the field of view within [20, 75]. At the widest zoom it switches into gallery mode: all images are shown and the to-gallery transition starts. At any narrower zoom it switches out: the image nearest the camera becomes the focal one and the from-gallery transition starts.
- **the transition animation.** Each tick of `animateToGallery` or `animateFromGallery` slides every non-focal image by `GALLERY_OFFSET` = 50, towards or away from the focal image. The tick also steps a frame counter. When the from-gallery run settles at 60 frames, every image but the focal one is hidden. `update` runs the mode detector, then at most one transition tick.

The Dafny model is the class `GalleryViewer.Gallery`. Its fields are the
source object's own:
- `images`, a sequence of `Img(id, halfWidth, x, visible)`;
- `queue`, a sequence of `Entry(ticket, loading, halfWidth)`;
- `galleryMode`, `focal`, `galleryWidth`, `toGallery`, `fromGallery` and `animateFrames`;
- the `camera` object, with x, y and fov.

Each source method is a method with a `modifies` frame, and its loops carry their
invariants. The pure pieces have their own modules, each with its properties proved:
- `Layout`: the packing formula;
- `LoadQueue`: marking a fetch loaded, and the drained prefix;
- `Animation`: one slide tick and its inverse;
- `CameraBounds`: the clamps and the nearest-image choice.

The class invariant `Valid()` holds between events. It states:
- the load order: the tickets handed to the layout so far are 0, 1, 2, … in order, and image i has the half-width of the i-th of them;
- the head of the queue, if any, is still loading;
- at most one transition runs, and any transition has a focal image;
- gallery mode needs more than one image;
- the frame counter stays in [0, 60].

## Model

| member | source | states |
|---|---|---|
| GalleryViewer.Camera.constructor | src/Gallery.js:71-72 | The camera starts at the origin of the strip, at the widest field of view (75). |
| GalleryViewer.Gallery.constructor | src/Gallery.js:14-25 | A new viewer has no images, an empty queue, no focal image, gallery mode and both transitions off, width 0, frame counter 0. The class invariant holds and the (empty) layout is settled. |
| GalleryViewer.Gallery.Add | src/Gallery.js:222-230 | The new fetch is appended at the tail of the queue, still loading, under a ticket no queued entry holds. Nothing else changes, and the invariant (issue order, loading head) is kept. |
| GalleryViewer.Gallery.Complete | src/Gallery.js:233-241 | Only the completed entry stops loading. Exactly the longest loaded prefix of the queue is released, in queue order, and the rest stays queued unchanged. The images become the old images with the released entries' half-widths loaded one after another. The width and gallery mode follow those loads. The invariant holds afterwards, so the head is loading or the queue is empty. A settled layout stays settled and its width does not shrink. |
| GalleryViewer.Gallery.Drain | src/Gallery.js:238-240 | The loop hands on entries while the head is loaded. What it drained plus what remains is the old queue. Every drained entry is loaded, and the released entries grow by exactly the drained ones. The images and width are the drained loads applied to the old images, and gallery mode is on once more than one image was loaded. |
| GalleryViewer.Gallery.ReleaseHead | src/Gallery.js:239 | One shift-and-load step: the head leaves the queue, is released and is loaded as one more load step, keeping the load-order invariant. |
| GalleryViewer.Gallery.Load | src/Gallery.js:247-273 | The image is appended with id = previous image count, at x = 0 if first. Otherwise it is placed at the last image's x plus both half-widths plus 100, and the width becomes that x. Gallery mode is switched on from the second image on, without touching the transition flags. Earlier images are untouched. |
| GalleryViewer.Gallery.SetCamera | src/Gallery.js:84-142 | If gallery mode was on, the camera's x is clamped to [0, width] and y is set to 0; otherwise neither is touched. The fov is clamped to [20, 75]. With fov ≥ 75, mode off and more than one image, it enters: mode on, all images visible, to-gallery started, from-gallery cleared. With fov < 75, mode on and more than one image, it leaves: mode off, the focal image is the nearest one (lowest index on ties), from-gallery started, to-gallery cleared. Otherwise flags, images and focal are unchanged. |
| GalleryViewer.Gallery.EnterGallery | src/Gallery.js:105-114 | Gallery mode is on, every image becomes visible with nothing else about it changed, and the to-gallery transition replaces any from-gallery one. |
| GalleryViewer.Gallery.LeaveGallery | src/Gallery.js:118-138 | Gallery mode is off, the focal image is the image nearest the camera's x (first on ties), and the from-gallery transition replaces any to-gallery one. |
| GalleryViewer.Gallery.ShowAll | src/Gallery.js:108-110 | Every image is made visible; ids, widths and positions are unchanged. |
| GalleryViewer.Gallery.AnimateToGallery | src/Gallery.js:160-186 | Images with a lower id than the focal one move +50, images with a higher id move −50, and the focal one stays. The counter goes down by one, is clamped at 0, and the transition ends there. Visibility, ids and widths are unchanged. |
| GalleryViewer.Gallery.AnimateFromGallery | src/Gallery.js:191-217 | The mirror slide (lower ids −50, higher ids +50), and the counter goes up by one. At 60 the counter is clamped to 60, every image whose index is not the focal id is hidden, the focal image keeps its visibility, and the transition ends. |
| GalleryViewer.Gallery.ShiftImages | src/Gallery.js:163-171 | The slide loop (shared with src/Gallery.js:194-202 by the sign of d): each image equals its one-tick shift around the focal id. |
| GalleryViewer.Gallery.HideOthers | src/Gallery.js:209-213 | Every image whose index differs from the focal id is hidden; the focal image and all positions are unchanged. |
| GalleryViewer.Gallery.Update | src/Gallery.js:279-296 | After a frame the fov is the raw fov clamped to [20, 75]. If gallery mode was on, x is the raw x clamped to [0, width] and y is 0; otherwise x and y are the raw values. With raw fov ≥ 75, mode off and more than one image, gallery mode comes on, every image is shown, and the first to-gallery tick runs on the shown images. With raw fov < 75, mode on and more than one image, gallery mode goes off, the focal image is the one nearest the clamped x (first on ties), and the first from-gallery tick runs. Otherwise mode and focal are kept and the running transition, if any, takes one tick. Widths and image count never change. |
| GalleryViewer.Gallery.Tick | src/Gallery.js:284-292 | At most one transition tick runs per frame. A running from-gallery tick slides the images out, counts up by one and, on reaching 60, hides every image but the focal one, clamps the counter to 60 and ends. A running to-gallery tick slides the images back, counts down by one and, on reaching 0, clamps the counter to 0 and ends. No tick starts a transition, and with none running nothing changes. |
| LoadQueue.MarkLoaded | src/Gallery.js:235 | The queue after a completion: same tickets in the same order; only the entries with that ticket stop loading and carry the reported half-width. |
| LoadQueue.ReadyPrefix | src/Gallery.js:238 | The number of entries the drain releases: all entries before it are loaded, and the entry at it, if any, is loading. |
| LoadQueue.ReadyPrefixSplit | src/Gallery.js:238-240 | A queue made of loaded entries followed by nothing or a loading entry drains exactly those loaded entries. |
| LoadQueue.CompletionBehindHeadWaits | src/Gallery.js:235-240 | A completion for any entry other than a still-loading head releases nothing. |
| LoadQueue.CompletionOfHeadReleases | src/Gallery.js:235-240 | A completion for the head releases the head and every already-loaded entry right behind it. |
| Layout.PackedStep | src/Gallery.js:265-268 | In the packing, each image after the first sits at the previous x plus both half-widths plus 100. |
| Layout.PackedIncreasing | src/Gallery.js:267 | With non-negative half-widths, positions strictly increase with id, at least 100 apart. |
| Layout.ExtentGrows | src/Gallery.js:268 | Loading onto a packed layout never shrinks the gallery width, and from the second image it grows by the packing step. |
| Layout.LoadKeepsSettled | src/Gallery.js:262-268 | One load onto a layout that matches the packing keeps it matching and does not shrink the width. |
| Layout.LoadAll | src/Gallery.js:273 | A run of loads only appends: the old images are a prefix, and one image is added per load. |
| Layout.LoadAllWidths | src/Gallery.js:238-240 | The half-widths after a run of loads are the old ones followed by the loaded ones, in load order. |
| Layout.LoadAllKeepsSettled | src/Gallery.js:238-268 | Any number of drained loads onto a settled layout keep it settled and never shrink the width. |
| Animation.Shift | src/Gallery.js:164-170 | A tick changes only x: ids, widths and visibility are kept. |
| Animation.ShiftMoves | src/Gallery.js:163-171 | Per image: the focal image stays, lower ids move by d, higher ids by −d. |
| Animation.TicksAddUp | src/Gallery.js:163-171 | n ticks with offset d equal one slide by n·d. |
| Animation.ToGalleryUndoesFromGallery | src/Gallery.js:162-171 | n to-gallery ticks after n from-gallery ticks around the same focal image put every image back where it was. |
| Animation.HideAllButLeavesFocal | src/Gallery.js:208-213 | After settling, an image is visible exactly when it is the focal one and was visible; positions are unchanged. |
| CameraBounds.ClampFov | src/Gallery.js:99-116 | A fov below 20 becomes exactly 20, a fov of 75 or more becomes exactly 75, and a fov inside [20, 75] is unchanged, so the result is always in [20, 75]. |
| CameraBounds.ClampPan | src/Gallery.js:87-94 | An x above the width becomes the width. An x below 0 becomes 0 when the width is non-negative, and an x inside [0, width] is unchanged, so with a non-negative width x ends in [0, width]. With a negative width the result is the width. |
| CameraBounds.NearestImage | src/Gallery.js:121-134 | The index returned has the least distance to the camera, and every earlier index is strictly farther: the head of the stable sort by distance. |
| CameraBounds.NearestIsUnique | src/Gallery.js:130-134 | The stable choice is unique: two indices that both satisfy it are equal. |
| GalleryScenarios.OutOfOrderCompletions | src/Gallery.js:222-241 | Fetches added in order with half-widths 10, 20, 30 complete as second, third, first. They are laid out in add order, at x = 0, 130 and 280, with width 280, in gallery mode, with the queue empty. |
| GalleryScenarios.SingleImage | src/Gallery.js:262-268 | A single completed fetch is laid out at x = 0 with width 0, and gallery mode stays off. Even a frame at the widest zoom then starts no transition and moves nothing. |
| GalleryScenarios.CompleteBehindHead | src/Gallery.js:233-241 | A completion behind a loading head only marks its entry; images, width and mode are unchanged. |
| GalleryScenarios.ReleaseAllThree | src/Gallery.js:238-240 | Completing the head of a queue whose other two entries already completed releases all three, in order. |
| GalleryScenarios.ThreeLoads | src/Gallery.js:262-273 | The packing of half-widths 10, 20, 30 from an empty gallery is x = 0, 130, 280. |
| GalleryScenarios.TieGoesToLowerIndex | src/Gallery.js:130-134 | With the camera halfway between the first two images, the first one is chosen. |
| GalleryScenarios.NearestOfThree | src/Gallery.js:121-134 | Images at x = 0, 140, 280 and camera at x = 120: the image at 140 is chosen. |

## Left out

- Platform selection (`selectPlatform`, src/Gallery.js:42-55) probes the browser, so the model always takes the three.js branch.
- The degraded non-three branch (src/Gallery.js:148-154, and `load` pushing an undefined mesh) is not modelled.
- Scene, renderer and camera-projection setup, `render`, `addToScene` and `updateProjectionMatrix` are calls into the rendering library. They draw and change no modelled state, so they are left out.
- Texture, geometry, material and mesh construction in `load` are left out: an image keeps only its id, half-width, x and visibility. The half-width (the plane's right edge, `geometry.vertices[1].x`) is an input of the completion event and must be non-negative. Image y, z, pixel width and height are not modelled.
- The fetch itself and the browser firing `onload` are left out. A completion is the explicit event `Complete(ticket, halfWidth)`, where the ticket stands for the identity of the browser image object.
- The input controller and `controls.update()` are left out. Their writes to the camera are `Update`'s raw x, y and fov arguments.
- Constructor options and the `multitouch || true` default (src/Gallery.js:8-12) are left out.
- The empty `if` on camera y in `animateToGallery` (src/Gallery.js:174-176) does nothing, so it is left out.
- JavaScript floating point is not modelled: positions, widths and fov are mathematical reals.
- `focal_image` is a reference to the image object. It is kept as that image's id, which equals its index because ids never change.
- Leaving gallery mode happens for any field of view below 75: the `else` branch at src/Gallery.js:117 has no lower bound. The model follows the code, not a reading in which the switch happens only at the narrowest zoom (20).
- The frame counter is not reset when a transition starts, as in the code. A to-gallery run therefore lasts as many ticks as the counter holds when it starts, and the counter carries over from interrupted runs. Whatever the counter, n to-gallery ticks undo n from-gallery ticks around the same focal image (Animation.ToGalleryUndoesFromGallery).
- GalleryViewer.Gallery.Complete: the width is proved not to shrink only when the layout is settled, that is, positions and width still match the packing formula. `load` reads the current x of the last image, which a transition may have moved. After such a move the new width can be smaller than the old one.
- GalleryViewer.Gallery.AnimateFromGallery: the focal image's visibility is kept as it was, as in the code. The model does not prove that exactly one image is visible after a from-gallery run. `load` can switch gallery mode on while images are hidden, and it does not show them, so the focal image itself may be hidden.
