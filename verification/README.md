# Verified model of the embedder

A Dafny model of the parts of the WebKit-in-wasm embedder whose correctness spans
several functions or threads, with proofs of what they promise. `dafny verify
dfyconfig.toml` checks everything.

**The frame pipeline** (`Geometry`, `Damage`, `Merging`, `Framebuffer`, `Surface`,
`Rendering`, `Scrolling`, `Pipeline`, `Progress`, `Compositor`, `PresentBuffers`). The
engine keeps a framebuffer up to date with as little painting as possible: an eight-slot
damage list with lossy merging, an in-place pixel shift on scroll that carries pending
damage along, an upload-only rectangle, and one frame in flight. It is a cache of
"repaint everything every tick". `Surface` holds the engine's operations on values,
`Pipeline` the state machine from page content to host canvas, `Compositor` the code
itself: a class whose fields are the globals, whose loops and branches are the source's,
and whose methods are proved to compute the steps of the state machine. The main results
are `Surface.ScrollKeeps`, `Surface.RenderKeeps`, `Pipeline.RunKeeps`,
`Pipeline.PresentShowsTheTick`, `Pipeline.SettledIsExact` and
`Pipeline.QuietTickConverges`: after any run of content changes, scrolls, ticks, failed
paints, resizes, readbacks and returned buffers, every frame pixel that is not damaged
shows the page, every pixel not owed to the host is on the canvas, every frame that is
presented makes the canvas the framebuffer it was cut from (so a page that is damaged
again by its own painting is still shown), and one quiet tick makes the canvas a full
repaint. The cache also does its work, and little of it: `Rendering` says exactly when a
frame is reported, what it shows and that only damage is painted, `Scrolling` exactly
when pixels are moved instead of repainted and what is left to paint, `Merging` what a
damage report may add, and `Progress.WorkingTickShowsThePage` that every tick that can
paint brings the page to the canvas. `PresentBuffers` is the other link's hazard: a
resize while the main thread still reads the present buffer.

**Coordinates** (`DeviceSpace`). At ratios other than 1 the code promises less; the
arithmetic it relies on is proved over the reals.

**Input coalescing** (`Coalescing`, `InputQueue`, `OpenBatches`, `Neighbours`, `Bursts`,
`Cadences`). Two threads, open batch pointers, a FIFO queue and a seal at every post, as
a state machine over atomic steps (test and merge, publish, count, seal and enqueue,
pop, close, apply). The inductive core is `InputQueue.Shape`: an open batch is the task
on offer or the tail of the queue. The main results are
`InputQueue.AppliedRefinesCalls`, that what is applied is what the page called,
`Neighbours.NeighboursDiffer` and `Bursts.BurstEnds`, that nothing is split off that
could have been merged, and `Cadences.EngineDrains`, that it is all applied.

**Network loads** (`ResourceLoad`, `LoadSafety`, `LoadExact`, `Network`, `Redirects`,
`HostFetch`, `Delivery`, `Finishing`, `Outcomes`, `Acknowledgements`, `LoaderObjects`).
Loads and beacons share one registry of request ids; the loader may answer any callback
now or later and may cancel inside any callback. Safety (`Network.RegistryIsSafe`,
`CancelIsFinal`, `EachIdEndsOnce`) holds for a host that says anything at any time;
exactness (`Delivery.BodyIsExact`) for a host that keeps the order of `bib-net.js`,
whose own code is `HostFetch.Host.Begin`. `Delivery.WholeBodyDelivered` joins the ends:
what the loader has when it is told the load finished is the body of the fetch;
`Finishing.FinishesExactlyWhen` and `Outcomes.FailsExactlyWhen` say exactly when it is
told so, or of a failure; and `Acknowledgements.EveryByteIsAcked` says every byte of a
request that runs its course is acknowledged. `LoaderObjects` is the code over the heap,
with one m_loads map and one registry of object references; its `Valid()` says the heap
is the state that the history of events leads to, so the theorems hold of the objects.

**The rendering-update throttle** (`Throttle`), an amortised bound over whole runs;
**the wasm section scan** (`WasmScan`), which inverts the encoder; and **lazily hydrated
localStorage** (`Storage`, `Lookups`), which cannot be told from an eager store and
reads back the last write, across restarts too.

## Where the code and its comments differ

The model follows the code.

- `maxRedirects` is 20, but the test is `m_redirectCount++ > maxRedirects`: 21 redirects
  are followed, so a load starts up to 22 requests (`Redirects.TwentyOneAreFollowed` is
  such a run, `Network.RequestsAreBounded` the bound, `Redirects.RedirectIsAsked` the
  condition under which a redirect is followed).
- A failed load keeps its loader: when `didFail` calls `remove`, the done callback has
  already emptied m_loads of it, so nothing is cancelled. If its response handler
  completes after that, the queued bytes are handed over after `didFail`.
  `Network.LateFlushHappens` gives a run; `Network.EndIsSilentUnlessLateFlush` says this is
  the only way, exactly when it happens: handler pending, load failed, bytes queued.
- A comment says `validate` must not green-light malformed bytes through the fast path;
  it does: `WasmScan.TruncatedTableAccepted` and `WasmScan.OverlongSizeAccepted` are
  strings that are no modules and are accepted for every bridge. The branch that does it
  is taken exactly when the walk reads a count above one, which for real modules is
  `WasmScan.NeverFalselyRejected`.
- The logical frame covers the framebuffer only up to ratio 2, though ratios up to 8 are
  accepted (`DeviceSpace.FrameCoverage`, an if-and-only-if; `DeviceSpace.SevenAtThree`).
- The throttle's cap of 33 ms takes precedence over its budget: passes cost at most the
  budget plus the `Shortfall` term of `Throttle.AmortisedBudget`, and
  `Throttle.ShortfallIsNeeded` gives runs in which the budget alone is exceeded.

## Model

| member | source | states |
|---|---|---|
| `Geometry.Intersection` | engine/WebkitWasm/src/embedder/BibPageClients.h:124 | the result has exactly the pixels the two rectangles share |
| `Geometry.Unite` | engine/WebkitWasm/src/embedder/BibPageClients.h:123 | a bounding box: contains both operands, and an empty operand contributes nothing |
| `Geometry.UniteIsLeast` | engine/WebkitWasm/src/embedder/BibPageClients.h:123 | no rectangle containing both operands is smaller than their union |
| `Geometry.PixelCount` | engine/WebkitWasm/src/embedder/BibPageClients.h:119-121 | width times height counts the pixels of a rectangle |
| `Damage.WasteCountsPixels` | engine/WebkitWasm/src/embedder/BibPageClients.h:117-125 | the waste formula counts exactly the pixels of the bounding box that lie in neither rectangle; so it is never negative, and zero under containment |
| `Damage.CheapMergeIsCheap` | engine/WebkitWasm/src/embedder/BibPageClients.h:151-154 | two rectangles merge cheaply if and only if their bounding box is at most 3/2 of the area they really cover |
| `Damage.AddDamageCovers` | engine/WebkitWasm/src/embedder/BibPageClients.h:127-174 | a report keeps the list at 1 to 8 non-empty slots and loses no pixel of the old list or of the rectangle, through swap-removal, cascaded folding and overflow uniting |
| `Damage.AddDamageSeparates` | engine/WebkitWasm/src/embedder/BibPageClients.h:144-163 | the fold reaches a fixpoint: if no two slots are cheaply mergeable before, none are after, unless the list overflowed |
| `Damage.RunSeparates` | engine/WebkitWasm/src/embedder/BibPageClients.h:144-163 | from a cleared list, over any run of reports until the first overflow, no two slots are cheaply mergeable |
| `Damage.LeastWasteIsLeast` | engine/WebkitWasm/src/embedder/BibPageClients.h:164-174 | on overflow the chosen slot is the first whose union wastes least, over all slots |
| `Merging.ReportIs` | engine/WebkitWasm/src/embedder/BibPageClients.h:127-174 | a report in full: it absorbs some slots, one after another by merges that are cheap when their turn comes, until none left is cheap; the others stay as they are; what it has grown into is appended, or, when eight are left, united into the first that wastes least |
| `Merging.ApartStaysApart` | engine/WebkitWasm/src/embedder/BibPageClients.h:107-116 | reports too far apart to merge cheaply are kept as they are: the list is exactly the slots and the reports |
| `Merging.AddAllWithin` | engine/WebkitWasm/src/embedder/BibPageClients.h:127-174 | damage never leaves the bounding box of the slots and the reports |
| `Damage.AddAllCovers` | engine/WebkitWasm/src/embedder/BibPageClients.h:127-174 | any run of reports covers everything the list and the reports covered |
| `Damage.WasteFitsInt64` | engine/WebkitWasm/src/embedder/BibPageClients.h:117-125 | for coordinates within 2^29 every intermediate of the waste computation, tripled, fits a signed 64-bit integer |
| `Damage.DamageList.Add` | engine/WebkitWasm/src/embedder/BibPageClients.h:127-174 | the in-place restarting loop over the slot array leaves exactly the list and flag of the specification; it terminates because each restart removes a slot |
| `Damage.DamageList.Clear` | engine/WebkitWasm/src/embedder/main.cpp:399-400 | the list is empty and the flag down; clearDamage's third assignment, the upload rectangle, is the callers' |
| `Framebuffer.OffsetsFaithful` | engine/WebkitWasm/src/embedder/main.cpp:561-571 | row-major byte offsets stay inside the buffer, and distinct pixels never share a byte |
| `Framebuffer.MoveRow` | engine/WebkitWasm/src/embedder/main.cpp:565-566 | memmove of one row: correct when source and destination overlap |
| `Framebuffer.ShiftRows` | engine/WebkitWasm/src/embedder/main.cpp:559-572 | the row walk is a correct overlapping two-dimensional move: every destination pixel gets the pre-shift source pixel, every other pixel is unchanged, for shifts of either sign on both axes |
| `Surface.DamagedKeeps` | engine/WebkitWasm/src/embedder/BibPageClients.h:127-174 | adding damage keeps the flag equal to "damage is pending" and owes the host no less |
| `Surface.ApplyGrows` | engine/WebkitWasm/src/embedder/BibPageClients.h:304-320 | a repaint or present callback only adds: damage and upload grow, content changes only under damage |
| `Surface.ExposedCovers` | engine/WebkitWasm/src/embedder/main.cpp:598-613 | the exposed bands cover every pixel of the scrolled region the shift does not rewrite |
| `Surface.CarriedAllCovers` | engine/WebkitWasm/src/embedder/main.cpp:504-557 | moved, kept and clipped pending rectangles, at most two per slot, cover every stale pixel that stays outside the region and every stale pixel the shift carries into it |
| `Surface.ScrollKeeps` | engine/WebkitWasm/src/embedder/main.cpp:443-614 | at ratio 1, for any delta, rectangle, clip and pending damage, on the blit path and every fallback: damage covers every stale pixel of the scrolled truth, and every changed pixel is still owed to the host |
| `Surface.RenderKeeps` | engine/WebkitWasm/src/embedder/main.cpp:1133-1217 | for any layout, paint reports and failure point: the framebuffer is coherent; on success the reported box is a non-empty part of the frame (all of it when forced) and holds every pixel that changed or was owed before or after layout; without a box all of these are still owed |
| `Rendering.ReportsExactlyWhen` | engine/WebkitWasm/src/embedder/main.cpp:1144-1217 | a frame is reported if and only if one is forced or something is damaged or to upload, there is a view, after layout a pixel of the frame is owed (or one is forced), and no paint fails of as many as there are slots with a pixel in the frame |
| `Rendering.FrameShowsThePage` | engine/WebkitWasm/src/embedder/main.cpp:1149-1217 | a frame whose paints reported nothing shows the page as layout left it at every pixel, whatever layout reported, and leaves nothing owed |
| `Rendering.OnlyDamageIsPainted` | engine/WebkitWasm/src/embedder/main.cpp:1168-1178 | unless forced, a pixel not damaged after layout keeps its value, whatever happens |
| `Rendering.BoxIsLeast` | engine/WebkitWasm/src/embedder/main.cpp:1206-1216 | the reported box is the least rectangle with all of the frame that is owed after layout |
| `Rendering.NothingIsWidened` | engine/WebkitWasm/src/embedder/main.cpp:1185-1202 | whatever paint fails, what is owed afterwards lies in the bounding box of what was owed after layout |
| `Rendering.ReportsAddOnlyTheirOwn` | engine/WebkitWasm/src/embedder/BibPageClients.h:304-320 | a repaint callback changes the page inside its rectangle alone and is one more damage rectangle, kept apart when it is far from the others and there is room, and never beyond a box that holds them all; a present grows the upload rectangle alone |
| `Scrolling.BlitsExactlyWhen` | engine/WebkitWasm/src/embedder/main.cpp:443-614 | at ratio 1: a scroll moves exactly the pixels whose source is scrolled too, and no other, and uploads the region, if and only if there are such pixels, no one pending slot covers all that is scrolled, and the surface is the framebuffer; otherwise it moves and uploads nothing and reports the region (or the clip) as damage |
| `Scrolling.ReusedIsRight` | engine/WebkitWasm/src/embedder/main.cpp:559-593 | a moved pixel whose source was not damaged shows the scrolled page at once |
| `Scrolling.LeavesTheExposed` | engine/WebkitWasm/src/embedder/main.cpp:594-613 | with nothing pending a blit leaves damage only inside the region, and when one axis moves exactly the pixels that could not be reused |
| `Scrolling.CarriesAndExposes` | engine/WebkitWasm/src/embedder/main.cpp:529-557 | with damage pending, and too far apart to merge, every pixel left to paint was damaged by a slot not wholly inside the region, takes the content of a damaged one, or could not be reused |
| `Surface.PaintReportsSurvive` | engine/WebkitWasm/src/embedder/main.cpp:1173-1201 | a repaint reported while a rectangle is painted is in the damage list afterwards, and a present in the upload rectangle, whether the render succeeds or fails |
| `Surface.QuietRender` | engine/WebkitWasm/src/embedder/main.cpp:1133-1217 | an undisturbed render leaves no damage and no upload, and a forced one always reports a frame |
| `Pipeline.BootIsInitial` | engine/WebkitWasm/src/embedder/BibPageClients.h:69-87 | the boot globals satisfy the starting condition whatever the framebuffer holds |
| `Pipeline.BibFrameKeeps` | src/ext/engine-worker.js:58-68 | posting a band of the rendered box keeps the invariant and makes the display, overlaid with the band, the framebuffer at every pixel, damage pending or not |
| `Pipeline.PushShowsFramebuffer` | engine/WebkitWasm/src/embedder/main.cpp:1261-1301 | from any state of the invariant with nothing in flight, whenever the render reports a box the push sends a frame, and the display with that frame has the frame's size and is the framebuffer at every pixel, however the page was damaged again meanwhile |
| `Pipeline.PushKeeps` | engine/WebkitWasm/src/embedder/main.cpp:1240-1301 | a push, gated by the in-flight flag, keeps the pipeline invariant |
| `Pipeline.ReadbackKeeps` | engine/WebkitWasm/src/embedder/main.cpp:1334-1348 | a readback consumes damage without a push and keeps the invariant by arming a full upload |
| `Pipeline.ResizeKeeps` | engine/WebkitWasm/src/embedder/main.cpp:873-941 | a resize, refused or carried out, keeps the invariant: a new size owes the whole frame |
| `Pipeline.PresentKeeps` | src/ext/engine-worker.js:52-68 | presenting the band in flight keeps the invariant |
| `Pipeline.ReturnKeeps` | src/ext/engine-worker.js:96-99 | the returned buffer and the cleared flag keep the invariant |
| `Pipeline.StepKeeps` | engine/WebkitWasm/src/embedder/main.cpp:443-1301 | every step of the pipeline keeps the joint invariant of truth, framebuffer, damage, upload, flags, band in flight and canvas |
| `Pipeline.RunKeeps` | engine/WebkitWasm/src/embedder/main.cpp:443-1301 | the invariant holds in every state reachable by any sequence of events |
| `Pipeline.UndamagedIsExact` | engine/WebkitWasm/src/embedder/main.cpp:1133-1217 | in every reachable state with nothing damaged the framebuffer is a full repaint, pixel for pixel |
| `Pipeline.SettledIsExact` | engine/WebkitWasm/src/embedder/main.cpp:1245-1255 | in every reachable state with a frame pushed, nothing damaged, nothing to upload and nothing in flight, the canvas is a full repaint, pixel for pixel |
| `Pipeline.QuietTickConverges` | engine/WebkitWasm/src/embedder/main.cpp:1226-1301 | from any reachable state, returning the outstanding buffer and one undisturbed tick with its present make the canvas a full repaint |
| `Pipeline.PresentShowsTheTick` | engine/WebkitWasm/src/embedder/main.cpp:1240-1301 | in every run: when the gate is open and a tick renders a frame, the host's next present makes the canvas the framebuffer of that tick, pixel for pixel, whatever reports, scrolls, ticks, readbacks or resizes come in between |
| `Progress.WorkingTickShowsThePage` | engine/WebkitWasm/src/embedder/main.cpp:1240-1301 | in every run, with the gate open and a view: if no paint fails or reports, then after the tick and the host's present the canvas is a full repaint of the page as layout left it, whatever layout reported |
| `Progress.ResizeTakesEffect` | engine/WebkitWasm/src/embedder/main.cpp:882-941 | in every run a resize to another size of 1 to 8192 brings a frame of that size with the page laid out in it and all of it damaged; any other changes nothing |
| `Progress.ReadbackIsFresh` | engine/WebkitWasm/src/embedder/main.cpp:1334-1348 | in every run a readback that works leaves the framebuffer a full repaint of the page as laid out, and the whole frame to be uploaded |
| `Pipeline.OneFrameInFlight` | src/ext/engine-worker.js:54-68 | at most one frame message or returned buffer is outstanding, exactly while the flag is up, and every band lies inside its frame and its transfer buffer across any resizes |
| `Compositor.Embedder.constructor` | engine/WebkitWasm/src/embedder/main.cpp:150-204 | the globals start in a state the pipeline theorems start from |
| `Compositor.Embedder.AddAllDamage` | engine/WebkitWasm/src/embedder/main.cpp:553-556 | a loop of reports is the specified run of reports |
| `Compositor.Embedder.ReportOne` | engine/WebkitWasm/src/embedder/BibPageClients.h:304-320 | one chrome callback, on the globals |
| `Compositor.Embedder.PaintPixels` | engine/WebkitWasm/src/embedder/main.cpp:1178-1193 | painting a clip in place: truth inside it, every other pixel unchanged |
| `Compositor.Embedder.Render` | engine/WebkitWasm/src/embedder/main.cpp:1133-1217 | bib_render on the globals and the pixel buffer computes the specified state and box for every failure point |
| `Compositor.Embedder.TakeSnapshot` | engine/WebkitWasm/src/embedder/main.cpp:1160-1173 | the snapshot loop takes the visible part of every slot and the visible upload, then clears both |
| `Compositor.Embedder.PaintUntilFailure` | engine/WebkitWasm/src/embedder/main.cpp:1180-1206 | the paint loop stops at the failing rectangle, or after the last |
| `Compositor.Embedder.Rearm` | engine/WebkitWasm/src/embedder/main.cpp:1185-1201 | unpainted rectangles return to the damage; the snapshot upload and the painted bounds return to the upload rectangle |
| `Compositor.Embedder.ScrollBlit` | engine/WebkitWasm/src/embedder/main.cpp:443-614 | bibScrollBlitImpl at ratio 1, branch for branch, leaves exactly the specified state |
| `Compositor.Embedder.DamageContains` | engine/WebkitWasm/src/embedder/main.cpp:517-527 | true if and only if one slot contains the whole region |
| `Compositor.Embedder.CollectPending` | engine/WebkitWasm/src/embedder/main.cpp:536-552 | the 16-entry array never overflows and holds exactly the carried rectangles, in order |
| `Compositor.Embedder.CarryDamage` | engine/WebkitWasm/src/embedder/main.cpp:528-557 | the damage list is rebuilt from the carried rectangles |
| `Compositor.Embedder.MovePixels` | engine/WebkitWasm/src/embedder/main.cpp:559-614 | the pixels move, the region is armed for upload, the exposed bands are damaged; a surface that no longer wraps the buffer damages the frame |
| `Compositor.Embedder.PushFrameIfDirty` | engine/WebkitWasm/src/embedder/main.cpp:1240-1301 | the push on the globals is the specified push, the worker hook included |
| `Compositor.Embedder.BibFrame` | src/ext/engine-worker.js:58-68 | the transfer buffer is reused when large enough, filled and given away |
| `Compositor.Embedder.CopyBand` | src/ext/engine-worker.js:62-63 | the posted rows are the full-width rows of the box, copied |
| `Compositor.Embedder.FrameReturned` | src/ext/engine-worker.js:96-99 | the buffer is kept for reuse and the flag is cleared |
| `Compositor.Embedder.SetViewport` | engine/WebkitWasm/src/embedder/main.cpp:873-941 | out-of-range and unchanged sizes change nothing; otherwise a fresh buffer, all of it damaged |
| `Compositor.Embedder.Readback` | engine/WebkitWasm/src/embedder/main.cpp:1334-1348 | a forced render followed by a full-frame upload |
| `PresentBuffers.PresentsAreSafe` | engine/WebkitWasm/src/embedder/main.cpp:155-184 | proxy link, any interleaving of the two threads and any resizes: at most one present is outstanding, the buffer it reads is allocated and still holds the frame that was pushed, no buffer is freed twice, and the current one is never freed |
| `PresentBuffers.GateFreesAll` | engine/WebkitWasm/src/embedder/main.cpp:1254-1259 | a push that passes the gate frees every retired buffer, once each and in order, before rendering |
| `PresentBuffers.FramesArrive` | engine/WebkitWasm/src/embedder/main.cpp:1248-1296 | in every run, with the gate open, a push let run hands the host a buffer that holds the frame, and when the host is done the gate is open again |
| `PresentBuffers.StepKeeps` | engine/WebkitWasm/src/embedder/main.cpp:912-918 | every atomic step keeps every allocated buffer accounted for as current, retired or freed, and only one of these |
| `DeviceSpace.LRound` | engine/WebkitWasm/src/embedder/main.cpp:458-459 | nearest integer |
| `DeviceSpace.FrameCoverage` | engine/WebkitWasm/src/embedder/main.cpp:209-229 | for ratios 1/4 to 8: the device image of the logical frame is the whole framebuffer for every size 1 to 8192 if and only if the ratio is at most 2 |
| `DeviceSpace.SevenAtThree` | engine/WebkitWasm/src/embedder/main.cpp:209-229 | width 7 at ratio 3 leaves a column out |
| `DeviceSpace.DeviceMonotone` | engine/WebkitWasm/src/embedder/main.cpp:209-219 | the device mapping is monotone |
| `DeviceSpace.DeviceNonEmpty` | engine/WebkitWasm/src/embedder/main.cpp:209-219 | a non-empty rectangle of the logical frame never maps to an empty device rectangle, at any ratio |
| `DeviceSpace.ErrorNeverAccumulates` | engine/WebkitWasm/src/embedder/main.cpp:404-472 | after any run of scrolls, fallbacks, settles and resizes to any ratios, the device shifts applied since the last reset miss the ratio in force times the requested deltas by exactly the residual, at most 1/2 on each axis, and a residual keeps the settle flag up |
| `DeviceSpace.ShiftsExactlyWhenDue` | engine/WebkitWasm/src/embedder/main.cpp:453-472 | after any run, a scroll that does not fall back moves by the nearest whole number of device pixels and is remembered on both axes, if and only if one axis is due to move by half a device pixel or more |
| `DeviceSpace.WholeRatioIsExact` | engine/WebkitWasm/src/embedder/main.cpp:411-413 | through any sequence of whole-number ratios no residual and no settle debt ever arises |
| `DeviceSpace.DebtStands` | engine/WebkitWasm/src/embedder/main.cpp:1025-1033 | once up, the settle flag stays up through any events none of which adds full-frame damage: it is cleared only in a step that adds it |
| `DeviceSpace.SettlePays` | engine/WebkitWasm/src/embedder/main.cpp:1029-1033 | a settle with the flag up adds full-frame damage and leaves no residual and no debt |
| `Coalescing.ReversesIsNegativeProduct` | engine/WebkitWasm/src/embedder/main.cpp:1529-1530 | the sign test is the negative-product test |
| `Coalescing.DiscreteIsABarrier` | engine/WebkitWasm/src/embedder/main.cpp:1387-1396 | every discrete event is applied alone and once, after exactly what was sent before it and before what was sent after it |
| `Coalescing.DistanceConserved` | engine/WebkitWasm/src/embedder/main.cpp:1545-1551 | total scrolled distance on each axis is the same in the sent and the applied stream |
| `Coalescing.WheelsNeverCancel` | engine/WebkitWasm/src/embedder/main.cpp:1523-1537 | in a batch of any length: on each axis the distance applied is the whole distance travelled, and every event had the dominant axis of the running sum when it joined |
| `Coalescing.MergedKind` | engine/WebkitWasm/src/embedder/main.cpp:1426-1451 | a batch holds only events of its own kind and modifiers, counts them, and keeps the last position |
| `InputQueue.StepShape` | engine/WebkitWasm/src/embedder/main.cpp:1402-1424 | every atomic step of either thread keeps: an open batch is the task on offer or the tail of the queue, and each task owns its batch |
| `InputQueue.StepGrows` | engine/WebkitWasm/src/embedder/main.cpp:1426-1619 | every atomic step keeps the applied, pending and queued items a coalescing of what was sent |
| `InputQueue.RunKeeps` | engine/WebkitWasm/src/embedder/main.cpp:1402-1619 | both hold after any interleaving of the two threads |
| `InputQueue.CallsAreHeld` | engine/WebkitWasm/src/embedder/main.cpp:1426-1451 | leaving out the first few, refused before main() has started, the events of the page's calls are exactly those merged or posted and the one of the call in progress |
| `InputQueue.NoneRefusedOnceUp` | engine/WebkitWasm/src/embedder/main.cpp:685-692 | no call of a run that starts with the engine up is refused |
| `InputQueue.AppliedRefinesCalls` | engine/WebkitWasm/src/embedder/main.cpp:1386-1405 | for every interleaving, what is applied or still to be applied is in order the stream of the page's calls (less those refused before main() and the one in progress) with mergeable runs merged, and no deleted batch is touched |
| `InputQueue.DrainedIsComplete` | engine/WebkitWasm/src/embedder/main.cpp:1386-1405 | once drained, the applied stream is all the page's calls accepted since the engine is up, coalesced, with no distance lost on either axis |
| `InputQueue.OpenBatchIsNewest` | engine/WebkitWasm/src/embedder/main.cpp:1393-1405 | a batch open to merging is the newest task: nothing of any kind was accepted after it |
| `OpenBatches.OpenIsExactlyNewest` | engine/WebkitWasm/src/embedder/main.cpp:1393-1424 | in every run, while nothing is on offer, each open-batch pointer is the batch of the newest pending task if that task is of its kind, and null otherwise: a batch is given up only to a later task or to the drain |
| `OpenBatches.MergesWhenItCan` | engine/WebkitWasm/src/embedder/main.cpp:1426-1451 | in every run, with the host between calls: a wheel or move is absorbed by the newest item, without a new task, if and only if the newest pending task is a batch of its kind that takes it (modifiers, no reversal, same axis, last wheel not consumed); otherwise a batch of its own is made |
| `OpenBatches.ConsumedIsLastAnswer` | engine/WebkitWasm/src/embedder/main.cpp:1587-1600 | in every run the flag that keeps wheels apart is the page's answer to the last wheel it handled |
| `Neighbours.NeighboursDiffer` | engine/WebkitWasm/src/embedder/main.cpp:1426-1551 | in every run two tasks next to each other in the queue could not be one: two moves differ in modifiers, and two wheels, as long as the page consumes none, in modifiers, direction or dominant axis |
| `Neighbours.MergeableIsAlike` | engine/WebkitWasm/src/embedder/main.cpp:1523-1537 | the merge test is the same modifiers, no axis the opposite way, and the same dominant axis |
| `Bursts.BurstExtends` | engine/WebkitWasm/src/embedder/main.cpp:1538-1572 | in every run, a burst of wheel calls (same modifiers, each axis one way or zero, same dominant axis) that goes the way of the newest task makes no task: it is summed into that one, deltas and count, at the last position |
| `Bursts.BurstMakesOne` | engine/WebkitWasm/src/embedder/main.cpp:1538-1572 | in every run, a burst whose first call cannot join the newest task makes exactly one task, with all the sums |
| `Bursts.BurstEnds` | engine/WebkitWasm/src/embedder/main.cpp:1538-1572 | whatever wheel batch the newest task is, a first part of the burst, as long as it goes the batch's way, is summed into it, and all the rest is one new task |
| `Cadences.CadenceIsPosted` | engine/WebkitWasm/src/embedder/main.cpp:958-968 | in every run with the engine up, a call of bib_tick, bib_pump or bib_request_readback posts its task as the newest unless one is pending |
| `Cadences.EngineDrains` | engine/WebkitWasm/src/embedder/main.cpp:1386-1405 | in every run, with the host between calls, the engine left to itself for a bounded number of steps empties the queue and has applied all the output |
| `InputQueue.CountersAreExact` | engine/WebkitWasm/src/embedder/main.cpp:958-968 | the wheel counter equals the wheel tasks queued, on offer or just taken; at most one tick, pump and readback task exists, exactly while its flag is up |
| `LoaderObjects.LoaderStrategy.ScheduleLoad` | engine/WebkitWasm/src/embedder/EmbedderStrategies.cpp:563-568 | over one m_loads map and one registry of object references: the new object is in m_loads under its loader and in the registry under an id nobody had, and the heap stays a state its history of network events leads to |
| `LoaderObjects.LoaderStrategy.RemoveLoader` | engine/WebkitWasm/src/embedder/EmbedderStrategies.cpp:602-606 | the loader's object has no loader, no request and no registration left, and was not called; m_loads loses this loader and no other |
| `LoaderObjects.LoaderStrategy.Says` | engine/WebkitWasm/src/embedder/BibNetBridge.cpp:194-297 | a message for an unregistered id changes nothing; a terminal one leaves its id unregistered; any message is one step of the network for the heap as a whole |
| `LoaderObjects.LoaderStrategy.RegisteredAreHeld` | engine/WebkitWasm/src/embedder/BibNetBridge.cpp:34-117 | in every state the heap can get into, every registered object has its loader, is held by m_loads and waits for exactly this id: no raw pointer of the registry dangles |
| `LoaderObjects.LoaderStrategy.Delivers` | engine/WebkitWasm/src/embedder/EmbedderStrategies.cpp:354-457 | for every object, with an orderly host: what its loader was given is the data said for its last hop, all of it when didFinishLoading is called; that is called exactly when the body is complete and the response handled, and didFail exactly when a failure was heard |
| `LoaderObjects.LoaderStrategy.ResponseAnswered` | engine/WebkitWasm/src/embedder/EmbedderStrategies.cpp:371-377 | the late response handler, over the heap, is one step of the network |
| `LoaderObjects.LoaderStrategy.RedirectAnswered` | engine/WebkitWasm/src/embedder/EmbedderStrategies.cpp:332-341 | so is the late redirect decision |
| `LoaderObjects.BibResourceLoad.StartBridgeRequest` | engine/WebkitWasm/src/embedder/EmbedderStrategies.cpp:222-238 | a hop starts under an id that was not in the registry, with nothing queued, pending or handled |
| `LoaderObjects.BibResourceLoad.ResponseHandled` | engine/WebkitWasm/src/embedder/EmbedderStrategies.cpp:438-450 | the flush loop hands over the queued buffers until the loader cancels, then finishes if the body had ended |
| `LoadSafety.StepFine` | engine/WebkitWasm/src/embedder/EmbedderStrategies.cpp:354-457 | any event of any load, with cancellation inside any callback: ids stay registered to at most one owner, no callback without a loader, and the request budget is kept |
| `LoadExact.HeardExact` | engine/WebkitWasm/src/embedder/EmbedderStrategies.cpp:354-436 | any legal host message keeps the delivered chunks a prefix of the received ones, with at most one terminal callback |
| `LoadExact.LateExact` | engine/WebkitWasm/src/embedder/EmbedderStrategies.cpp:438-457 | so does the response handler whenever it completes |
| `LoadExact.SilenceBrokenOnlyByLateFlush` | engine/WebkitWasm/src/embedder/EmbedderStrategies.cpp:344-350 | a callback follows the end of a load if and only if the event is a late response handler of a failed load with queued bytes |
| `Network.RegistryIsSafe` | engine/WebkitWasm/src/embedder/BibNetBridge.cpp:50-117 | for arbitrary, late or repeated host messages and cancels at any time: every registered id maps to a load still in m_loads or a beacon still holding itself |
| `Network.EachIdEndsOnce` | engine/WebkitWasm/src/embedder/BibNetBridge.cpp:242-297 | each id is ended or cancelled at most once and not both, and then no message reaches any client through it |
| `Network.CancelIsFinal` | engine/WebkitWasm/src/embedder/EmbedderStrategies.cpp:202-209 | after cancel, whatever happens, the load makes no callback and starts no request |
| `Network.RequestsAreBounded` | engine/WebkitWasm/src/embedder/EmbedderStrategies.cpp:287-293 | a load starts at most 22 requests |
| `Redirects.TwentyOneAreFollowed` | engine/WebkitWasm/src/embedder/EmbedderStrategies.cpp:287-293 | the bound is reached: a run with an orderly host in which 21 redirects are followed and a 22nd request is started, and in which the next redirect fails the load |
| `Redirects.LateDecisionsCount` | engine/WebkitWasm/src/embedder/EmbedderStrategies.cpp:304-341 | in every run a late decision that allows starts the next request under a fresh id, and one that refuses ends the load without |
| `Redirects.AllowedAtOnce` | engine/WebkitWasm/src/embedder/EmbedderStrategies.cpp:304-341 | so does a decision at once, unless the loader cancels |
| `Redirects.RedirectStatuses` | engine/WebkitWasm/src/embedder/EmbedderStrategies.cpp:261-271 | the statuses that redirect, given a Location, are 301, 302, 303 and 307 to 399 |
| `Redirects.CountsRedirects` | engine/WebkitWasm/src/embedder/EmbedderStrategies.cpp:287-290 | in every run a load's own counter is the number of redirects the host said that reached it, over all its hops |
| `Redirects.RedirectIsAsked` | engine/WebkitWasm/src/embedder/EmbedderStrategies.cpp:287-302 | in every run, a redirect that reaches a load is put to the loader if and only if its target is http(s) and at most 20 redirects of that run reached the load before it; any other fails the load |
| `Delivery.BodyIsExact` | engine/WebkitWasm/src/embedder/EmbedderStrategies.cpp:354-457 | in every run with an orderly host, against the messages the host said for the load's last hop: the chunks given to the loader are a prefix of the data said, in order; none before the response is handled; all so far once it is; all, up to a message that completes the body, at didFinishLoading; at most one terminal callback; an open load is never stuck |
| `Delivery.WholeBodyDelivered` | engine/WebkitWasm/src/embedder/EmbedderStrategies.cpp:394-457 | if one fetch runs for the last hop and the engine has heard any first part of what it posts, then at didFinishLoading the loader has exactly the bytes of the fetch's whole body |
| `Finishing.FinishesExactlyWhen` | engine/WebkitWasm/src/embedder/EmbedderStrategies.cpp:354-457 | in every run with an orderly host, a load that has its loader has been told it finished, once, if and only if the body said for its last hop is complete and its response handled; it was told of a response if and only if the host answered with one; and that is handled if and only if the loader owes no answer |
| `Finishing.CompleteBodyArrives` | engine/WebkitWasm/src/embedder/EmbedderStrategies.cpp:394-457 | when one fetch was run for the hop, its body complete and its response handled, the loader was told the load finished and has the whole body |
| `Outcomes.FailsExactlyWhen` | engine/WebkitWasm/src/embedder/EmbedderStrategies.cpp:287-302 | for arbitrary messages: a load is told it failed if and only if it heard of a failure, a message that does not parse, or a redirect past the limit or to a scheme it may not follow |
| `Outcomes.KeepsItsLoader` | engine/WebkitWasm/src/embedder/EmbedderStrategies.cpp:202-209 | a load whose loader never cancels keeps it, whatever the host says |
| `Outcomes.PatientLoadsEnd` | engine/WebkitWasm/src/embedder/EmbedderStrategies.cpp:354-457 | so, unless its loader cancels or owes an answer, every load has finished exactly when the host completed an answer, with all of its data, and failed exactly when a failure was heard |
| `Outcomes.GoodFetchesArrive` | engine/WebkitWasm/web/bib-net.js:31-100 | a fetch run to its end, whose reply parses and whose body does not break, has been delivered whole and finished, unless the loader cancels or owes an answer |
| `Outcomes.BeaconsCompleteOnce` | engine/WebkitWasm/src/embedder/EmbedderStrategies.cpp:123-178 | in every run a new beacon is registered under a fresh id, and has completed, once, exactly when it is registered no more |
| `Outcomes.AnythingEndsABeacon` | engine/WebkitWasm/src/embedder/EmbedderStrategies.cpp:123-178 | any message but data for its id completes it |
| `Acknowledgements.AcksAreExact` | engine/WebkitWasm/src/embedder/BibNetBridge.cpp:220-229 | for arbitrary messages and every id, earlier hops and beacons included: the bytes acknowledged are the length of the data that reached its client |
| `Acknowledgements.EveryByteIsAcked` | engine/WebkitWasm/src/embedder/BibNetBridge.cpp:220-229 | with an orderly host: what reaches a client is a first part of what is said for its id, and unless the request is cancelled, or ended by a response that does not parse, every byte said is acknowledged |
| `Acknowledgements.HopAcksAreReceived` | engine/WebkitWasm/src/embedder/BibNetBridge.cpp:220-229 | for arbitrary messages: the bytes acknowledged for a load's last hop are those the load received there |
| `Acknowledgements.EarlierHopAcks` | engine/WebkitWasm/src/embedder/BibNetBridge.cpp:220-229 | and once a hop is over that stays so for ever, whatever hops follow |
| `Network.EndIsSilentUnlessLateFlush` | engine/WebkitWasm/src/embedder/EmbedderStrategies.cpp:438-450 | in every such run the end of a load stays silent if and only if the next event is not a late flush |
| `Network.LateFlushHappens` | engine/WebkitWasm/src/embedder/EmbedderStrategies.cpp:438-450 | a concrete run in which bytes arrive after didFail |
| `HostFetch.Host.Begin` | engine/WebkitWasm/web/bib-net.js:31-100 | one fetch posts messages in a legal order, in slices of 1 to 65536 bytes; uncancelled, it posts the response, the whole body and done (or fail if the body breaks), a redirect alone, or a failure alone; cancelled at any await, exactly what was read before and no end; the id always leaves the in-flight map |
| `HostFetch.Host.PostSlices` | engine/WebkitWasm/web/bib-net.js:86-91 | slicing loses, repeats and reorders no byte |
| `HostFetch.OrderlyIsPerRequest` | engine/WebkitWasm/web/bib-net.js:31-100 | a run is orderly if and only if it brings every request the messages of one fetch in order, however requests interleave |
| `Throttle.AmortisedBudget` | engine/WebkitWasm/src/embedder/main.cpp:259-275 | over every run of the dynamic cap: total pass cost is at most 0.33 of the time from first to last start, plus five times the average, plus what the 33 ms cap gave away |
| `Throttle.ShortfallIsNeeded` | engine/WebkitWasm/src/embedder/main.cpp:259-275 | the cap's price is real: for every k from 7 on, k back-to-back passes of 100 ms break the bound without it |
| `Throttle.BudgetBelowCap` | engine/WebkitWasm/src/embedder/main.cpp:259-275 | while the average stays within 0.33 * 33 ms the cap gives nothing away |
| `Throttle.StartsAreSpaced` | engine/WebkitWasm/src/embedder/main.cpp:1000-1006 | start-to-start spacing is never below the interval in force, fixed or dynamic |
| `Throttle.DeferredNotDropped` | engine/WebkitWasm/src/embedder/main.cpp:989-1010 | a pending request waits unchanged through any number of early ticks, and the first eligible tick runs it |
| `Throttle.WaitsAtMostTheCap` | engine/WebkitWasm/src/embedder/main.cpp:1000-1021 | no tick is early once the interval in force has passed, in dynamic mode at most 33 ms |
| `Throttle.AverageMovesByFifths` | engine/WebkitWasm/src/embedder/main.cpp:1012-1018 | in every dynamic run the average starts at the first cost and moves a fifth of the way to each later one |
| `Throttle.SteadyCostConverges` | engine/WebkitWasm/src/embedder/main.cpp:259-275 | on a page of steady cost the average closes in on it by a factor of 4/5 a pass |
| `Throttle.RenderThrottle.ScheduleRenderingUpdate` | engine/WebkitWasm/src/embedder/BibPageClients.h:343-347 | the chrome client's call asks for a pass and runs none; it is the entry by which the requests of a run come |
| `Throttle.RenderThrottle.RunUpdate` | engine/WebkitWasm/src/embedder/main.cpp:989-1024 | a pass runs if and only if one is asked for and the last pass started at least the interval in force ago; otherwise the request stays; the passes always satisfy the amortised bound |
| `WasmScan.ReadU32` | engine/WebkitWasm/web/wasm-polyfill.js:132-136 | the reader loop terminates on every byte string and computes the specified value and position |
| `WasmScan.DefinedTableCount` | engine/WebkitWasm/web/wasm-polyfill.js:124-149 | the scan terminates on every byte string, truncated ones included, and computes the specified count |
| `WasmScan.OrDisjoint` | engine/WebkitWasm/web/wasm-polyfill.js:134 | or-ing words without a common bit adds them |
| `WasmScan.ReadsBack` | engine/WebkitWasm/web/wasm-polyfill.js:132-136 | the reader inverts the LEB128 encoder for every 32-bit value at every padding width of one to five bytes |
| `WasmScan.ScanInvertsTheEncoder` | engine/WebkitWasm/web/wasm-polyfill.js:124-149 | for every version-1 module written as headed sections (sections 5.2.2, 5.5.2 and 5.5.7 of the WebAssembly Core Specification), any other payloads, any padding: the scan is the number of table types in the table section, or 0 |
| `WasmScan.NeverFalselyRejected` | engine/WebkitWasm/web/wasm-polyfill.js:151-155 | such a module is rejected early if and only if it defines more than one table |
| `WasmScan.FastPathIgnoresTheRest` | engine/WebkitWasm/web/wasm-polyfill.js:138-149 | wherever the scan reads its count inside a string, by headers well-formed or not, validate answers the same for every continuation |
| `WasmScan.TruncatedTableAccepted` | engine/WebkitWasm/web/wasm-polyfill.js:126-129 | a table section that declares two tables and ends there is no serialised module, and validate accepts it for every bridge |
| `WasmScan.OverlongSizeAccepted` | engine/WebkitWasm/web/wasm-polyfill.js:126-136 | so is, and does, a section size of any length beyond the five bytes of the format in front of it |
| `Storage.HydrationIsWhole` | engine/WebkitWasm/src/embedder/BibStorage.h:124-126 | importing a seed item by item, in any order, restores it whole if and only if it is within the quota |
| `Storage.LazyIsEager` | engine/WebkitWasm/src/embedder/BibStorage.h:115-133 | for any seed within quota and any run of first touches and writes: every open area, and the dump for every origin, equal the eager store's |
| `Storage.DumpFits` | engine/WebkitWasm/src/embedder/main.cpp:737-756 | a dump is within quota, so it hydrates whole next time |
| `Storage.SessionsAreOne` | engine/WebkitWasm/src/embedder/main.cpp:795-809 | any number of dump-and-seed restarts equal one eager run of all the sessions' events, whichever origins each visited |
| `Lookups.LastWriteWins` | engine/WebkitWasm/src/embedder/BibStorage.h:75-133 | in any run, an open area and the dump have under every key the value of the last write that fitted since the last removal or clear, or else the seed's value |
| `Lookups.LastWriteSurvives` | engine/WebkitWasm/src/embedder/main.cpp:795-809 | and so does the dump after any number of restarts, over the events of all the sessions |
| `Lookups.WriteSetsItsKey` | engine/WebkitWasm/src/embedder/BibStorage.h:75-79 | a write that fits sets its key, overwriting, and no other; one that does not fit changes nothing |
| `Storage.StorageArea.SetItem` | engine/WebkitWasm/src/embedder/BibStorage.h:75-79 | a write within quota lands, overwriting its key alone; one beyond it changes nothing and raises the flag |
| `Storage.StorageArea.Import` | engine/WebkitWasm/src/embedder/BibStorage.h:56-61 | every seed item is imported once |
| `Storage.LocalStorage.Area` | engine/WebkitWasm/src/embedder/BibStorage.h:115-133 | first touch creates, hydrates and registers the area; later touches return it |
| `Storage.LocalStorage.SetItem` | engine/WebkitWasm/src/embedder/BibStorage.h:75-79 | a write changes the origin's own area and no other |
| `Storage.LocalStorage.RemoveItem` | engine/WebkitWasm/src/embedder/BibStorage.h:85-89 | so does the removal of an item |
| `Storage.LocalStorage.Clear` | engine/WebkitWasm/src/embedder/BibStorage.h:91 | so does clearing |
| `Storage.LocalStorage.BuildPersist` | engine/WebkitWasm/src/embedder/main.cpp:737-756 | the dump loops produce the specified dump |
| `Storage.AddPending` | engine/WebkitWasm/src/embedder/main.cpp:745-756 | imports not opened yet are dumped too, an opened origin winning |

## Left out

- ScrollBlit: device pixel ratio 1 only. At other ratios the code aims for "within half a device pixel, then settle", and straddling edge rows make a pixel-exact claim wrong; the inflation of damage by one logical pixel is not modelled. `DeviceSpace` proves the arithmetic instead.
- SetViewport: device pixel ratio 1, and an allocation that succeeds; a failed one keeps the old state.
- Scroll while painting or before boot: the code only damages the clip then, which is the `Repaint` report of the model.
- Render: layout and paint are the environment. They report any damage, and painting sets the clipped pixels to the page's content or fails at any rectangle. Direct calls of the exported `bib_render` are not part of the protocol.
- Draw: the viewer is "presents the full-width band, then returns the buffer once"; a canvas of another size loses its content when it takes the frame's.
- Pixel: one value per pixel; `Framebuffer.OffsetsFaithful` ties positions to byte offsets.
- Intersection: WebCore's integer rectangles are not part of the repository and are modelled by their documented meaning on unbounded integers; `Damage.WasteFitsInt64` bounds the 64-bit arithmetic.
- DeviceRect: doubles and floats are reals; `enclosingIntRect` is floor and ceiling.
- PresentBuffers: the contents of a present buffer are one value, the frame copied into it; the legacy copied delivery and the host's choice of link are left out.
- InputQueue: a step is one critical section, one atomic operation or one post, except that publishing a wheel batch includes the counter's increment, undoing a refused post is one step, and closing a batch includes its delete (nobody else can reach the batch then); between those accesses the counter is off by one for a moment that the model does not show; positions and deltas, doubles in the source, are reals; the host is one thread, as in the page. The queue's own failure to post after boot is left out.
- ResourceLoad: URLs, cookies, headers and methods are left out; whether headers parse, whether a status redirects, and the scheme of the target are parameters.
- OnResponse: a response message that is itself a redirect (the defensive branch at `EmbedderStrategies.cpp:363-369`) does not occur, by the host's classification at `bib-net.js:69`.
- Network: bridge messages do not arrive inside a loader callback; data: and blob: URLs never reach the bridge; a missing host bridge is a `Fail` message.
- LoaderObjects: beacons and acknowledgements are in `Network` and `Acknowledgements`, not among the objects; reference counts are not modelled.
- Begin: fetch, proxy and JSON are parameters; error paths that throw outside `fail` are left out.
- Throttle: clock readings and pass costs are real parameters.
- U32: the accumulator is the unsigned word the source gets with `>>> 0`.
- Put: WebCore's storage map is not part of the repository; it is modelled as refusing a write whose result would exceed the quota, with two bytes a character.
- Dump: JSON text, cookies and the 5-second poll are left out; the dump and the seed are maps.
- WebCore, JavaScriptCore and Skia internals; back/forward list, clipboard, request blocklist, IndexedDB, media, sockets, gate mode, build scripts and the extension's other bridges: easy or outside members.
