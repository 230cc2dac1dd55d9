# babel-catalogue book widget — Dafny model

This project models the state and layout logic of the babel-catalogue 3D book widget. Each part of the widget is modelled as immutable records with pure transition functions. Time, `Math.random`, `cos`/`sin`, `sqrt` and the canvas `measureText` are all parameters of the model.

- **BookConfig** (`book_config.dfy`): the page-count and current-page state shared by `stores/bookStore.ts` and the shipped bundle `dist/index.es.js`:
  - clamping the page count;
  - wrapping the current page as JavaScript's `%` does;
  - turning spine depth into a page count;
  - merging dimensions;
  - setting hinges.
- **SourceStore** (`source_store.dfy`): the source store's `flipPage`, `flipPages` and `reset`. These move `currentPage` immediately.
- **FlipStore** (`flip_store.dfy`): the bundle's store.
  - There is one flip slot (`flippingPageIndex`, `flipProgress`, `flipDirection`) and continuous flipping.
  - Pending animation-frame callbacks and timers are an explicit job list in a `World` whose clock never runs backwards.
  - In this variant a flip never changes `currentPage`.
  - An invariant says one flip is in flight exactly when the slot is claimed, and that progress is in [0, 1) and never ahead of its ticker.
- **Tween** (`tween.dfy`): the tween `animateValue` and `easeInOutCubic`, as the sequence of values emitted at given frame times.
- **PageLayout** (`page_layout.dfy`): how a page's z-offset spreads the pages across the spine depth, and the page size.
- **BookRender** (`book_render.dfy`): in `Book.tsx` and `Cover.tsx`:
  - the back/front stack partition;
  - the flying page's skip-and-draw rule;
  - the in-flight angle in both variants (they run in opposite directions and are kept apart);
  - the test page;
  - the cover pivots and the cover transparency flag.
- **Catalogue** (`catalogue.dfy`): the imperative widget of `babelCatalogue.js` after construction:
  - the hinge constraints on pages;
  - the clamping setters;
  - the velocity-driven glow update;
  - material morphing, hover and the page-content scroll wrap.
- **MaterialManager** (`material_manager.dfy`): a registry of named materials with synced groups. Materials live in a heap keyed by identity, so a group shares its members with the registry.
- **PerformanceMonitor** (`performance_monitor.dfy`): a bounded FIFO window of frame times, its metrics, and a listener list.
- **PoissonDisk** (`poisson_disk.dfy`): the Poisson-disk sampler's grid, active list, validity check and sampling loop.
- **CoverText** (`cover_text.dfy`): cover-text layout: line split, font size, vertical centring and greedy word wrap.
- **Particles** (`particles.dfy`): particle initialisation, the per-frame move with respawn and wrap, and the render look.
- **Util** (`util.dfy`): `Option`, `Result`, min/max/abs/clamp, and JavaScript's `Math.round` and `Math.floor` on reals.

## Model

| member | source | states |
|---|---|---|
| BookConfig.JsRem | stores/bookStore.ts:143 | JavaScript's `%` for a positive divisor: the result is congruent to the dividend, lies strictly between `-n` and `n`, and takes the dividend's sign when non-zero |
| BookConfig.WrapPage | stores/bookStore.ts:143 | `((page % n) + n) % n` lies in [0, n) and is congruent to `page` modulo `n` |
| BookConfig.WrapPageFixesInRange | stores/bookStore.ts:140-145 | setting a page already in range stores exactly that page |
| BookConfig.DepthToCount | stores/bookStore.ts:170-171 | a depth becomes a page count in [10, 100]: depths up to 0.019 give 10, depths from 0.2 give 100, and in between the count is the nearest whole number of 0.002-thick pages (`(n - 0.5)·0.002 <= depth < (n + 0.5)·0.002`) |
| BookConfig.SetPageCount | stores/bookStore.ts:122-138 | stores the count clamped to [10, 100] (in-range counts unchanged), recentres the current page to half the count rounded down, resets depth to 0.6, and changes nothing else |
| BookConfig.SetCurrentPage | stores/bookStore.ts:140-145 | the stored page lies in [0, pageCount), is congruent to the requested page, and nothing else changes |
| BookConfig.Merge | stores/bookStore.ts:166 | each dimension comes from the patch when it is given and from the old dimensions otherwise |
| BookConfig.SetDimensions | stores/bookStore.ts:164-180 | dimensions are merged; only a depth different from the current one re-derives the page count and recentres the page |
| BookConfig.SetBothHinges | stores/bookStore.ts:187 | both hinges receive the same value and nothing else changes |
| BookConfig.ActionsKeepValid | stores/bookStore.ts:77-180 | the initial state is valid, and `setPageCount`, `setCurrentPage`, `setDimensions` and `setBothHinges` keep page count in [10, 100] and the page in range |
| BookConfig.SameDepthKeepsPages | stores/bookStore.ts:169-179 | a patch without a new depth leaves page count and current page alone |
| BookConfig.DefaultDepthIsFullBook | stores/bookStore.ts:170-171 | the default depth 0.6 maps to the maximum of 100 pages |
| SourceStore.FlipPage | stores/bookStore.ts:147-162 | forward moves to `min(cp+1, pageCount-1)`, backward to `max(cp-1, 0)`; no other field changes |
| SourceStore.FlipPageSteps | stores/bookStore.ts:147-162 | a flip keeps the book valid, moves exactly one page when there is room, and is a no-op at the matching end |
| SourceStore.FlipNext | stores/bookStore.ts:284-316 | one callback of the chain, against whatever store it finds: nothing once `count` flips are done; otherwise one `flipPage` step, counted and followed by another callback only if the page moved and the count is not reached; a valid book stays valid |
| SourceStore.FlipPages | stores/bookStore.ts:281-319 | with no other action between callbacks, the batch counts only steps that moved and halts at the boundary: the final page is `cp ± min(max(n, 0), room)`, only `currentPage` changes, and the book stays valid |
| SourceStore.Reset | stores/bookStore.ts:77-115 | reset restores every field of the initial state: 30 pages at page 15, 4×3×0.6 dimensions, spine rotation 0.5, tilt 0.2, scale 1, closed hinges, the page and cover looks, empty cover texts, particles on at 0.5, confidence 0 and debug off |
| SourceStore.ResetForgets | stores/bookStore.ts:200 | the result of reset does not depend on the state before it, and reset is idempotent |
| Tween.Progress | dist/index.es.js:289 | tween progress is at most 1, non-negative for non-negative elapsed time, and equals 1 exactly once the duration has passed |
| Tween.ProgressMonotone | stores/bookStore.ts:18-19 | progress never decreases as time goes on |
| Tween.EaseFixedPoints | stores/bookStore.ts:34-36 | the cubic ease maps 0, 0.5 and 1 to themselves |
| Tween.EaseInRange | stores/bookStore.ts:34-36 | the cubic ease maps [0, 1] into [0, 1] |
| Tween.EaseSymmetric | stores/bookStore.ts:34-36 | the ease is point-symmetric: `ease(1 - t) == 1 - ease(t)` |
| Tween.EaseMonotone | stores/bookStore.ts:34-36 | the ease is non-decreasing on [0, 1] |
| Tween.ApplyInRange | stores/bookStore.ts:8-31 | each easing (linear default or cubic) maps [0, 1] into [0, 1] and 1 to 1 |
| Tween.Emitted | stores/bookStore.ts:8-31 | `animateValue` emits at most one value per frame |
| Tween.EmittedEndsAtTarget | stores/bookStore.ts:8-31 | once a frame at or past the duration arrives, the tween stops at or before it and its last value is exactly `to` |
| Tween.EmittedBetween | stores/bookStore.ts:8-31 | every value the tween emits lies between `from` and `to` |
| Tween.SampleInRange | dist/index.es.js:287-292 | one tween sample lies between `from` and `to` |
| FlipStore.FlipPage | dist/index.es.js:361-396 | a flip is a no-op while another is in flight or when the target page equals the current page; otherwise it claims the slot with the current page, progress 0 and the direction, and schedules one ticker; the book itself is untouched |
| FlipStore.FlipPageAtEnds | dist/index.es.js:367-386 | forward on the last page and backward on page 0 change nothing; anywhere else an idle store starts a flip |
| FlipStore.TickFlip | dist/index.es.js:374-378 | a tick writes `min(elapsed/500, 1)`; below 1 it re-schedules itself; at 1 it frees the slot and schedules the continuation timer only when continuous flipping is on in its own direction |
| FlipStore.FireContinue | dist/index.es.js:377 | the continuation re-checks continuous mode and direction when it fires, and only then calls `flipPage` |
| FlipStore.ToggleContinuousFlip | dist/index.es.js:397-400 | toggling the active direction stops continuous mode; any other call starts it in that direction and calls `flipPage` once |
| FlipStore.ToggleTwiceStops | dist/index.es.js:397-400 | toggling the same direction twice from idle ends with continuous mode off |
| FlipStore.BatchStep | dist/index.es.js:507-518 | one step of `flipPages` stops after `count` flips or at a boundary, never sets `flipDirection`, and otherwise claims the slot and schedules one ticker |
| FlipStore.FlipPages | dist/index.es.js:500-526 | `flipPages` is rejected while a flip is in flight or for a non-positive count; it schedules at most one ticker and never moves the book |
| FlipStore.TickBatch | dist/index.es.js:519-521 | a batch tick writes `min(elapsed/500, 1)`; at 1 it frees the slot and schedules the next step after 50 ms while flips remain |
| FlipStore.Call | dist/index.es.js:346-526 | flip actions never change the book; no action except reset touches a claimed slot; reset restores the initial store |
| FlipStore.Fire | dist/index.es.js:374-521 | no pending callback changes the book |
| FlipStore.Step | dist/index.es.js:341-526 | a step advances the clock to its time, and running a callback never changes the book |
| FlipStore.FlipsNeverMovePage | dist/index.es.js:361-526 | flips, toggles, batches and every callback leave `currentPage` unchanged |
| FlipStore.TickerCountZero | dist/index.es.js:374-380 | no ticker is counted exactly when no pending job is a ticker |
| FlipStore.InitialInv | dist/index.es.js:293-341 | the initial store with no tickers satisfies the one-flip-in-flight invariant |
| FlipStore.ActKeepsInv | dist/index.es.js:346-526 | every action preserves the invariant; reset only when the slot is free |
| FlipStore.TickKeepsInv | dist/index.es.js:374-378 | running a ticker preserves the invariant |
| FlipStore.GuardedKeepsInv | dist/index.es.js:500-526 | with the corrected batch continuation, every event preserves the invariant; reset only when the slot is free |
| FlipStore.GuardedProgressMonotone | dist/index.es.js:374-376 | while a flip is in flight, progress never decreases under any event other than reset |
| FlipStore.ContinuationRace | dist/index.es.js:507-521 | a concrete run in which the batch's 50 ms continuation claims a slot that `flipPage` already holds: two tickers run, the invariant breaks, and progress 0.94 is later written into a free slot; the corrected continuation keeps the invariant |
| FlipStore.ResetMidFlightOrphansTicker | dist/index.es.js:376 | a reset during a flight frees the slot but leaves the ticker pending, which then writes progress into the free slot |
| PageLayout.AvailableDepthValue | components/Book/Page.tsx:33-35 | the depth available to each stack is 0.275 |
| PageLayout.OrOne | components/Book/Page.tsx:42-47 | `x \|\| 1` is never zero and replaces only a zero divisor |
| PageLayout.BackOffsets | components/Book/Page.tsx:39-43 | back-stack offsets lie in [0, 0.275]; page 0 is at 0 and page `cp-1` at 0.275 when there are at least 2 back pages |
| PageLayout.FrontOffsets | components/Book/Page.tsx:44-49 | front-stack offsets lie in [-0.275, 0]; page `cp` is at 0 and the last page at -0.275 when there are at least 2 front pages |
| PageLayout.OffsetsOrdered | components/Book/Page.tsx:39-49 | back offsets are non-decreasing in the index and front offsets non-increasing |
| PageLayout.PageSize | components/Book/Page.tsx:19-20 | a page is 93% of the cover's width and 95% of its height, strictly inside the cover |
| BookRender.Drawn | components/Book/Book.tsx:124-126 | a stack draws exactly the indices of its range minus the skipped one, in increasing order |
| BookRender.Skipped | components/Book/Book.tsx:126 | the flipping page is skipped from its stack iff it exists and progress is positive |
| BookRender.BackStack | components/Book/Book.tsx:124-126 | the back stack holds exactly the pages below `currentPage` except one drawn flying, in increasing order |
| BookRender.FrontStack | components/Book/Book.tsx:153-156 | the front stack holds exactly the pages from `currentPage` to the last except one drawn flying, in increasing order |
| BookRender.EveryPageOnce | components/Book/Book.tsx:118-189 | every in-range page is drawn exactly once, by its stack or as the flying page; the back stack holds pages below `cp`, the front stack the rest |
| BookRender.SourceFlightAngle | components/Book/Book.tsx:178-189 | forward (flipping index below `cp`) runs from `backHinge` to `-frontHinge`; backward runs the other way |
| BookRender.DistFlightAngle | dist/index.es.js:956-957 | forward runs from `-frontHinge` to `backHinge`; any other direction runs the other way |
| BookRender.FlightBetweenCovers | components/Book/Book.tsx:181-189 | in both variants the flying page's angle stays between the two covers' angles |
| BookRender.VariantsRunOpposite | dist/index.es.js:957 | for a forward flip, the bundle's angle at progress p equals the source's at 1 - p |
| BookRender.TestPageAngle | components/Book/Book.tsx:225-230 | the test page is drawn iff its angle is positive, and at 180 it lies on the front cover |
| BookRender.TestPageBetweenCovers | components/Book/Book.tsx:225-230 | for angles in (0, 180] the test page lies between the covers |
| BookRender.CoverHinge | components/Book/Cover.tsx:30-34 | both covers pivot at x = 0.05; the front at z = +0.3 rotated by `-hinge`, the back at z = -0.3 rotated by `+hinge` |
| BookRender.StackHinge | components/Book/Book.tsx:118-152 | each page stack's group sits and turns exactly as its cover's hinge |
| BookRender.StackFace | components/Book/Book.tsx:123-152 | each stack is shifted half a cover's thickness inward, onto the cover's inside face at z = ∓0.275 |
| BookRender.StacksFollowCovers | components/Book/Book.tsx:118-149 | each page stack pivots exactly as its cover, and in a closed book (hinges 0) the world z of a back page lies in [-0.275, 0] and that of a front page in [0, 0.275], each on its cover's half of the spine |
| BookRender.CoverBody | components/Book/Cover.tsx:42-47 | in its hinge's frame the cover body spans x ∈ [0, width] from the pivot and y ∈ [-height/2, height/2] |
| BookRender.PageBody | components/Book/Page.tsx:52-55 | in the same frame a page spans x ∈ [0, 0.93·width] and y ∈ [-0.95·height/2, 0.95·height/2] |
| BookRender.PageWithinCover | components/Book/Cover.tsx:42-47 | a page lies on its cover: it starts at the pivot, stops short of the outer edge, and stays between the top and bottom edges |
| BookRender.CoverTransparent | components/Book/Cover.tsx:51 | the cover is transparent iff opacity is below 1 or a texture is present |
| Catalogue.SetFrontHinge | babelCatalogue.js:276-283 | afterwards every page rotation is at least `-angle`, pages already there are untouched, and the page count is kept |
| Catalogue.SetBackHinge | babelCatalogue.js:285-292 | afterwards every page rotation is at most `angle`, pages already there are untouched, and the page count is kept |
| Catalogue.PagesBetweenCovers | babelCatalogue.js:276-292 | after setting both hinges with `-front <= back` every page lies between them, and setting the same hinge twice changes nothing more |
| Catalogue.SetGlowIntensity | babelCatalogue.js:337-340 | the glow stored and mirrored to the material is the input clamped to [0, 2] |
| Catalogue.SetConfidenceScore | babelCatalogue.js:342-354 | stores the score clamped to [0, 1]; raises the glow to half the score only if that exceeds it; copies the score into particle intensity only when particles are enabled |
| Catalogue.SetParticleIntensity | babelCatalogue.js:357-359 | particle intensity is the input clamped to [0, 1] |
| Catalogue.SetScrollSpeed | babelCatalogue.js:452-454 | scroll speed is the input clamped to [0, 5] |
| Catalogue.MaxVelocity | babelCatalogue.js:315-322 | the maximum page speed is non-negative, bounds every page's speed, and is attained by a page when positive |
| Catalogue.UpdateGlow | babelCatalogue.js:308-333 | when time has passed, the glow moves a tenth of the way to the target (`max(min(0.1·v, 2), 0.5·confidence)`), the angles are remembered, and the emissive intensity written lies in [0, 2] |
| Catalogue.GlowStaysInRange | babelCatalogue.js:324-333 | with confidence in [0, 1], a glow in [0, 2] stays in [0, 2] under every update |
| Catalogue.MorphMaterial | babelCatalogue.js:477-487 | metal and glass get their colours, any other type falls back to leather; opacity is 0.3 and transparency on exactly for glass |
| Catalogue.MorphForgetsPrevious | babelCatalogue.js:477-487 | a morph overrides any earlier morph completely |
| Catalogue.ToggleHover | babelCatalogue.js:498-501 | hover is negated and the callback receives the new value |
| Catalogue.ToggleHoverTwice | babelCatalogue.js:498-501 | two toggles restore the widget, and the second callback reports the original hover state |
| Catalogue.ScrollFrame | babelCatalogue.js:538-541 | with page content on, the offset advances by the speed and resets to 0 once past 512; with it off, nothing changes |
| Catalogue.ScrollStaysInRange | babelCatalogue.js:538-541 | with non-negative speed the offset stays in [0, 512] after any number of frames |
| MaterialManager.Construct | src/core/MaterialManager.js:26 | a new material has every default property, overridden by the given options |
| MaterialManager.Create | src/core/MaterialManager.js:20-29 | an unknown type fails with "Unknown material type: …"; otherwise a fresh material is registered under the name, replacing any previous entry |
| MaterialManager.Get | src/core/MaterialManager.js:36-38 | lookup finds exactly the registered materials |
| MaterialManager.CreateKeepsOthers | src/core/MaterialManager.js:20-29 | creating a material keeps the registry well formed and leaves every other name's material as it was |
| MaterialManager.Resolve | src/core/MaterialManager.js:47-49 | a group keeps exactly the registered names' materials and is empty iff none of the names is registered |
| MaterialManager.ResolveInOrder | src/core/MaterialManager.js:47-49 | resolution keeps the names' order and repetitions: a list resolves to its parts resolved in turn, and one name to its material or to nothing |
| MaterialManager.CreateSyncedGroup | src/core/MaterialManager.js:46-57 | a group is registered only when at least one of its names is found; the materials are untouched |
| MaterialManager.GetPreset | src/core/MaterialManager.js:133-155 | "metal" and "glass" yield their presets, any other name yields leather, and only glass is see-through |
| MaterialManager.ApplyEdit | src/core/MaterialManager.js:65-193 | every edit marks the material for update; a colour edit sets only the colour; another property is written only if the material has it, and then nothing else changes; a transparency edit sets opacity and `transparent` iff opacity < 1 and keeps the colour and every other property; a preset sets the colour, roughness and metalness, for glass also opacity and `transparent: true`, and keeps every property it does not name |
| MaterialManager.EditIdempotent | src/core/MaterialManager.js:65-193 | applying any edit twice is the same as applying it once |
| MaterialManager.ForEach | src/core/MaterialManager.js:72-79 | the loop over a group's list keeps the set of materials in the heap |
| MaterialManager.ForEachEditsListed | src/core/MaterialManager.js:72-79 | editing a group's list edits exactly the set of materials it lists |
| MaterialManager.UpdateSynced | src/core/MaterialManager.js:65-80 | an unknown group is a no-op; otherwise every member gets the property edit |
| MaterialManager.EditTarget | src/core/MaterialManager.js:87-98 | an individual material takes precedence over a group of the same name; an unknown name or group changes nothing |
| MaterialManager.SetColor | src/core/MaterialManager.js:87-98 | a registered material gets the colour; otherwise the group update applies |
| MaterialManager.SetTransparency | src/core/MaterialManager.js:105-126 | a registered material gets opacity `clamp(opacity, 0, 1)` and transparency iff that is below 1, as one transparency edit; otherwise every member of a group of that name gets the same edit; otherwise nothing changes |
| MaterialManager.ApplyPreset | src/core/MaterialManager.js:162-193 | a registered material gets the preset's colour and properties as one preset edit; otherwise every member of a group of that name does; otherwise nothing changes |
| MaterialManager.EditTargetValid | src/core/MaterialManager.js:87-193 | editing keeps the registry well formed |
| MaterialManager.MaterialBeforeGroup | src/core/MaterialManager.js:162-177 | when a name is both a material and a group, only that material is edited |
| MaterialManager.GlassThenLeatherStaysSeeThrough | src/core/MaterialManager.js:133-175 | leather after glass sets the leather colour but keeps glass's opacity 0.3 and transparency, because leather names no opacity |
| MaterialManager.RecreateDetachesFromGroup | src/core/MaterialManager.js:20-29 | re-creating a name replaces the registry entry, and later group edits no longer reach the new material |
| MaterialManager.Dispose | src/core/MaterialManager.js:198-204 | both maps end empty and every registered material is disposed |
| MaterialManager.DisposeForgets | src/core/MaterialManager.js:198-204 | after dispose no name resolves and every edit is a no-op |
| PerformanceMonitor.Create | src/utils/PerformanceMonitor.js:6-11 | a new monitor has an empty window and no listeners |
| PerformanceMonitor.Push | src/utils/PerformanceMonitor.js:22-25 | a push appends the delta and drops the oldest entry only on overflow, so the window stays within the sample size |
| PerformanceMonitor.PushKeepsSuffix | src/utils/PerformanceMonitor.js:22-25 | one push keeps the window equal to the last `sampleSize` deltas |
| PerformanceMonitor.WindowIsRecentSuffix | src/utils/PerformanceMonitor.js:17-25 | after any run of updates the window holds the most recent `sampleSize` deltas in arrival order |
| PerformanceMonitor.MinOf | src/utils/PerformanceMonitor.js:50 | the minimum is an element and bounds every element from below |
| PerformanceMonitor.MaxOf | src/utils/PerformanceMonitor.js:51 | the maximum is an element and bounds every element from above |
| PerformanceMonitor.AverageBetween | src/utils/PerformanceMonitor.js:46-47 | the average frame time lies between the smallest and largest frame time |
| PerformanceMonitor.GetMetrics | src/utils/PerformanceMonitor.js:41-61 | an empty window reports 60 fps and 16.67 ms; otherwise the frame time is the mean to within 0.005, each rate is `1000 /` its frame time (mean, largest, smallest) to within 0.05, and a rate is `Infinity` exactly when that frame time is 0 |
| PerformanceMonitor.RatesOrdered | src/utils/PerformanceMonitor.js:46-60 | for positive frame times, `minFPS <= fps <= maxFPS`, both before and after rounding |
| PerformanceMonitor.Update | src/utils/PerformanceMonitor.js:17-35 | records the delta since the last call and notifies the `lowFPS` listeners iff the reported fps is below 50 |
| PerformanceMonitor.UpdateKeepsBound | src/utils/PerformanceMonitor.js:22-25 | the window never exceeds the sample size and is non-empty after an update |
| PerformanceMonitor.On | src/utils/PerformanceMonitor.js:68-70 | a registration is appended to the listener list |
| PerformanceMonitor.Off | src/utils/PerformanceMonitor.js:76-78 | every registration of the callback is removed, whatever its event, and all others are kept |
| PerformanceMonitor.OnThenOff | src/utils/PerformanceMonitor.js:68-78 | unsubscribing a callback that was just subscribed for the first time restores the listener list |
| PerformanceMonitor.FilterAppend | src/utils/PerformanceMonitor.js:77 | filtering keeps registration order |
| PerformanceMonitor.Notified | src/utils/PerformanceMonitor.js:84-88 | exactly the callbacks registered for the event are notified |
| PerformanceMonitor.NotifiedInOrder | src/utils/PerformanceMonitor.js:68-88 | listeners are called in registration order, once per registration: a new registration for the event is called last, and one for another event changes nothing |
| PerformanceMonitor.Reset | src/utils/PerformanceMonitor.js:93-96 | reset empties the window, restarts the clock, and keeps the sample size and listeners |
| PerformanceMonitor.ResetReportsDefault | src/utils/PerformanceMonitor.js:42-44 | after reset the metrics report 60 fps |
| PoissonDisk.Create | src/utils/PoissonDiskSampler.js:6-14 | a new sampler has an empty grid and active list and the given extents |
| PoissonDisk.CellOf | src/utils/PoissonDiskSampler.js:112-114 | a point's cell is the floor of its offset from the box corner divided by the cell size, on each axis |
| PoissonDisk.AddPoint | src/utils/PoissonDiskSampler.js:111-118 | a point is filed under its cell, replacing any occupant, and appended to the active list |
| PoissonDisk.Clear | src/utils/PoissonDiskSampler.js:120-123 | clear empties both grid and active list |
| PoissonDisk.RandomPoint | src/utils/PoissonDiskSampler.js:61-67 | for draws in [0, 1), a random point lies in the centred box |
| PoissonDisk.AroundInAnnulus | src/utils/PoissonDiskSampler.js:69-77 | a point drawn around another is at planar radius in [d, 2d) and within ±d/2 in z |
| PoissonDisk.SameCellClose | src/utils/PoissonDiskSampler.js:11 | with cell size d/√3 (or any size in the band `3c² <= d² <= 4c²`), two points in one cell are closer than d |
| PoissonDisk.FarCellsFar | src/utils/PoissonDiskSampler.js:11 | two points whose cells differ by 3 or more on some axis are farther apart than d |
| PoissonDisk.ValidNeverOverwrites | src/utils/PoissonDiskSampler.js:79-118 | a point that passes the check lands in an empty cell |
| PoissonDisk.ValidFarFromAll | src/utils/PoissonDiskSampler.js:79-109 | a point that passes the corrected check is at least d from every stored point |
| PoissonDisk.ValidKeepsSpaced | src/utils/PoissonDiskSampler.js:38-39 | adding a point that passes the corrected check keeps every stored point filed under its cell and all stored points pairwise at least d apart |
| PoissonDisk.AsWrittenAcceptsTooClose | src/utils/PoissonDiskSampler.js:91-106 | the check as written accepts a point 1.5 cells from a stored one, so the grid stops being spaced |
| PoissonDisk.AsWrittenAcceptsOrigin | src/utils/PoissonDiskSampler.js:91-106 | with unit cells and minimum distance 2 in a box 4 wide, the check as written accepts the origin next to a stored point at x = -1.5 |
| PoissonDisk.ClearWithinNarrower | src/utils/PoissonDiskSampler.js:91-106 | a point clear of the stored points within some reach is clear within every smaller reach |
| PoissonDisk.FirstPointSpaced | src/utils/PoissonDiskSampler.js:25-27 | the first point in an empty sampler leaves it spaced |
| PoissonDisk.Search | src/utils/PoissonDiskSampler.js:36-44 | the 30-try search returns only points in the box and clear within the given reach (reach 1 is `isValid` as shipped, reach 2 the corrected check), uses 3 draws per rejected try, and all of them when nothing is found |
| PoissonDisk.Step | src/utils/PoissonDiskSampler.js:30-50 | an iteration either adds a point that passes the check at the given reach or retires exactly one active point, and always consumes a draw |
| PoissonDisk.StepKeepsSpaced | src/utils/PoissonDiskSampler.js:30-50 | with a reach of at least 2, every iteration keeps the grid filed and spaced |
| PoissonDisk.Sample | src/utils/PoissonDiskSampler.js:21-59 | at any reach, returns exactly `max(count, 1)` points, all inside the box; with a reach of at least 2, from an empty sampler the grid it builds is filed and spaced |
| CoverText.Split | hooks/useCoverTexture.ts:33 | splitting gives at least one piece and no piece contains the separator |
| CoverText.SplitJoin | hooks/useCoverTexture.ts:33 | joining the pieces with the separator gives back the string |
| CoverText.JoinSplit | hooks/useCoverTexture.ts:43 | splitting joined separator-free pieces gives back the pieces |
| CoverText.Wrap | hooks/useCoverTexture.ts:48-64 | the wrap emits between 1 and one-per-word segments; segment k sits k steps below the start; every segment before the last is non-empty; the first starts with the pending text |
| CoverText.WrapJoin | hooks/useCoverTexture.ts:43-64 | for non-empty words, joining the emitted segments with spaces reproduces the pending text plus the words |
| CoverText.WrapFits | hooks/useCoverTexture.ts:52-56 | each segment either fits in 450 or is a single word, so an overlong word is never split |
| CoverText.WrapGreedy | hooks/useCoverTexture.ts:52-55 | each break is forced: a segment plus the next segment's first word is wider than 450 |
| CoverText.FontSize | hooks/useCoverTexture.ts:34 | the font size is at most 48, and exactly 48 for up to 8 lines |
| CoverText.FontSizeIsFloor | hooks/useCoverTexture.ts:34 | beyond 8 lines the font size is the largest integer whose multiple by the line count fits in 400 |
| CoverText.LinesCentred | hooks/useCoverTexture.ts:38-40 | lines are spaced by `fontSize + 10` and placed symmetrically about 256 |
| CoverText.CoverTexture | hooks/useCoverTexture.ts:13-65 | no texture iff the text is missing or empty; otherwise one block per line, each starting at its centred y |
| CoverText.CoverRoundTrip | hooks/useCoverTexture.ts:33-64 | for text without empty words, the drawn segments rejoined by spaces and then by newlines give back the text |
| CoverText.LineRoundTrip | hooks/useCoverTexture.ts:43-64 | for a line without empty words, its segments rejoined by spaces give back the line |
| Particles.Centred | components/Book/Particles.tsx:30-32 | a centred draw `(d - 0.5)·e` lies in [-e/2, e/2) |
| Particles.Spawn | components/Book/Particles.tsx:30-32 | for draws in [0, 1) and non-negative dimensions a spawn point lies in x ∈ [-w/4, w/4], y ∈ [-h/2, h/2], z ∈ [-d/2, d/2], strictly below the upper end for a positive extent |
| Particles.InitialVelocity | components/Book/Particles.tsx:35-37 | velocities satisfy vx ∈ [0.01, 0.03), vy ∈ [0, 0.01), and \|vz\| ≤ 0.0025 |
| Particles.Init | components/Book/Particles.tsx:26-38 | every particle is spawned from its own six draws, with the velocity ranges above, inside the band |
| Particles.SpawnInBand | components/Book/Particles.tsx:60-73 | a spawn point lies inside the band that frames keep |
| Particles.Move | components/Book/Particles.tsx:54-73 | velocity is never changed; a particle still in the band after advancing is kept without a draw; the result is in the band: x ≤ 2w, \|y\| ≤ 1.5h, \|z\| ≤ 1.5d |
| Particles.Frame | components/Book/Particles.tsx:44-77 | a disabled frame changes nothing; an enabled frame moves every particle and keeps every velocity and every particle in the band |
| Particles.StillFrame | components/Book/Particles.tsx:55-57 | at intensity 0 a particle in the band stays put and no draw is used |
| Particles.MoveAll | components/Book/Particles.tsx:51-74 | each particle is moved as `Move` does it, with velocities kept and the band respected |
| Particles.FramesKeepBand | components/Book/Particles.tsx:44-77 | over any number of frames, particles starting in the band stay in it and keep their velocities |
| Particles.Render | components/Book/Particles.tsx:79-97 | nothing is drawn when disabled; otherwise opacity is `max(0.05, intensity)` and size is 0.05 times it |

## Left out

- Rendering, DOM and events:
  - THREE scene, mesh and material construction;
  - canvas drawing (`fillText`, `fillRect`, `strokeRect`, fonts, colours);
  - React markup and context;
  - CustomEvent dispatch;
  - `resize` and the widget's `dispose`.
  These are I/O with no logic to state.
- `useCoverTexture`'s `!ctx` null return (hooks/useCoverTexture.ts:21): a missing canvas context is outside the model. `measureText` is a width oracle `string -> real`.
- `Particles.tsx`'s `!pointsRef.current` guard is folded into `enabled`, which is the only case that carries logic.
- Scheduling: `requestAnimationFrame`, `setTimeout` and `performance.now` become explicit events with times in a `World`. TWEEN's timelines are not modelled.
- Randomness: `Math.random` is an oracle `nat -> real` with values in [0, 1), read at an explicit cursor. The angle's `cos`/`sin` is an oracle returning a unit vector.
- Floating point: reals replace doubles. `Float32Array` storage is left out, and so are NaN and Infinity. The exception is `1000 / 0`, which is `Infinity` in the frame-rate metrics.
- `PoissonDisk.Create`: the cell size `minDistance/√3` is irrational for rational distances, so it is a parameter. `CellOfSize` states the band `3·cellSize² <= minDistance² <= 4·cellSize²`, which contains the exact size and is all the spacing proofs need.
- String cell keys `"x,y,z"` become integer triples. This makes the key map injective, as the strings are.
- `PerformanceMonitor.GetMetrics` rounds as `Math.round` does. `getReport` only formats text and is left out.
- `getMaterialNames` and `getSyncedGroupNames` only list the keys of the two maps, which the model exposes directly.
- The vendored runtime in `dist/index.es.js:1-286` is left out. The store's `set` is a record update.
- Other cosmetic animations are left out: `openBook`/`closeBook` are tweens of `animateValue`, which is modelled on its own. Also left out are `triggerEmotion` (random shake, nested timers), `easeOutElastic` (`sin`), and the TWEEN-driven `flipPages`, `resetPages` and `glitch` in `babelCatalogue.js`.
- `babelCatalogue.js`'s construction order reads bindings before they are declared. The setters are modelled against a widget that has already been constructed.
- Plain setters that only store their argument (`setTilt`, `setScale`, colours, opacities, text) carry no logic beyond a record update.
- FlipStore.ActKeepsInv: the invariant is proved for `reset` only when no flip is in flight. A reset mid-flight orphans the running ticker, which ResetMidFlightOrphansTicker exhibits.
- FlipStore.GuardedKeepsInv: the same restriction on `reset` applies.
- BookConfig.SetCurrentPage: the model requires a positive page count. With 0 pages JavaScript stores NaN, and the clamps keep the count at 10 or more anyway.
- Particles.Frame: its loop is proved to keep the band and the velocities per index. It is not proved equal to the functional MoveAll.
- Particles.FramesKeepBand: the lemma assumes the particles start in the band, as `Init` guarantees for non-negative dimensions.
- PoissonDisk.Sample: the neighbourhood reach is a parameter. Reach 1 is the source's check, for which only the point count and the box are promised, because spacing fails (see Findings). Spacing is proved for reach 2 and more.
- PoissonDisk.Search: with reach 1 it is the source's search; its result then passes `isValid` as shipped, which does not imply spacing.
- PoissonDisk.Step: the same holds for one iteration at reach 1.
- SourceStore.FlipPages: the end-to-end count is proved only when nothing else touches the store between the callbacks. `FlipNext` models each callback against whatever store it then finds. Interleavings with another `flipPages` chain, `setPageCount` or `reset` are not enumerated.
- SourceStore.FlipPages: the count is an integer. A fractional count such as 2.5 makes the source flip 3 times, which is not modelled. The same holds for `setPageCount` with a fractional count.
- Catalogue.MorphMaterial: the type is compared by name only. A name that is an inherited `Object.prototype` key, such as "constructor", finds a non-colour in `colors` that THREE's `Color.set` ignores. The model gives it leather's colour instead.
- Catalogue.MorphForgetsPrevious: the same restriction to plain names applies.
- MaterialManager.GetPreset: a preset name that is an inherited `Object.prototype` key, such as "toString", yields a function with no own entries, so `applyPreset` would only set `needsUpdate`. The model gives leather for every name other than "metal" and "glass".
- MaterialManager.ApplyPreset: the same restriction to plain preset names applies.

## Findings

| source | as written | input that shows it | evidently intended | confidence | as-written member | corrected member |
|---|---|---|---|---|---|---|
| dist/index.es.js:507-521 | the 50 ms continuation of `flipPages` claims the flip slot without checking that it is free | `flipPages(2, forward)` at 0 ms; `flipPage(forward)` at 510 ms, after the first batch flip ends at 500 ms; the batch continuation fires at 550 ms. Two tickers then run, and at 1020 ms progress 0.94 is written into a free slot | the continuation re-checks `flippingPageIndex` like `flipPages` itself does, so at most one flip is ever in flight | not executed | FlipStore.ContinuationRace | FlipStore.GuardedKeepsInv |
| src/utils/PoissonDiskSampler.js:91-106 | `isValid` searches only the 27 cells within one step, with cell size `minDistance/√3` | a stored point half a cell from the left wall, and a candidate two cells from it on the same mid-line: they are 1.5 cells ≈ 0.87·minDistance apart, yet the candidate is accepted | every accepted point is at least `minDistance` from all others, which needs a reach of 2 cells (125 cells) | not executed | PoissonDisk.AsWrittenAcceptsTooClose | PoissonDisk.ValidKeepsSpaced |
