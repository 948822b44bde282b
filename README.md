# kmsgrab capture core in Dafny

kmsgrab captures what a DRM/KMS display plane is showing, without copying it.
It turns the plane's framebuffer into a dma-buf, imports that into EGL as an
image, and draws it in an X11 window. This model covers the capture core of
`kmsgrab.c`:

- **`prepareImage` and its global hint `lastGoodPlane`** (`PlaneScanner`). It chooses the
  plane to capture. The hinted plane is checked first. Otherwise the planes
  are rescanned in order, with the 256-pixel cursor size filter. The hint is a
  field of the class `Scanner`. `PrepareImage` is its loop, proved against the
  reference function `Select`, whose properties are proved as lemmas.
- **The command-line handling at the top of `main`** (`CommandLine`).
- **The event switch of the render loop and the queue drain around it** (`Events`).
- **The resources the program acquires and releases** (`Ledger`). These are the card
  descriptor, dma-buf descriptors, `drmModeFB` records and EGL images. The
  program's history is a trace of operations. What is held is that trace
  replayed from nothing. The *ordering discipline* means that at every prefix
  of the trace at most one of each resource is held, and none is released
  twice.
- **The program itself** (`Capture`). It covers start-up, the first import, the
  per-frame re-import, the permission-failure paths and the `exit:` path. The
  class `Session` holds the locals of `main` as fields, with the trace as a
  ghost field. Every method states its outcome and what is held afterwards.
  The render loop `Run` keeps `Live()` as its loop invariant. `Live()` means
  the trace is disciplined and exactly one of each resource is held.

The kernel's state is given as immutable snapshots (`Kms.Display`): the plane
list and the framebuffer table. A framebuffer id missing from the table is one
for which `drmModeGetFB` returns NULL. Each capture takes two snapshots: one
that `prepareImage` scans and one that the following `drmModeGetFB` reads
(`Platform.display`/`fetched`, `Tick.display`/`fetched`), since the planes can
change between the two calls. When the two agree, only a fast-path id can have
no record (`RescanPicksFetchable`). X11, EGL and GL calls that can fail are booleans
saying whether they succeeded (`Capture.Platform`, `Capture.Tick`). Every failed
`ASSERT` makes `main` return 0.

### Where the model follows the code rather than the design intent

- The cursor filter (lines 62-65) skips a buffer only when *both* sides differ
  from 256, so a 256x1080 buffer is a cursor candidate (`CursorAcceptsHalfMatch`).
- The fast path (lines 43-49) returns whatever id sits on the hinted plane.
  It does not classify the buffer or fetch its record. On the very first call
  the hint is plane 0. So with a 256x256 buffer on plane 0, a request for the
  primary plane gets the cursor's id (`CursorAndPrimaryPlanes`).
- A stale id whose record cannot be fetched is not skipped. `fb->handle` is
  read from a NULL pointer (lines 137-138 and 363-364). The model ends in
  `Status.Crashed` there.
- The render loop destroys the old EGL image *before* creating the new one
  (lines 381-392). It does not wait until the replacement exists.
- The `exit:` path releases the dma-buf descriptor and the framebuffer record
  only (lines 413-417). The card descriptor is not closed, and the last image
  is never destroyed explicitly; only `eglTerminate` (line 423, outside the
  model) tears down the display's EGL objects. So `Shutdown` ends at
  `Held(1, 0, 0, 1)`. The permission failure inside the loop closes the card
  but not the image (`Held(0, 0, 0, 1)`).

## Model

| member | source | states |
|---|---|---|
| PlaneScanner.FirstCandidate | kmsgrab.c:50-83 | a found index lies in the scanned range and is a candidate: a plane with a buffer, a fetchable record and a size the filter lets through |
| PlaneScanner.FirstCandidateIsFirst | kmsgrab.c:50-83 | the rescan finds the lowest candidate at or after the start index, and finds nothing exactly when that range holds no candidate |
| PlaneScanner.FastPath | kmsgrab.c:43-49 | a hinted plane with a non-zero id is returned as it is, and the hint is kept |
| PlaneScanner.FastPathReadsOnlyHint | kmsgrab.c:43-49 | the fast path's result depends only on the hinted plane, not on other planes, the framebuffer table or the cursor request |
| PlaneScanner.SelectShape | kmsgrab.c:39-90 | the new hint is a plane index; the result is 0 or the id on the new hint's plane; a 0 result leaves the hint unchanged |
| PlaneScanner.RescanFirstMatch | kmsgrab.c:49-84 | with an empty hinted plane, the result is non-zero iff some plane is a candidate, and then it is the id of the lowest-index candidate, which becomes the hint |
| PlaneScanner.NoBufferNoSelection | kmsgrab.c:49-89 | when no plane has a buffer attached the result is 0 and the hint stays |
| PlaneScanner.PrimaryRescanAvoidsCursor | kmsgrab.c:66-69 | a primary-plane rescan never picks a 256x256 buffer whose handle is visible, and the picked id has a record |
| PlaneScanner.CursorRescanNeedsOneSide | kmsgrab.c:62-65 | a cursor rescan picks a buffer with a visible handle only if one of its sides is 256 |
| PlaneScanner.RescanPicksFetchable | kmsgrab.c:50-78 | an id the rescan picks, for either request, has a record in the display it scanned |
| PlaneScanner.NoHandleNoFilter | kmsgrab.c:53-70 | with no visible handles the size filter is off: the rescan finds an id iff some plane has a fetchable buffer, and then takes the first such plane, which becomes the hint |
| PlaneScanner.SelectionIsSticky | kmsgrab.c:37-49 | after a call that found a buffer, a call on the same display returns the same id and hint, whatever is requested |
| PlaneScanner.CursorAcceptsHalfMatch | kmsgrab.c:62-65 | a cursor request accepts a 256x1080 buffer |
| PlaneScanner.CursorAndPrimaryPlanes | kmsgrab.c:43-78 | with a 256x256 plane (id 7) then a 1920x1080 plane (id 3), a rescan picks 3 for primary and 7 for cursor, but the hint on plane 0 makes both requests return 7 |
| PlaneScanner.Scanner.constructor | kmsgrab.c:37 | the hint starts at plane 0 |
| PlaneScanner.Scanner.PrepareImage | kmsgrab.c:39-90 | the returned id and the updated `lastGoodPlane` are exactly `Select` of the display, the request and the previous hint, and the hint stays a plane index |
| CommandLine.ParseArgs | kmsgrab.c:97-113 | defaults of 1280x720 windowed; one argument sets fullscreen iff it reads as -1 and never changes the width; two or more set width and height from what was read, leaving a default where nothing was read |
| Events.Dispatch | kmsgrab.c:323-345 | the action is Exit iff the event is any client message, a destroy or unmap notification, or an Escape or q key press; it is Resize iff the event is a configure notification, carrying its size |
| Events.ExitIffQuitEvent | kmsgrab.c:320-346 | draining the queue requests an exit iff the queue holds a quit event |
| Events.QuitIgnoresRest | kmsgrab.c:331-344 | events queued after a quit event have no effect |
| Events.LastResizeWins | kmsgrab.c:324-329 | without a quit event, the size after the drain is that of the last resize |
| Events.NoResizeKeepsSize | kmsgrab.c:320-346 | a queue with no quit event and no resize keeps the size |
| Ledger.DisciplinedEveryPrefix | kmsgrab.c:358-394 | a trace is disciplined iff every prefix of it leaves at most one card, dma-buf, record and image held, with none released twice |
| Ledger.ReimportKeepsSteady | kmsgrab.c:358-396 | a successful re-import from the steady holdings stays within one of each at every step, and ends back at the steady holdings |
| Ledger.FramesKeepSteady | kmsgrab.c:319-411 | any number of successful frames in a row leaves exactly one of each resource held |
| Capture.Session.constructor | kmsgrab.c:97-100 | the request is for the primary plane; no dma-buf descriptor, framebuffer record or resource is held yet |
| Capture.Session.Startup | kmsgrab.c:115-301 | exit 1 holding nothing when the card does not open; exit 0 holding the card when DRM is unavailable; the first import's outcomes (exit 1 with no id, a crash on a missing record, exit 0 holding nothing without a handle) and the hint the scan leaves; exit 0 when the window or image setup fails, or when the texture binding fails, with what is held in each case; otherwise running with `Live()`, the chosen record, its dma-buf descriptor and the dma-buf description every later image reuses |
| Capture.Session.ImportFirst | kmsgrab.c:129-156 | the scanner's choice; exit 1 with no id; a crash when the record is missing; without a handle, the record and the card are released and the exit is 0 holding nothing; otherwise the dma-buf description of the record, and one card, dma-buf and record held |
| Capture.Session.DrainEvents | kmsgrab.c:320-346 | the new size and exit flag are those of `ApplyEvents` on the queue and the old size |
| Capture.Session.Frame | kmsgrab.c:352-397 | the scanner's choice from the previous hint; with no id nothing else changes; otherwise the exact operation sequence and holdings of each re-import outcome, judged on the record fetched after the scan; when still running, `Live()` holds |
| Capture.Session.Reimport | kmsgrab.c:357-397 | the exact operation sequence and holdings of each outcome: a crash on a missing record; exit 0 after releasing the record and the card when the handle is hidden; exit 0 without an image when creation fails; otherwise the six-step re-import, back to `Live()` |
| Capture.Session.ReleaseFrame | kmsgrab.c:358-361 | the held dma-buf descriptor is closed and the held record freed, in that order |
| Capture.Session.AcquireFrame | kmsgrab.c:363-396 | the operations after the release, and what is held, for each outcome of the fetch, the handle check and the image creation |
| Capture.Session.ReplaceImage | kmsgrab.c:378-396 | the new descriptor is converted, then the old image destroyed and the new one created |
| Capture.Session.Shutdown | kmsgrab.c:413-417 | exit 0 after closing the dma-buf and freeing the record; the card and the image remain held |
| Capture.Session.Run | kmsgrab.c:319-411 | the discipline holds whatever the run; every exit is with code 0; a run still in the loop satisfies `Live()` |
| Capture.Launch | kmsgrab.c:93-425 | the whole of `main`: every exit code is 0 or 1, and it is 1 exactly when the card does not open or DRM is available but no framebuffer is found; the discipline holds on every path, and a run that is still looping holds exactly one of each resource |

## Left out

- X11, EGL and GL are out: display and window creation, the EGL configuration,
  context and surface, the shader program, drawing and presentation (lines
  160-317, 400-409 and 418-424). Each call that can fail is given as a boolean:
  `Platform.windowReady`, `imageCreated`, `textureBound` and `Tick.presented`.
- `sscanf("%i")` text conversion is out: decimal, octal and hex prefixes, and
  overflow. Each conversion is given as its result, `Option<int>`.
- Kernel calls are reads of immutable snapshots: one for the scan and one for
  the fetch after it. Changes to the planes while `prepareImage` itself runs
  are not modelled. The number of planes is the same in
  every snapshot (ghost `planeCount`).
- `drmPrimeHandleToFD` (lines 155 and 378): its return value is ignored by
  the program, and its failure is not modelled. It always yields a new
  descriptor, given as a parameter.
- The plane-resource and plane records that `prepareImage` allocates are not
  in the ledger. So the leaks on its `continue` paths are not shown (lines 57
  and 63-68 skip `drmModeFreePlane`, and 63-68 also skip `drmModeFreeFB`).
  Neither is `drmModeFreePlaneResources`.
- PlaneScanner.Scanner.PrepareImage: requires the hint to be a plane index.
  The C code indexes the plane array with `lastGoodPlane` unchecked, so an
  empty plane list is undefined behaviour, not a handled case.
- The attributes given to `eglCreateImage` in the loop are the stale
  `eimg_attrs` of the first import. The model keeps `img` from the first
  import and treats each re-creation as a success flag. It does not say which
  buffer the image shows.
- The fourcc is the fixed `DRM_FORMAT_XRGB8888`. Pixel formats are not
  interpreted.
- `uint32_t` and `int` widths are unbounded integers. No wrap-around of
  framebuffer ids, plane indices or sizes is modelled.
- The endless `for (;;)` loop is a finite sequence of iterations (`Run`'s
  `ticks`). A run that ends while still in the loop is reported as `Running`.
- Capture.Session.Run: states the discipline, `Live()` while looping and the
  exit code. It does not state the exact trace of a whole run. That is stated
  per iteration by `Frame` and `Reimport`, and for runs of successful frames
  by `Ledger.FramesKeepSteady`.
- Messages printed with `MSG`/`perror` are out.
- The card path, fixed to `/dev/dri/card0`, is out.
- `drmSetClientCap` is out, since its result is ignored.
