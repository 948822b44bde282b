/** An abstract ledger of the resources kmsgrab.c acquires and releases: the DRM
    card descriptor, dma-buf file descriptors, drmModeFB records and EGL images.
    The program's history is a trace of operations; what is held at any point is
    the trace replayed from nothing. */
module Ledger {

  datatype Op =
    | OpenCard      // open("/dev/dri/card0")
    | CloseCard     // close(drmfd)
    | GetFb         // a successful drmModeGetFB
    | FreeFb        // drmModeFreeFB
    | PrimeToFd     // drmPrimeHandleToFD: a new dma-buf descriptor
    | CloseDmaBuf   // close(dma_buf_fd)
    | CreateImage   // a successful eglCreateImage
    | DestroyImage  // eglDestroyImage

  /** How many of each resource are held. */
  datatype Held = Held(cards: int, dmaBufs: int, fbs: int, images: int)

  const Nothing: Held := Held(0, 0, 0, 0)

  /** What the render loop holds between frames: the card, one dma-buf, one
      framebuffer record and one image. */
  const Steady: Held := Held(1, 1, 1, 1)

  function Step(h: Held, op: Op): Held
  {
    match op
    case OpenCard => Held(h.cards + 1, h.dmaBufs, h.fbs, h.images)
    case CloseCard => Held(h.cards - 1, h.dmaBufs, h.fbs, h.images)
    case GetFb => Held(h.cards, h.dmaBufs, h.fbs + 1, h.images)
    case FreeFb => Held(h.cards, h.dmaBufs, h.fbs - 1, h.images)
    case PrimeToFd => Held(h.cards, h.dmaBufs + 1, h.fbs, h.images)
    case CloseDmaBuf => Held(h.cards, h.dmaBufs - 1, h.fbs, h.images)
    case CreateImage => Held(h.cards, h.dmaBufs, h.fbs, h.images + 1)
    case DestroyImage => Held(h.cards, h.dmaBufs, h.fbs, h.images - 1)
  }

  /** The holdings after performing `ops`, in order, starting from `h`. */
  function Replay(h: Held, ops: seq<Op>): Held
    decreases |ops|
  {
    if ops == [] then h else Step(Replay(h, ops[..|ops| - 1]), ops[|ops| - 1])
  }

  /** Nothing released that was not held, and never two of one kind at once. */
  predicate AtMostOne(h: Held)
  {
    0 <= h.cards <= 1 && 0 <= h.dmaBufs <= 1 && 0 <= h.fbs <= 1 && 0 <= h.images <= 1
  }

  /** The ordering discipline, checked operation by operation: after the trace
      and after each of its shorter prefixes at most one of each resource is held. */
  ghost predicate Disciplined(trace: seq<Op>)
    decreases |trace|
  {
    AtMostOne(Replay(Nothing, trace)) && (trace == [] || Disciplined(trace[..|trace| - 1]))
  }

  /** The meaning of Disciplined: every prefix of the trace, the empty one and
      the whole trace included, leaves at most one of each resource held, so each
      old resource is released before its successor is acquired and nothing is
      released twice. */
  lemma {:induction false} DisciplinedEveryPrefix(trace: seq<Op>)
    ensures Disciplined(trace) <==>
            forall k :: 0 <= k <= |trace| ==> AtMostOne(Replay(Nothing, trace[..k]))
    decreases |trace|
  {
    if trace != [] {
      var init := trace[..|trace| - 1];
      DisciplinedEveryPrefix(init);
      assert forall k :: 0 <= k <= |init| ==> init[..k] == trace[..k];
      assert trace[..|trace|] == trace;
    } else {
      assert trace[..0] == trace;
    }
  }

  /** Replaying a concatenation replays its parts in turn. */
  lemma {:induction false} ReplayAppend(h: Held, a: seq<Op>, b: seq<Op>)
    ensures Replay(h, a + b) == Replay(Replay(h, a), b)
    decreases |b|
  {
    if b == [] {
      assert a + b == a;
    } else {
      var b' := b[..|b| - 1];
      assert (a + b)[..|a + b| - 1] == a + b';
      assert (a + b)[|a + b| - 1] == b[|b| - 1];
      ReplayAppend(h, a, b');
    }
  }

  /** Appending one operation to a disciplined trace keeps it disciplined when the
      resulting holdings are within bounds. */
  lemma DisciplinedSnoc(trace: seq<Op>, op: Op)
    requires Disciplined(trace)
    requires AtMostOne(Step(Replay(Nothing, trace), op))
    ensures Disciplined(trace + [op])
    ensures Replay(Nothing, trace + [op]) == Step(Replay(Nothing, trace), op)
  {
    var t := trace + [op];
    assert t[..|t| - 1] == trace;
    assert t[|t| - 1] == op;
  }

  /** The operations of one successful re-import, in the order the render loop
      performs them. */
  function ReimportOps(): seq<Op>
  {
    [CloseDmaBuf, FreeFb, GetFb, PrimeToFd, DestroyImage, CreateImage]
  }

  /** Holdings after the first `k` operations of a re-import started from `Steady`. */
  function ReimportHeld(k: nat): Held
    requires k <= |ReimportOps()|
  {
    if k == 0 then Steady else Step(ReimportHeld(k - 1), ReimportOps()[k - 1])
  }

  lemma {:induction false} ReimportPrefix(k: nat)
    requires k <= |ReimportOps()|
    ensures Replay(Steady, ReimportOps()[..k]) == ReimportHeld(k)
  {
    var ops := ReimportOps();
    if k > 0 {
      ReimportPrefix(k - 1);
      assert ops[..k][..k - 1] == ops[..k - 1];
    } else {
      assert ops[..k] == [];
    }
  }

  /** A successful re-import from the steady holdings never holds two of anything
      at any point of the frame, and ends where it started. */
  lemma ReimportKeepsSteady()
    ensures forall k :: 0 <= k <= |ReimportOps()| ==> AtMostOne(Replay(Steady, ReimportOps()[..k]))
    ensures Replay(Steady, ReimportOps()) == Steady
  {
    forall k | 0 <= k <= |ReimportOps()|
      ensures AtMostOne(Replay(Steady, ReimportOps()[..k]))
    {
      ReimportPrefix(k);
      ReimportHeldBounded(k);
    }
    ReimportPrefix(|ReimportOps()|);
    ReimportHeldBounded(|ReimportOps()|);
    assert ReimportOps()[..|ReimportOps()|] == ReimportOps();
  }

  lemma ReimportHeldBounded(k: nat)
    requires k <= |ReimportOps()|
    ensures AtMostOne(ReimportHeld(k))
    ensures k == |ReimportOps()| ==> ReimportHeld(k) == Steady
  {
    assert ReimportHeld(1) == Held(1, 0, 1, 1);
    assert ReimportHeld(2) == Held(1, 0, 0, 1);
    assert ReimportHeld(3) == Held(1, 0, 1, 1);
    assert ReimportHeld(4) == Held(1, 1, 1, 1);
    assert ReimportHeld(5) == Held(1, 1, 1, 0);
    assert ReimportHeld(6) == Held(1, 1, 1, 1);
    assert k == 0 || k == 1 || k == 2 || k == 3 || k == 4 || k == 5 || k == 6;
  }

  /** `n` re-imports in a row.  */
  function Repeat(ops: seq<Op>, n: nat): seq<Op>
  {
    if n == 0 then [] else ops + Repeat(ops, n - 1)
  }

  /** Any number of successful frames leaves exactly one card, dma-buf,
      framebuffer record and image held: nothing accumulates. */
  lemma {:induction false} FramesKeepSteady(n: nat)
    ensures Replay(Steady, Repeat(ReimportOps(), n)) == Steady
  {
    if n > 0 {
      ReplayAppend(Steady, ReimportOps(), Repeat(ReimportOps(), n - 1));
      ReimportKeepsSteady();
      FramesKeepSteady(n - 1);
    }
  }
}
