/** The capture program of kmsgrab.c: start-up, the render loop's per-frame
    re-import of the chosen framebuffer, and the shutdown path. X11, EGL and GL
    calls are outside the model; each one that can fail is given as a flag saying
    whether it succeeded, and the resources the program holds are tracked in a
    ghost trace over the ledger of module Ledger. */
module Capture {
  import opened Wrappers
  import opened Kms
  import opened PlaneScanner
  import opened Events
  import opened Ledger
  import CommandLine

  /** DRM_FORMAT_XRGB8888, the fourcc code 'X','R','2','4'. */
  const FormatXrgb8888: nat := 0x34325258

  /** The dma-buf description handed to eglCreateImage. */
  datatype DmaBuf = DmaBuf(width: nat, height: nat, fourcc: nat, fd: int, offset: nat, pitch: nat)

  /** Where the program is: still in its render loop, returned from `main` with
      an exit code, or stopped by dereferencing a NULL framebuffer pointer. */
  datatype Status = Running | Exited(code: int) | Crashed

  /** What the outside world answers during start-up: whether the card opens,
      whether DRM is available, the kernel's display state while `prepareImage`
      scans it and again when `drmModeGetFB` fetches the chosen record (the
      planes may change in between), the descriptor the kernel hands out for the
      buffer, whether the X window and EGL context are set up (every ASSERT up to
      the context being made current), whether eglCreateImage succeeds, and
      whether the texture binding succeeds. */
  datatype Platform = Platform(
    cardOpens: bool, drmAvailable: bool, display: Display, fetched: Display, primeFd: nat,
    windowReady: bool, imageCreated: bool, textureBound: bool)

  /** What the outside world answers during one iteration of the render loop,
      with the kernel's state at the scan and at the fetch as in `Platform`. */
  datatype Tick = Tick(
    events: seq<Event>, display: Display, fetched: Display, primeFd: nat,
    imageCreated: bool, presented: bool)

  class Session {
    var width: int
    var height: int
    var fullscreen: int
    const cursor: int
    const scanner: Scanner
    var dmaBufFd: int
    var fb: Option<Framebuffer>
    var img: DmaBuf
    /** The number of planes the kernel enumerates; fixed for the program's life. */
    ghost var planeCount: nat
    /** Every resource operation performed so far, in order. */
    ghost var trace: seq<Op>

    ghost function Holdings(): Held
      reads this
    {
      Replay(Nothing, trace)
    }

    /** The render loop's invariant between frames: the ordering discipline has
        held so far, exactly one card, dma-buf, framebuffer record and image are
        held, and the scanner's hint is a plane index. */
    ghost predicate Live()
      reads this, scanner
    {
      Disciplined(trace) && Holdings() == Steady &&
      dmaBufFd >= 0 && fb.Some? && fb.value.handle != 0 &&
      scanner.lastGoodPlane < planeCount
    }

    /** The locals of `main` before the card is opened. */
    constructor (width: int, height: int, fullscreen: int)
      ensures this.width == width && this.height == height && this.fullscreen == fullscreen
      ensures cursor == 0 && fresh(scanner) && scanner.lastGoodPlane == 0
      ensures dmaBufFd == -1 && fb == None && trace == []
    {
      this.width := width;
      this.height := height;
      this.fullscreen := fullscreen;
      cursor := 0;
      scanner := new Scanner();
      dmaBufFd := -1;
      fb := None;
      img := DmaBuf(0, 0, 0, -1, 0, 0);
      trace := [];
    }

    /** Appends one resource operation to the trace. */
    ghost method Record(op: Op)
      requires Disciplined(trace)
      requires AtMostOne(Step(Holdings(), op))
      modifies this`trace
      ensures trace == old(trace) + [op]
      ensures Disciplined(trace)
      ensures Holdings() == Step(old(Holdings()), op)
    {
      DisciplinedSnoc(trace, op);
      trace := trace + [op];
    }

    /** From opening the card to the first image bound as a texture. */
    method Startup(p: Platform) returns (status: Status)
      requires trace == [] && dmaBufFd == -1 && fb == None && scanner.lastGoodPlane == 0
      requires |p.display.planes| >= 1
      modifies this`dmaBufFd, this`fb, this`img, this`trace, this`planeCount, scanner
      ensures planeCount == |p.display.planes|
      ensures Disciplined(trace)
      ensures status == Running ==> Live()
      ensures !p.cardOpens ==> status == Exited(1) && Holdings() == Nothing
      ensures p.cardOpens && !p.drmAvailable ==> status == Exited(0) && Holdings() == Held(1, 0, 0, 0)
      ensures p.cardOpens && p.drmAvailable ==>
        var id := Select(p.display, cursor, 0).fbId;
        (id == 0 ==> status == Exited(1) && Holdings() == Held(1, 0, 0, 0)) &&
        (id != 0 && id !in p.fetched.fbs ==> status == Crashed) &&
        (id != 0 && id in p.fetched.fbs && p.fetched.fbs[id].handle == 0 ==>
          status == Exited(0) && Holdings() == Nothing)
      ensures p.cardOpens && p.drmAvailable ==>
        var id := Select(p.display, cursor, 0).fbId;
        id != 0 && id in p.fetched.fbs && p.fetched.fbs[id].handle != 0 ==>
        (!(p.windowReady && p.imageCreated) ==> status == Exited(0) && Holdings() == Held(1, 1, 1, 0)) &&
        (p.windowReady && p.imageCreated && !p.textureBound ==> status == Exited(0) && Holdings() == Steady) &&
        (p.windowReady && p.imageCreated && p.textureBound ==> status == Running)
      ensures p.cardOpens && p.drmAvailable ==> scanner.lastGoodPlane == Select(p.display, cursor, 0).hint
      ensures status == Running ==>
        var id := Select(p.display, cursor, 0).fbId;
        id in p.fetched.fbs && fb == Some(p.fetched.fbs[id]) && dmaBufFd == p.primeFd &&
        img == DmaBuf(fb.value.width, fb.value.height, FormatXrgb8888, p.primeFd, 0, fb.value.pitch)
    {
      planeCount := |p.display.planes|;
      assert Disciplined(trace);  // the empty trace
      if !p.cardOpens {
        return Exited(1);
      }
      Record(OpenCard);
      if !p.drmAvailable {
        return Exited(0);
      }

      var fbId;
      fbId, status := ImportFirst(p.display, p.fetched, p.primeFd);
      if status != Running {
        return;
      }

      if !p.windowReady {
        return Exited(0);
      }
      if !p.imageCreated {
        return Exited(0);
      }
      Record(CreateImage);
      if !p.textureBound {
        return Exited(0);
      }
    }

    /** The first capture, before any window exists: choose the framebuffer, fetch
        its record, refuse to go on without a kernel handle (releasing the record
        and the card), and convert the handle to a dma-buf descriptor. */
    method ImportFirst(d: Display, fetched: Display, primeFd: nat) returns (fbId: nat, status: Status)
      requires Disciplined(trace) && Holdings() == Held(1, 0, 0, 0)
      requires dmaBufFd == -1 && fb == None && scanner.lastGoodPlane == 0 && |d.planes| >= 1
      modifies this`dmaBufFd, this`fb, this`img, this`trace, scanner
      ensures Selection(fbId, scanner.lastGoodPlane) == Select(d, cursor, 0)
      ensures scanner.lastGoodPlane < |d.planes|
      ensures Disciplined(trace)
      ensures fbId == 0 ==> status == Exited(1) && Holdings() == Held(1, 0, 0, 0)
      ensures fbId != 0 && fbId !in fetched.fbs ==> status == Crashed && Holdings() == Held(1, 0, 0, 0)
      ensures fbId != 0 && fbId in fetched.fbs && fetched.fbs[fbId].handle == 0 ==>
        status == Exited(0) && Holdings() == Nothing
      ensures fbId != 0 && fbId in fetched.fbs && fetched.fbs[fbId].handle != 0 ==>
        status == Running && Holdings() == Held(1, 1, 1, 0) &&
        fb == Some(fetched.fbs[fbId]) && dmaBufFd == primeFd &&
        img == DmaBuf(fb.value.width, fb.value.height, FormatXrgb8888, primeFd, 0, fb.value.pitch)
    {
      fbId := scanner.PrepareImage(d, cursor);
      if fbId == 0 {
        return fbId, Exited(1);
      }

      fb := FetchFb(fetched, fbId);
      if fb.None? {
        return fbId, Crashed;
      }
      Record(GetFb);
      if fb.value.handle == 0 {
        // dma_buf_fd is still -1 here, so only the record and the card are released
        Record(FreeFb);
        Record(CloseCard);
        return fbId, Exited(0);
      }

      img := DmaBuf(fb.value.width, fb.value.height, FormatXrgb8888, primeFd, 0, fb.value.pitch);
      dmaBufFd := primeFd;
      Record(PrimeToFd);
      status := Running;
    }

    /** Drains the pending window events at the top of an iteration: resizes
        update the window size, and a quit event stops the drain at once. */
    method DrainEvents(events: seq<Event>) returns (exit: bool)
      modifies this`width, this`height
      ensures Drained(width, height, exit) == ApplyEvents(events, old(width), old(height))
    {
      exit := false;
      var i := 0;
      while i < |events|
        invariant 0 <= i <= |events|
        invariant ApplyEvents(events, old(width), old(height)) == ApplyEvents(events[i..], width, height)
      {
        assert events[i..][0] == events[i] && events[i..][1..] == events[i + 1..];
        match Dispatch(events[i]) {
          case Exit =>
            exit := true;
            break;
          case Resize(w, h) =>
            width, height := w, h;
          case Continue =>
        }
        i := i + 1;
      }
    }

    /** One iteration's capture: ask the scanner for a framebuffer in `d` and,
        when there is one, re-import it from `fetched`, the kernel's state at the
        fetch; with none, nothing is touched. */
    method Frame(d: Display, fetched: Display, primeFd: nat, imageCreated: bool) returns (fbId: nat, status: Status)
      requires Live() && |d.planes| == planeCount
      modifies this`dmaBufFd, this`fb, this`trace, scanner
      ensures Selection(fbId, scanner.lastGoodPlane) == Select(d, cursor, old(scanner.lastGoodPlane))
      ensures Disciplined(trace)
      ensures status == Running || status == Crashed || status == Exited(0)
      ensures status == Running ==> Live()
      ensures fbId == 0 ==>
        status == Running && trace == old(trace) && dmaBufFd == old(dmaBufFd) && fb == old(fb)
      ensures fbId != 0 && fbId !in fetched.fbs ==>
        status == Crashed && trace == old(trace) + [CloseDmaBuf, FreeFb] && Holdings() == Held(1, 0, 0, 1)
      ensures fbId != 0 && fbId in fetched.fbs && fetched.fbs[fbId].handle == 0 ==>
        status == Exited(0) && trace == old(trace) + [CloseDmaBuf, FreeFb, GetFb, FreeFb, CloseCard] &&
        Holdings() == Held(0, 0, 0, 1)
      ensures fbId != 0 && fbId in fetched.fbs && fetched.fbs[fbId].handle != 0 && !imageCreated ==>
        status == Exited(0) && trace == old(trace) + [CloseDmaBuf, FreeFb, GetFb, PrimeToFd, DestroyImage] &&
        Holdings() == Held(1, 1, 1, 0)
      ensures fbId != 0 && fbId in fetched.fbs && fetched.fbs[fbId].handle != 0 && imageCreated ==>
        status == Running && trace == old(trace) + ReimportOps() &&
        fb == Some(fetched.fbs[fbId]) && dmaBufFd == primeFd
    {
      fbId := scanner.PrepareImage(d, cursor);
      if fbId == 0 {
        return fbId, Running;
      }
      status := Reimport(fetched, fbId, primeFd, imageCreated);
    }

    /** The re-import of framebuffer `fbId`: release the previous dma-buf and
        record, fetch the new record, convert its handle, then replace the image
        (the old one is destroyed before the new one is made). `d` is the kernel's
        state at the fetch. A NULL record crashes; a record without a handle
        releases it and the card and stops. */
    method Reimport(d: Display, fbId: nat, primeFd: nat, imageCreated: bool) returns (status: Status)
      requires Live() && fbId != 0
      modifies this`dmaBufFd, this`fb, this`trace
      ensures Disciplined(trace)
      ensures status == Running || status == Crashed || status == Exited(0)
      ensures status == Running ==> Live()
      ensures fbId !in d.fbs ==>
        status == Crashed && trace == old(trace) + [CloseDmaBuf, FreeFb] && Holdings() == Held(1, 0, 0, 1)
      ensures fbId in d.fbs && d.fbs[fbId].handle == 0 ==>
        status == Exited(0) && trace == old(trace) + [CloseDmaBuf, FreeFb, GetFb, FreeFb, CloseCard] &&
        Holdings() == Held(0, 0, 0, 1)
      ensures fbId in d.fbs && d.fbs[fbId].handle != 0 && !imageCreated ==>
        status == Exited(0) && trace == old(trace) + [CloseDmaBuf, FreeFb, GetFb, PrimeToFd, DestroyImage] &&
        Holdings() == Held(1, 1, 1, 0)
      ensures fbId in d.fbs && d.fbs[fbId].handle != 0 && imageCreated ==>
        status == Running && trace == old(trace) + ReimportOps() &&
        fb == Some(d.fbs[fbId]) && dmaBufFd == primeFd
    {
      ReleaseFrame();
      status := AcquireFrame(d, fbId, primeFd, imageCreated);
    }

    /** The second half of a re-import, once the previous dma-buf and record are
        released: fetch the record, convert its handle, replace the image. */
    method AcquireFrame(d: Display, fbId: nat, primeFd: nat, imageCreated: bool) returns (status: Status)
      requires Disciplined(trace) && Holdings() == Held(1, 0, 0, 1)
      requires scanner.lastGoodPlane < planeCount
      modifies this`dmaBufFd, this`fb, this`trace
      ensures Disciplined(trace)
      ensures status == Running || status == Crashed || status == Exited(0)
      ensures status == Running ==> Live()
      ensures fbId !in d.fbs ==> status == Crashed && trace == old(trace)
      ensures fbId in d.fbs && d.fbs[fbId].handle == 0 ==>
        status == Exited(0) && trace == old(trace) + [GetFb, FreeFb, CloseCard] &&
        Holdings() == Held(0, 0, 0, 1)
      ensures fbId in d.fbs && d.fbs[fbId].handle != 0 && !imageCreated ==>
        status == Exited(0) && trace == old(trace) + [GetFb, PrimeToFd, DestroyImage] &&
        Holdings() == Held(1, 1, 1, 0)
      ensures fbId in d.fbs && d.fbs[fbId].handle != 0 && imageCreated ==>
        status == Running && trace == old(trace) + [GetFb, PrimeToFd, DestroyImage, CreateImage] &&
        fb == Some(d.fbs[fbId]) && dmaBufFd == primeFd
    {
      fb := FetchFb(d, fbId);
      if fb.None? {
        return Crashed;
      }
      Record(GetFb);
      if fb.value.handle == 0 {
        Record(FreeFb);
        Record(CloseCard);
        return Exited(0);
      }
      status := ReplaceImage(primeFd, imageCreated);
    }

    /** The exported descriptor replaces the held one, and the old image is
        destroyed before the new one is created. */
    method ReplaceImage(primeFd: nat, imageCreated: bool) returns (status: Status)
      requires Disciplined(trace) && Holdings() == Held(1, 0, 1, 1)
      modifies this`dmaBufFd, this`trace
      ensures Disciplined(trace) && dmaBufFd == primeFd
      ensures !imageCreated ==>
        status == Exited(0) && trace == old(trace) + [PrimeToFd, DestroyImage] &&
        Holdings() == Held(1, 1, 1, 0)
      ensures imageCreated ==>
        status == Running && trace == old(trace) + [PrimeToFd, DestroyImage, CreateImage] &&
        Holdings() == Steady
    {
      dmaBufFd := primeFd;
      Record(PrimeToFd);
      Record(DestroyImage);
      if !imageCreated {
        return Exited(0);
      }
      Record(CreateImage);
      status := Running;
    }

    /** Release the current dma-buf descriptor and framebuffer record, each
        only if one is held (a negative descriptor, no record). */
    method ReleaseFrame()
      requires Live()
      modifies this`trace
      ensures trace == old(trace) + [CloseDmaBuf, FreeFb]
      ensures Disciplined(trace) && Holdings() == Held(1, 0, 0, 1)
    {
      if dmaBufFd >= 0 {
        Record(CloseDmaBuf);
      }
      if fb.Some? {
        Record(FreeFb);
      }
    }

    /** The `exit:` path: the dma-buf descriptor and the framebuffer record are
        released; the card descriptor and the image are not. */
    method Shutdown() returns (status: Status)
      requires Live()
      modifies this`trace
      ensures status == Exited(0)
      ensures trace == old(trace) + [CloseDmaBuf, FreeFb]
      ensures Disciplined(trace) && Holdings() == Held(1, 0, 0, 1)
    {
      ReleaseFrame();
      status := Exited(0);
    }

    /** The render loop over a finite run of iterations; `Running` means the run
        ended while the loop was still going. */
    method Run(ticks: seq<Tick>) returns (status: Status)
      requires Live()
      requires forall k :: 0 <= k < |ticks| ==> |ticks[k].display.planes| == planeCount
      modifies this`width, this`height, this`dmaBufFd, this`fb, this`trace, scanner
      ensures Disciplined(trace)
      ensures status == Running ==> Live()
      ensures status.Exited? ==> status.code == 0
    {
      status := Running;
      for k := 0 to |ticks|
        invariant Live() && status == Running
      {
        var exit := DrainEvents(ticks[k].events);
        if exit {
          status := Shutdown();
          return;
        }
        var fbId;
        fbId, status := Frame(ticks[k].display, ticks[k].fetched, ticks[k].primeFd, ticks[k].imageCreated);
        if status != Running {
          return;
        }
        if !ticks[k].presented {
          return Exited(0);
        }
      }
    }
  }

  /** `main`: the arguments, start-up, then the render loop. */
  method Launch(argc: int, arg1: Option<int>, arg2: Option<int>, p: Platform, ticks: seq<Tick>)
    returns (s: Session, status: Status)
    requires |p.display.planes| >= 1
    requires forall k :: 0 <= k < |ticks| ==> |ticks[k].display.planes| == |p.display.planes|
    ensures fresh(s)
    ensures Disciplined(s.trace)
    ensures status == Running ==> s.Live()
    ensures status.Exited? ==> status.code == 0 || status.code == 1
    ensures status == Exited(1) <==>
      !p.cardOpens || (p.drmAvailable && Select(p.display, 0, 0).fbId == 0)
  {
    var width, height, fullscreen := CommandLine.ParseArgs(argc, arg1, arg2);
    s := new Session(width, height, fullscreen);
    status := s.Startup(p);
    if status == Running {
      status := s.Run(ticks);
    }
  }
}
