/** The plane scanner of kmsgrab.c (`prepareImage`): choose the plane whose
    framebuffer is to be captured, first re-checking a sticky hint
    (`lastGoodPlane`) and otherwise scanning the planes in enumeration order. */
module PlaneScanner {
  import opened Wrappers
  import opened Kms

  /** Side length, in pixels, that marks a buffer as a hardware cursor. */
  const CursorSize: nat := 256

  /** The size filter of the rescan: true when a framebuffer is passed over.
      It applies only when the kernel handle is visible (non-zero). With a
      cursor request the code skips a buffer only when NEITHER side is 256, so a
      buffer with one 256-pixel side passes; otherwise it skips exactly 256x256. */
  predicate SkippedBySize(fb: Framebuffer, cursor: int)
  {
    fb.handle != 0 &&
    if cursor != 0 then fb.width != CursorSize && fb.height != CursorSize
    else fb.width == CursorSize && fb.height == CursorSize
  }

  /** Plane `i` is one the rescan accepts: it has a buffer attached, the buffer's
      record can be fetched, and the size filter lets it through. */
  predicate IsCandidate(d: Display, cursor: int, i: nat)
    requires i < |d.planes|
  {
    var id := d.planes[i].fbId;
    id != 0 && id in d.fbs && !SkippedBySize(d.fbs[id], cursor)
  }

  /** Reference definition of the rescan: the lowest candidate index at or after `from`. */
  function FirstCandidate(d: Display, cursor: int, from: nat): (r: Option<nat>)
    ensures r.Some? ==> from <= r.value < |d.planes| && IsCandidate(d, cursor, r.value)
    decreases |d.planes| - from
  {
    if from >= |d.planes| then None
    else if IsCandidate(d, cursor, from) then Some(from)
    else FirstCandidate(d, cursor, from + 1)
  }

  /** What one call of `prepareImage` returns, with the hint it leaves behind. */
  datatype Selection = Selection(fbId: nat, hint: nat)

  /** Specification of `prepareImage`: the fast path returns the hinted plane's id
      whenever it is non-zero; otherwise the first candidate of the rescan is taken
      and becomes the new hint; with no candidate the result is 0 and the hint stays. */
  function Select(d: Display, cursor: int, hint: nat): Selection
    requires hint < |d.planes|
  {
    if d.planes[hint].fbId != 0 then Selection(d.planes[hint].fbId, hint)
    else match FirstCandidate(d, cursor, 0)
      case Some(i) => Selection(d.planes[i].fbId, i)
      case None => Selection(0, hint)
  }

  /** FirstCandidate finds the lowest candidate in `[from, |planes|)`, and
      finds nothing exactly when that range holds no candidate. */
  lemma {:induction false} FirstCandidateIsFirst(d: Display, cursor: int, from: nat)
    ensures match FirstCandidate(d, cursor, from)
      case Some(i) =>
        from <= i < |d.planes| && IsCandidate(d, cursor, i) &&
        forall j :: from <= j < i ==> !IsCandidate(d, cursor, j)
      case None =>
        forall j :: from <= j < |d.planes| ==> !IsCandidate(d, cursor, j)
    decreases |d.planes| - from
  {
    if from < |d.planes| && !IsCandidate(d, cursor, from) {
      FirstCandidateIsFirst(d, cursor, from + 1);
    }
  }

  /** Fast path: a hinted plane with a buffer is returned as it is, without
      classification, and the hint is kept. */
  lemma FastPath(d: Display, cursor: int, hint: nat)
    requires hint < |d.planes| && d.planes[hint].fbId != 0
    ensures Select(d, cursor, hint) == Selection(d.planes[hint].fbId, hint)
  {
  }

  /** Fast path, second half: its outcome depends on the hinted plane alone, not on
      any other plane, on the framebuffer table, or on the cursor request. */
  lemma FastPathReadsOnlyHint(d: Display, e: Display, cursor: int, cursor': int, hint: nat)
    requires hint < |d.planes| && hint < |e.planes|
    requires d.planes[hint] == e.planes[hint] && d.planes[hint].fbId != 0
    ensures Select(d, cursor, hint) == Select(e, cursor', hint)
  {
  }

  /** Result shape and bounds: the new hint is a plane index, the result is 0 or
      the id of the plane at the new hint, and a 0 result leaves the hint as it was. */
  lemma SelectShape(d: Display, cursor: int, hint: nat)
    requires hint < |d.planes|
    ensures var r := Select(d, cursor, hint);
      r.hint < |d.planes| &&
      (r.fbId == 0 || r.fbId == d.planes[r.hint].fbId) &&
      (r.fbId == 0 ==> r.hint == hint)
  {
    FirstCandidateIsFirst(d, cursor, 0);
  }

  /** First match: when the hinted plane has no buffer, the result is non-zero
      exactly when some plane is a candidate, and then it is the id of the
      lowest-index candidate, which becomes the hint. */
  lemma RescanFirstMatch(d: Display, cursor: int, hint: nat)
    requires hint < |d.planes| && d.planes[hint].fbId == 0
    ensures var r := Select(d, cursor, hint);
      (r.fbId != 0 <==> exists j :: 0 <= j < |d.planes| && IsCandidate(d, cursor, j)) &&
      (r.fbId != 0 ==>
        r.hint < |d.planes| && IsCandidate(d, cursor, r.hint) && r.fbId == d.planes[r.hint].fbId &&
        forall j :: 0 <= j < r.hint ==> !IsCandidate(d, cursor, j))
  {
    FirstCandidateIsFirst(d, cursor, 0);
  }

  /** No candidate: when no plane has a buffer attached the result is 0 and the
      hint is unchanged. */
  lemma NoBufferNoSelection(d: Display, cursor: int, hint: nat)
    requires hint < |d.planes|
    requires forall i :: 0 <= i < |d.planes| ==> d.planes[i].fbId == 0
    ensures Select(d, cursor, hint) == Selection(0, hint)
  {
    FirstCandidateIsFirst(d, cursor, 0);
  }

  /** Size filter for a primary request: a buffer of exactly 256x256 whose handle
      is visible is never chosen by the rescan. */
  lemma PrimaryRescanAvoidsCursor(d: Display, hint: nat)
    requires hint < |d.planes| && d.planes[hint].fbId == 0
    ensures var r := Select(d, 0, hint);
      r.fbId != 0 ==>
        r.fbId in d.fbs &&
        (d.fbs[r.fbId].handle != 0 ==>
          !(d.fbs[r.fbId].width == CursorSize && d.fbs[r.fbId].height == CursorSize))
  {
    FirstCandidateIsFirst(d, 0, 0);
  }

  /** Size filter for a cursor request: a buffer whose handle is visible is chosen
      by the rescan only if at least one of its sides is 256. */
  lemma CursorRescanNeedsOneSide(d: Display, cursor: int, hint: nat)
    requires cursor != 0
    requires hint < |d.planes| && d.planes[hint].fbId == 0
    ensures var r := Select(d, cursor, hint);
      r.fbId != 0 ==>
        r.fbId in d.fbs &&
        (d.fbs[r.fbId].handle != 0 ==>
          d.fbs[r.fbId].width == CursorSize || d.fbs[r.fbId].height == CursorSize)
  {
    FirstCandidateIsFirst(d, cursor, 0);
  }

  /** Every id the rescan picks has a record in the same display, whatever the
      request: a NULL record can follow only a fast-path id, or a display that
      changed between the scan and the fetch. */
  lemma RescanPicksFetchable(d: Display, cursor: int, hint: nat)
    requires hint < |d.planes| && d.planes[hint].fbId == 0
    ensures var r := Select(d, cursor, hint);
      r.fbId != 0 ==> r.fbId in d.fbs
  {
    RescanFirstMatch(d, cursor, hint);
  }

  /** Without a visible handle the size filter is off: the rescan takes the first
      plane whose buffer record can be fetched, whatever its size and request,
      and finds one exactly when some plane has a fetchable buffer. */
  lemma NoHandleNoFilter(d: Display, cursor: int, hint: nat)
    requires hint < |d.planes| && d.planes[hint].fbId == 0
    requires forall id :: id in d.fbs ==> d.fbs[id].handle == 0
    ensures var r := Select(d, cursor, hint);
      (r.fbId != 0 <==>
        exists j :: 0 <= j < |d.planes| && d.planes[j].fbId != 0 && d.planes[j].fbId in d.fbs) &&
      (r.fbId != 0 ==>
        r.fbId in d.fbs && r.hint < |d.planes| && r.fbId == d.planes[r.hint].fbId &&
        forall j :: 0 <= j < r.hint ==> d.planes[j].fbId == 0 || d.planes[j].fbId !in d.fbs)
  {
    RescanFirstMatch(d, cursor, hint);
    // with every handle hidden, a candidate is exactly a plane with a fetchable buffer
    forall j | 0 <= j < |d.planes|
      ensures IsCandidate(d, cursor, j) <==> d.planes[j].fbId != 0 && d.planes[j].fbId in d.fbs
    {
    }
  }

  /** Stickiness: after a call that found a buffer, the next call on the same
      display returns the same id through the fast path, whatever is requested. */
  lemma SelectionIsSticky(d: Display, cursor: int, cursor': int, hint: nat)
    requires hint < |d.planes|
    ensures var r := Select(d, cursor, hint);
      r.fbId != 0 ==> r.hint < |d.planes| && Select(d, cursor', r.hint) == r
  {
    SelectShape(d, cursor, hint);
  }

  /** A cursor request accepts a 256x1080 buffer, since the code skips only when
      both sides differ from 256. */
  lemma CursorAcceptsHalfMatch()
    ensures var d := Display([Plane(0), Plane(5)], map[5 := Framebuffer(256, 1080, 1024, 1)]);
      Select(d, 1, 0) == Selection(5, 1)
  {
  }

  /** Two planes, a 256x256 cursor with id 7 followed by a 1920x1080 output with
      id 3: a fresh rescan picks 3 for a primary request and 7 for a cursor request,
      but with the hint on plane 0 the fast path answers 7 to either request. */
  lemma CursorAndPrimaryPlanes()
    ensures var d := Display([Plane(7), Plane(3)],
                             map[7 := Framebuffer(256, 256, 1024, 1), 3 := Framebuffer(1920, 1080, 7680, 2)]);
      FirstCandidate(d, 0, 0) == Some(1) && FirstCandidate(d, 1, 0) == Some(0) &&
      Select(d, 0, 0) == Selection(7, 0) && Select(d, 1, 0) == Selection(7, 0)
  {
  }

  /** The process-wide state of the scanner: the index of the last plane that
      held the wanted buffer (`lastGoodPlane`, initially 0). */
  class Scanner {
    var lastGoodPlane: nat

    constructor ()
      ensures lastGoodPlane == 0
    {
      lastGoodPlane := 0;
    }

    /** `prepareImage`: the id of the framebuffer to capture, or 0 for none.
        The hinted plane is indexed without a count check, so the hint must be
        a plane index (and there must be at least one plane). */
    method PrepareImage(d: Display, cursor: int) returns (fbId: nat)
      requires lastGoodPlane < |d.planes|
      modifies this
      ensures Selection(fbId, lastGoodPlane) == Select(d, cursor, old(lastGoodPlane))
      ensures lastGoodPlane < |d.planes|
    {
      fbId := d.planes[lastGoodPlane].fbId;
      if fbId == 0 {
        for i := 0 to |d.planes|
          invariant fbId == 0 && lastGoodPlane == old(lastGoodPlane)
          invariant forall j :: 0 <= j < i ==> !IsCandidate(d, cursor, j)
        {
          var plane := d.planes[i];
          if plane.fbId != 0 {
            var fb := FetchFb(d, plane.fbId);
            if fb.None? {
              continue;
            }
            if fb.value.handle != 0 {
              if cursor != 0 {
                if fb.value.width != CursorSize && fb.value.height != CursorSize {
                  continue;
                }
              } else {
                if fb.value.width == CursorSize && fb.value.height == CursorSize {
                  continue;
                }
              }
            }
            assert IsCandidate(d, cursor, i);
            FirstCandidateIsFirst(d, cursor, 0);
            lastGoodPlane := i;
            fbId := plane.fbId;
            break;
          }
        }
        if fbId == 0 {
          FirstCandidateIsFirst(d, cursor, 0);
        }
      }
    }
  }
}
