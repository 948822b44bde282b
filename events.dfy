/** The window-event handling of kmsgrab.c's render loop: the switch over each
    pending X event, and the loop that drains the queue at the top of a frame. */
module Events {

  /** keysym values of the two quit keys. */
  const KeyEscape: nat := 0xff1b
  const KeyQ: nat := 0x0071

  /** The X events the loop distinguishes; every other event type is `Other`.
      `KeyPress` carries the keysym of the key's first (unshifted) symbol. */
  datatype Event =
    | ConfigureNotify(width: int, height: int)
    | KeyPress(keysym: nat)
    | ClientMessage
    | DestroyNotify
    | UnmapNotify
    | Other(eventType: nat)

  datatype Action = Continue | Resize(width: int, height: int) | Exit

  /** The quit conditions: any client message (its content is not inspected, so
      not only the window manager's close request), the window's destruction or
      unmapping, or the Escape or q key. */
  predicate IsQuit(e: Event)
  {
    e.ClientMessage? || e.DestroyNotify? || e.UnmapNotify? ||
    (e.KeyPress? && (e.keysym == KeyEscape || e.keysym == KeyQ))
  }

  /** The switch on the event type. */
  function Dispatch(e: Event): (a: Action)
    ensures a.Exit? <==> IsQuit(e)
    ensures a.Resize? <==> e.ConfigureNotify?
    ensures a.Resize? ==> a.width == e.width && a.height == e.height
  {
    match e
    case ConfigureNotify(w, h) => Resize(w, h)
    case KeyPress(k) => if k == KeyEscape || k == KeyQ then Exit else Continue
    case ClientMessage => Exit
    case DestroyNotify => Exit
    case UnmapNotify => Exit
    case Other(_) => Continue
  }

  /** Window size after draining a queue, and whether the loop must stop. */
  datatype Drained = Drained(width: int, height: int, exit: bool)

  /** Reference definition of the drain: events are handled in order, the last
      resize wins, and the first quit event ends the drain at once. */
  function ApplyEvents(events: seq<Event>, width: int, height: int): Drained
  {
    if events == [] then Drained(width, height, false)
    else match Dispatch(events[0])
      case Exit => Drained(width, height, true)
      case Resize(w, h) => ApplyEvents(events[1..], w, h)
      case Continue => ApplyEvents(events[1..], width, height)
  }

  /** The drain requests an exit exactly when the queue holds a quit event. */
  lemma {:induction false} ExitIffQuitEvent(events: seq<Event>, width: int, height: int)
    ensures ApplyEvents(events, width, height).exit <==>
            exists i :: 0 <= i < |events| && IsQuit(events[i])
  {
    if events != [] {
      match Dispatch(events[0])
      case Exit =>
      case Resize(w, h) =>
        ExitIffQuitEvent(events[1..], w, h);
        assert forall i :: 1 <= i < |events| ==> events[i] == events[1..][i - 1];
      case Continue =>
        ExitIffQuitEvent(events[1..], width, height);
        assert forall i :: 1 <= i < |events| ==> events[i] == events[1..][i - 1];
    }
  }

  /** Events queued after a quit event are never looked at. */
  lemma {:induction false} QuitIgnoresRest(before: seq<Event>, quit: Event, after: seq<Event>, width: int, height: int)
    requires IsQuit(quit)
    ensures ApplyEvents(before + [quit] + after, width, height) == ApplyEvents(before + [quit], width, height)
  {
    if before == [] {
      assert (before + [quit] + after)[0] == quit;
      assert (before + [quit])[0] == quit;
    } else {
      var s, t := before + [quit] + after, before + [quit];
      assert s[0] == before[0] && t[0] == before[0];
      assert s[1..] == before[1..] + [quit] + after;
      assert t[1..] == before[1..] + [quit];
      match Dispatch(before[0])
      case Exit =>
      case Resize(w, h) => QuitIgnoresRest(before[1..], quit, after, w, h);
      case Continue => QuitIgnoresRest(before[1..], quit, after, width, height);
    }
  }

  /** Without a quit event the window size after the drain is that of the last
      resize in the queue, or the size before the drain if there is none. */
  lemma {:induction false} LastResizeWins(events: seq<Event>, width: int, height: int, k: nat)
    requires forall i :: 0 <= i < |events| ==> !IsQuit(events[i])
    requires k < |events| && events[k].ConfigureNotify?
    requires forall i :: k < i < |events| ==> !events[i].ConfigureNotify?
    ensures ApplyEvents(events, width, height) == Drained(events[k].width, events[k].height, false)
  {
    if k == 0 {
      NoResizeKeepsSize(events[1..], events[0].width, events[0].height);
    } else {
      var rest := events[1..];
      assert forall i :: 0 <= i < |rest| ==> rest[i] == events[i + 1];
      match Dispatch(events[0])
      case Resize(w, h) => LastResizeWins(rest, w, h, k - 1);
      case Continue => LastResizeWins(rest, width, height, k - 1);
    }
  }

  /** A queue with neither a quit event nor a resize leaves the size as it was. */
  lemma {:induction false} NoResizeKeepsSize(events: seq<Event>, width: int, height: int)
    requires forall i :: 0 <= i < |events| ==> !IsQuit(events[i]) && !events[i].ConfigureNotify?
    ensures ApplyEvents(events, width, height) == Drained(width, height, false)
  {
    if events != [] {
      var rest := events[1..];
      assert forall i :: 0 <= i < |rest| ==> rest[i] == events[i + 1];
      NoResizeKeepsSize(rest, width, height);
    }
  }
}
