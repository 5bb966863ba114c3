/**
 * The two per-frame mouse state machines of UtilsClass: dragging, and
 * click-from-to selection with a cancel button. One call of a step function
 * is one frame of the updater. The frame's button edges, the pointer-over-UI
 * test and the mouse world position are inputs, and the callbacks a frame
 * fires are returned in firing order.
 */
module MouseActions {
  import opened Geometry

  // ----- Dragging -----

  /** One frame of the dragging updater. */
  datatype DragFrame = DragFrame(dragging: bool, fired: seq<Vec3>)

  /** A press starts dragging, a release stops it (the release is read second and wins), and the callback fires while dragging. */
  function DragStep(dragging: bool, buttonDown: bool, buttonUp: bool, mouse: Vec3): (r: DragFrame)
    ensures buttonUp ==> !r.dragging
    ensures buttonDown && !buttonUp ==> r.dragging
    ensures !buttonDown && !buttonUp ==> r.dragging == dragging
    ensures r.fired == (if r.dragging then [mouse] else [])
  {
    var d1 := if buttonDown then true else dragging;
    var d2 := if buttonUp then false else d1;
    DragFrame(d2, if d2 then [mouse] else [])
  }

  /** A frame's input for the dragging updater. */
  datatype DragInput = DragInput(buttonDown: bool, buttonUp: bool, mouse: Vec3)

  /** Every position the dragging callback receives over a run of frames, starting from a state. */
  function DragRun(dragging: bool, frames: seq<DragInput>): (r: (bool, seq<Vec3>))
    ensures |r.1| <= |frames|
    decreases |frames|
  {
    if frames == [] then (dragging, [])
    else
      var f := DragStep(dragging, frames[0].buttonDown, frames[0].buttonUp, frames[0].mouse);
      var rest := DragRun(f.dragging, frames[1..]);
      (rest.0, f.fired + rest.1)
  }

  /** Without any press, the callback never fires once dragging is off. */
  lemma {:induction false} NoPressNoDrag(frames: seq<DragInput>)
    requires forall i :: 0 <= i < |frames| ==> !frames[i].buttonDown
    ensures DragRun(false, frames) == (false, [])
    decreases |frames|
  {
    if frames != [] {
      NoPressNoDrag(frames[1..]);
    }
  }

  /** A press with no release fires with the current position, and each later quiet frame fires again. */
  lemma {:induction false} HeldButtonFiresEveryFrame(dragging: bool, frames: seq<DragInput>)
    requires |frames| >= 1 && frames[0].buttonDown
    requires forall i :: 0 <= i < |frames| ==> !frames[i].buttonUp
    ensures DragRun(dragging, frames).0
    ensures |DragRun(dragging, frames).1| == |frames|
    ensures forall i :: 0 <= i < |frames| ==> DragRun(dragging, frames).1[i] == frames[i].mouse
    decreases |frames|
  {
    if |frames| > 1 {
      HeldRest(frames[1..]);
    }
  }

  lemma {:induction false} HeldRest(frames: seq<DragInput>)
    requires forall i :: 0 <= i < |frames| ==> !frames[i].buttonUp
    ensures DragRun(true, frames).0
    ensures |DragRun(true, frames).1| == |frames|
    ensures forall i :: 0 <= i < |frames| ==> DragRun(true, frames).1[i] == frames[i].mouse
    decreases |frames|
  {
    if frames != [] {
      HeldRest(frames[1..]);
    }
  }

  // ----- Click from, click to -----

  /** The selection state: 0 (waiting for the first click) or 1 (waiting for the second), with the recorded start. */
  datatype FromToState = FromToState(waitingForTo: bool, from: Vec3)

  const Origin: Vec3 := Vec3(0.0, 0.0, 0.0)

  /** State 0, with the start at the origin. */
  const FromToStart: FromToState := FromToState(false, Origin)

  /** A callback invocation: the waiting callback with (from, current) or the completed selection (from, to). */
  datatype FromToEvent = WaitingForTo(from: Vec3, current: Vec3) | ClickFromTo(from: Vec3, to: Vec3)

  /** The buttons and pointer for one frame of the click-from-to updater. */
  datatype ClickInput = ClickInput(clickDown: bool, cancelDown: bool, overUI: bool, mouse: Vec3)

  /**
   * One frame: in state 1 the waiting callback (when one is registered)
   * fires first; then a cancel press in state 1 returns to state 0; then a
   * click away from the UI either starts a selection (state 0) or completes
   * it (state 1), the latter firing the click-from-to callback.
   */
  function ClickFromToStep(s: FromToState, hasWaitingCallback: bool, input: ClickInput): (r: (FromToState, seq<FromToEvent>))
    ensures var (s', events) := r;
            var clicked := input.clickDown && !input.overUI;
            var idle := !s.waitingForTo || input.cancelDown;
            (!clicked ==> s'.waitingForTo == (s.waitingForTo && !input.cancelDown) && s'.from == s.from)
            && (clicked && idle ==> s' == FromToState(true, input.mouse))
            && (clicked && !idle ==> !s'.waitingForTo && s'.from == s.from)
            && (events == (if s.waitingForTo && hasWaitingCallback then [WaitingForTo(s.from, input.mouse)] else [])
                          + (if clicked && !idle then [ClickFromTo(s.from, input.mouse)] else []))
  {
    var waiting := if s.waitingForTo && hasWaitingCallback then [WaitingForTo(s.from, input.mouse)] else [];
    var afterCancel := if s.waitingForTo && input.cancelDown then s.(waitingForTo := false) else s;
    if input.clickDown && !input.overUI then
      if !afterCancel.waitingForTo then (FromToState(true, input.mouse), waiting)
      else (afterCancel.(waitingForTo := false), waiting + [ClickFromTo(afterCancel.from, input.mouse)])
    else (afterCancel, waiting)
  }

  /** The completed selections of a run of frames. */
  function Selections(events: seq<FromToEvent>): (r: seq<(Vec3, Vec3)>)
    ensures |r| <= |events|
  {
    if events == [] then []
    else (match events[0]
          case ClickFromTo(a, b) => [(a, b)]
          case WaitingForTo(_, _) => []) + Selections(events[1..])
  }

  /** Two clicks away from the UI, without cancelling, select from the first position to the second and return to state 0. */
  lemma TwoClicksSelect(s: FromToState, hasWaitingCallback: bool, first: ClickInput, second: ClickInput)
    requires !s.waitingForTo
    requires first.clickDown && !first.overUI
    requires second.clickDown && !second.overUI && !second.cancelDown
    ensures var (s1, e1) := ClickFromToStep(s, hasWaitingCallback, first);
            var (s2, e2) := ClickFromToStep(s1, hasWaitingCallback, second);
            s2 == FromToState(false, first.mouse)
            && Selections(e1 + e2) == [(first.mouse, second.mouse)]
  {
    var (s1, e1) := ClickFromToStep(s, hasWaitingCallback, first);
    var (s2, e2) := ClickFromToStep(s1, hasWaitingCallback, second);
    assert e1 == [];
    if hasWaitingCallback {
      assert e2 == [WaitingForTo(first.mouse, second.mouse), ClickFromTo(first.mouse, second.mouse)];
      assert Selections(e2[1..]) == [(first.mouse, second.mouse)];
    } else {
      assert e2 == [ClickFromTo(first.mouse, second.mouse)];
    }
  }

  /** Clicks over the UI never move the machine out of or into a selection, and never complete one. */
  lemma UIClicksAreIgnored(s: FromToState, hasWaitingCallback: bool, input: ClickInput)
    requires input.overUI && !input.cancelDown
    ensures ClickFromToStep(s, hasWaitingCallback, input).0 == s
    ensures Selections(ClickFromToStep(s, hasWaitingCallback, input).1) == []
  {
  }

  /**
   * A cancel and a click in the same frame of state 1 abandon the old
   * selection and start a new one at the click: no selection completes, and
   * the only event is the waiting callback, when there is one.
   */
  lemma CancelThenClickRestarts(s: FromToState, hasWaitingCallback: bool, input: ClickInput)
    requires s.waitingForTo && input.cancelDown && input.clickDown && !input.overUI
    ensures ClickFromToStep(s, hasWaitingCallback, input).0 == FromToState(true, input.mouse)
    ensures ClickFromToStep(s, hasWaitingCallback, input).1
              == (if hasWaitingCallback then [WaitingForTo(s.from, input.mouse)] else [])
    ensures Selections(ClickFromToStep(s, hasWaitingCallback, input).1) == []
  {
    var events := ClickFromToStep(s, hasWaitingCallback, input).1;
    if hasWaitingCallback {
      assert Selections(events) == [] + Selections(events[1..]);
    }
  }
}
