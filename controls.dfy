/** The tap/hold classifier of the selector's toggle key
    (`handleControlToggling`): raw press and release edges plus a clock in,
    at most one intent per physical press out. */
module Controls {

  /** `TIME_TO_TOGGLE_TAB`, in milliseconds. */
  const TimeToToggleTab := 250

  /** `tabStartTime` and `isReleased`. */
  datatype KeyState = KeyState(tabStartTime: int, isReleased: bool)

  /** One frame's view of the toggle key: the clock and the two edges. */
  datatype KeyEdge = KeyEdge(now: int, pressed: bool, released: bool)

  /** What a frame asks of the selector: cycle (a tap was released) or
      toggle (a press has been held long enough). */
  datatype Intent = NoIntent | CycleIntent | ToggleIntent

  datatype Classified = Classified(key: KeyState, intent: Intent)

  const InitialKey := KeyState(0, true)

  /** One evaluation of the classifier. The press test comes first, then the
      release test, then the hold test; `isShortPress` uses the start time as
      it was when the frame began. An intent always leaves the press resolved. */
  function Classify(k: KeyState, e: KeyEdge): (r: Classified)
    ensures r.intent != NoIntent ==> r.key == KeyState(k.tabStartTime, true)
    ensures r.intent == CycleIntent ==> e.released && e.now - k.tabStartTime < TimeToToggleTab
    ensures r.intent == ToggleIntent ==> !k.isReleased && e.now - k.tabStartTime >= TimeToToggleTab
  {
    var isShortPress := e.now - k.tabStartTime < TimeToToggleTab;
    if e.pressed && k.isReleased then
      Classified(KeyState(e.now, false), NoIntent)
    else if e.released then
      Classified(KeyState(k.tabStartTime, true), if isShortPress then CycleIntent else NoIntent)
    else if !isShortPress && !k.isReleased then
      Classified(KeyState(k.tabStartTime, true), ToggleIntent)
    else
      Classified(k, NoIntent)
  }

  datatype Trace = Trace(key: KeyState, intents: seq<Intent>)

  /** The classifier run over consecutive frames; `intents` keeps the frames'
      intents other than `NoIntent`, in order. */
  function Run(k: KeyState, edges: seq<KeyEdge>): Trace
    decreases |edges|
  {
    if edges == [] then Trace(k, [])
    else
      var c := Classify(k, edges[0]);
      var rest := Run(c.key, edges[1..]);
      Trace(rest.key, (if c.intent == NoIntent then [] else [c.intent]) + rest.intents)
  }

  /** Frames on which the key shows no edge. */
  ghost predicate Quiet(edges: seq<KeyEdge>)
  {
    forall i :: 0 <= i < |edges| ==> !edges[i].pressed && !edges[i].released
  }

  /** Every frame's clock is in `[lo, hi)` measured from `start`. */
  ghost predicate Elapsed(edges: seq<KeyEdge>, start: int, lo: int, hi: int)
  {
    forall i :: 0 <= i < |edges| ==> lo <= edges[i].now - start < hi
  }

  lemma {:induction false} RunAppend(k: KeyState, a: seq<KeyEdge>, b: seq<KeyEdge>)
    ensures Run(k, a + b) == Trace(Run(Run(k, a).key, b).key, Run(k, a).intents + Run(Run(k, a).key, b).intents)
    decreases |a|
  {
    if a == [] {
      assert a + b == b;
    } else {
      assert (a + b)[1..] == a[1..] + b;
      RunAppend(Classify(k, a[0]).key, a[1..], b);
    }
  }

  /** While the key is down and unresolved, quiet frames before the threshold
      change nothing. */
  lemma {:induction false} QuietWhileShort(t0: int, holds: seq<KeyEdge>)
    requires Quiet(holds) && Elapsed(holds, t0, 0, TimeToToggleTab)
    ensures Run(KeyState(t0, false), holds) == Trace(KeyState(t0, false), [])
    decreases |holds|
  {
    if holds != [] {
      QuietWhileShort(t0, holds[1..]);
    }
  }

  /** Once the key is released or the press resolved, quiet frames change
      nothing. */
  lemma {:induction false} QuietWhileResolved(k: KeyState, idle: seq<KeyEdge>)
    requires k.isReleased && Quiet(idle)
    ensures Run(k, idle) == Trace(k, [])
    decreases |idle|
  {
    if idle != [] {
      QuietWhileResolved(k, idle[1..]);
    }
  }

  /** A tap: a press, frames held below 250 ms, a release before 250 ms and
      any idle frames after it yield exactly one cycle and no toggle. */
  lemma Tap(k: KeyState, t0: int, holds: seq<KeyEdge>, t1: int, idle: seq<KeyEdge>)
    requires k.isReleased
    requires Quiet(holds) && Elapsed(holds, t0, 0, TimeToToggleTab)
    requires t1 - t0 < TimeToToggleTab
    requires Quiet(idle)
    ensures var r := Run(k, [KeyEdge(t0, true, false)] + holds + [KeyEdge(t1, false, true)] + idle);
      r.intents == [CycleIntent] && r.key == KeyState(t0, true)
  {
    var press, release := [KeyEdge(t0, true, false)], [KeyEdge(t1, false, true)];
    var down := KeyState(t0, false);
    assert Run(k, press) == Trace(down, []);
    QuietWhileShort(t0, holds);
    assert Run(down, release) == Trace(KeyState(t0, true), [CycleIntent]);
    QuietWhileResolved(KeyState(t0, true), idle);
    RunAppend(k, press, holds);
    RunAppend(k, press + holds, release);
    RunAppend(k, press + holds + release, idle);
  }

  /** A hold: a press, frames below 250 ms, at least one frame at 250 ms or
      later while still held, then the release: exactly one toggle, issued at
      the first frame past the threshold, and the release adds nothing. */
  lemma Hold(k: KeyState, t0: int, early: seq<KeyEdge>, late: seq<KeyEdge>, t1: int, idle: seq<KeyEdge>)
    requires k.isReleased
    requires Quiet(early) && Elapsed(early, t0, 0, TimeToToggleTab)
    requires late != [] && Quiet(late) && late[0].now - t0 >= TimeToToggleTab
    requires t1 - t0 >= TimeToToggleTab
    requires Quiet(idle)
    ensures var r := Run(k, [KeyEdge(t0, true, false)] + early + late + [KeyEdge(t1, false, true)] + idle);
      r.intents == [ToggleIntent] && r.key == KeyState(t0, true)
    ensures Run(k, [KeyEdge(t0, true, false)] + early + late[..1]).intents == [ToggleIntent]
  {
    var press, release := [KeyEdge(t0, true, false)], [KeyEdge(t1, false, true)];
    var down, up := KeyState(t0, false), KeyState(t0, true);
    assert Run(k, press) == Trace(down, []);
    QuietWhileShort(t0, early);
    assert Run(down, late[..1]) == Trace(up, [ToggleIntent]);
    assert late == late[..1] + late[1..];
    QuietWhileResolved(up, late[1..]);
    assert Run(up, release) == Trace(up, []);
    QuietWhileResolved(up, idle);
    RunAppend(k, press, early);
    RunAppend(k, press + early, late[..1]);
    RunAppend(down, late[..1], late[1..]);
    RunAppend(k, press + early, late);
    RunAppend(k, press + early + late, release);
    RunAppend(k, press + early + late + release, idle);
  }

  /** A press and its release seen on the same frame: the press test wins and
      the release is lost, so the classifier treats it as a hold. */
  lemma SameFrameTapActsAsHold(k: KeyState, t0: int, t1: int)
    requires k.isReleased && t1 - t0 >= TimeToToggleTab
    ensures Physical(false, [KeyEdge(t0, true, true), KeyEdge(t1, false, false)])
    ensures Run(k, [KeyEdge(t0, true, true), KeyEdge(t1, false, false)]).intents == [ToggleIntent]
  {
    var edges := [KeyEdge(t0, true, true), KeyEdge(t1, false, false)];
    assert edges[1..] == [KeyEdge(t1, false, false)];
    assert Run(KeyState(t0, false), edges[1..]) == Trace(KeyState(t0, true), [ToggleIntent]);
  }

  // ---------------------------------------------------------------------
  // At most one intent per press, over arbitrary runs.

  /** What the physical key is doing: up, down with its press not yet
      resolved, down with the press already resolved by a toggle, or up after
      a press and release reported on one frame, which the classifier still
      takes for an unresolved press. */
  datatype Phase = Up | DownOpen | DownResolved | UpPending

  /** Whether the physical key is down in a phase. */
  predicate IsDown(phase: Phase)
  {
    phase == DownOpen || phase == DownResolved
  }

  /** Whether the classifier holds a press that may still yield an intent. */
  predicate Pending(phase: Phase)
  {
    phase == DownOpen || phase == UpPending
  }

  /** A key trace a physical key can produce: press and release edges
      alternate. While the key is up a frame may report a press and its
      release together; while it is down it can only be released. `down` says
      whether the key is down before the first frame. */
  ghost predicate Physical(down: bool, edges: seq<KeyEdge>)
    decreases |edges|
  {
    edges == [] ||
    (var e := edges[0];
     && (if down then !e.pressed else !(e.released && !e.pressed))
     && Physical(if down then !e.released else e.pressed && !e.released, edges[1..]))
  }

  /** The clock never goes back, starting from `t`. */
  ghost predicate Monotone(t: int, edges: seq<KeyEdge>)
    decreases |edges|
  {
    edges == [] || (t <= edges[0].now && Monotone(edges[0].now, edges[1..]))
  }

  function Presses(edges: seq<KeyEdge>): nat
    decreases |edges|
  {
    if edges == [] then 0 else (if edges[0].pressed then 1 else 0) + Presses(edges[1..])
  }

  /** How the classifier's state matches the key's phase; `t` is the clock of
      the last frame seen. */
  ghost predicate Consistent(phase: Phase, k: KeyState, t: int)
  {
    match phase
    case Up => k.isReleased
    case DownOpen => !k.isReleased
    case DownResolved => k.isReleased && t - k.tabStartTime >= TimeToToggleTab
    case UpPending => !k.isReleased
  }

  /** The phase after one frame. */
  function NextPhase(phase: Phase, e: KeyEdge, c: Classified): Phase
  {
    match phase
    case Up => if e.pressed && e.released then UpPending else if e.pressed then DownOpen else Up
    case DownOpen => if e.released then Up else if c.intent == ToggleIntent then DownResolved else DownOpen
    case DownResolved => if e.released then Up else DownResolved
    case UpPending =>
      if e.released then Up
      else if e.pressed then (if c.intent == ToggleIntent then DownResolved else DownOpen)
      else if c.intent == ToggleIntent then Up else UpPending
  }

  /** Over any physical trace with a clock that does not go back, the number
      of intents is at most the number of presses, plus one for a press the
      classifier holds unresolved at the start. Same-frame press and release
      edges are in the domain. */
  lemma {:induction false} IntentsBoundedByPresses(phase: Phase, k: KeyState, t: int, edges: seq<KeyEdge>)
    requires Consistent(phase, k, t) && Physical(IsDown(phase), edges) && Monotone(t, edges)
    ensures |Run(k, edges).intents| <= Presses(edges) + (if Pending(phase) then 1 else 0)
    decreases |edges|
  {
    if edges != [] {
      var e := edges[0];
      var c := Classify(k, e);
      IntentsBoundedByPresses(NextPhase(phase, e, c), c.key, e.now, edges[1..]);
    }
  }

  /** At most one intent per press: from the key at rest, a physical trace
      yields no more intents than presses. */
  lemma AtMostOneIntentPerPress(k: KeyState, t: int, edges: seq<KeyEdge>)
    requires k.isReleased && Physical(false, edges) && Monotone(t, edges)
    ensures |Run(k, edges).intents| <= Presses(edges)
  {
    IntentsBoundedByPresses(Up, k, t, edges);
  }
}
