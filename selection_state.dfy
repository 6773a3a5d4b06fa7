/** The selector's state machine as pure transitions: `toggle`,
    `updateSelectionList`, `selectClosestEntity`, `handleControlToggling` and
    `tick`, each mapping the old state and the frame's inputs to the new state
    and the effects requested of the host. */
module SelectionState {
  import opened Targets
  import opened Ranking
  import opened Controls

  /** `MAX_DISTANCE`: how far the player may move from the start position. */
  const MaxDistance := 10

  /** The module-level state of the selector. `ticking` says whether `init`
      has registered the per-frame callback (`everyTick` is a number). */
  datatype State = State(
    ticking: bool,
    isSelecting: bool,
    selections: seq<Target>,
    selectionIndex: nat,
    startPosition: Option<Vec3>,
    key: KeyState)

  /** A transition's result: the new state and the effects, in order. */
  datatype Step = Step(next: State, effects: seq<Effect>)

  /** One frame's host signals: the menu guard, the clock, the toggle key's
      edges and the commit key's release on its two channels. */
  datatype FrameInput = FrameInput(
    menuOpen: bool,
    now: int,
    tabPressed: bool,
    tabReleased: bool,
    enterReleased: bool,
    enterReleasedDisabled: bool)

  const Initial := State(false, false, [], 0, None, InitialKey)

  /** The selector's invariant: idle means no list and no start position,
      selecting means a start position, and a non-empty list has the index in
      bounds. */
  ghost predicate Inv(s: State)
  {
    && (s.isSelecting <==> s.startPosition.Some?)
    && (!s.isSelecting ==> s.selections == [])
    && (|s.selections| > 0 ==> s.selectionIndex < |s.selections|)
    && |s.selections| <= MaxTargets
  }

  lemma InitialIsValid()
    ensures Inv(Initial) && !Initial.isSelecting && Initial.key.isReleased
  {
  }

  /** `updateSelectionList`: rebuilds the list, but only while selecting. */
  function UpdateSelectionList(s: State, w: World): (r: State)
    ensures r.isSelecting ==> r.selections == Ranked(w)
    ensures !s.isSelecting ==> r == s
    ensures r.(selections := s.selections) == s
  {
    if !s.isSelecting then s else s.(selections := Ranked(w))
  }

  /** The state `toggle` leaves when it ends a session. The index is left as
      it was. */
  function Deactivated(s: State): (r: State)
    ensures !r.isSelecting && r.selections == [] && r.startPosition == None
    ensures r.selectionIndex == s.selectionIndex && r.key == s.key && r.ticking == s.ticking
    ensures Inv(s) && !s.isSelecting ==> r == s
  {
    s.(isSelecting := false, startPosition := None, selections := [])
  }

  /** `toggle` resets the index to 0 before it calls `updateSelectionList`;
      that reset is what keeps the invariant, since the list may shrink. */
  lemma UpdateKeepsInvFromIndexZero(s: State, w: World)
    requires Inv(s) && s.selectionIndex == 0
    ensures Inv(UpdateSelectionList(s, w))
  {
  }

  /** Without that reset the invariant can break: an index of 2 on a freshly
      ranked list of one record is out of bounds. */
  lemma UpdateWithoutResetBreaksInv(s: State, w: World, t: Target)
    requires s.isSelecting && s.startPosition.Some? && s.selections == [t, t, t] && s.selectionIndex == 2
    requires w.players == [] && w.vehicles == [] && |w.objects| == 1
    ensures Inv(s) && !Inv(UpdateSelectionList(s, w))
  {
  }

  /** `toggle`: nothing while a menu is open; otherwise end the session with
      `BACK`, or start one at the player's position with a fresh list and
      `SELECT`. */
  function Toggle(s: State, menuOpen: bool, w: World): (r: Step)
    ensures Inv(s) ==> Inv(r.next)
    ensures r.next.key == s.key && r.next.ticking == s.ticking
    ensures menuOpen ==> r == Step(s, [])
    ensures !menuOpen ==> r.next.isSelecting == !s.isSelecting
  {
    if menuOpen then Step(s, [])
    else if s.isSelecting then Step(Deactivated(s), [Sound(Back)])
    else
      var started := s.(startPosition := Some(w.me.pos), selectionIndex := 0, isSelecting := true);
      Step(UpdateSelectionList(started, w), [Sound(Select)])
  }

  /** `selectClosestEntity`: only while selecting, with no menu open and the
      per-frame callback registered; advances the index, wrapping to 0, and
      plays `SKIP` even when the list is empty. */
  function SelectClosestEntity(s: State, menuOpen: bool): (r: Step)
    ensures Inv(s) ==> Inv(r.next)
    ensures r.next.(selectionIndex := s.selectionIndex) == s
    ensures r.effects == (if s.isSelecting && !menuOpen && s.ticking then [Sound(Skip)] else [])
    ensures !(s.isSelecting && !menuOpen && s.ticking) ==> r == Step(s, [])
  {
    if !s.isSelecting || menuOpen || !s.ticking then Step(s, [])
    else
      var i := s.selectionIndex + 1;
      Step(s.(selectionIndex := if i >= |s.selections| then 0 else i), [Sound(Skip)])
  }

  /** The toggle key as the classifier sees it this frame. */
  function TabEdge(input: FrameInput): KeyEdge
  {
    KeyEdge(input.now, input.tabPressed, input.tabReleased)
  }

  /** `handleControlToggling`: classify the toggle key's edges, then carry out
      the intent, if any, with the frame's menu guard. */
  function HandleControlToggling(s: State, input: FrameInput, w: World): (r: Step)
    ensures Inv(s) ==> Inv(r.next)
    ensures r.next.key == Classify(s.key, TabEdge(input)).key && r.next.ticking == s.ticking
  {
    var c := Classify(s.key, TabEdge(input));
    var s1 := s.(key := c.key);
    match c.intent
    case NoIntent => Step(s1, [])
    case CycleIntent => SelectClosestEntity(s1, input.menuOpen)
    case ToggleIntent => Toggle(s1, input.menuOpen, w)
  }

  /** A tap released under 250 ms while selecting, ticking and with no menu
      open runs `selectClosestEntity`: the index advances, wrapping to 0, the
      press is resolved, and `SKIP` plays. */
  lemma TapReleaseCycles(s: State, input: FrameInput, w: World)
    requires Inv(s) && s.isSelecting && s.ticking && !input.menuOpen
    requires !s.key.isReleased && input.tabReleased && input.now - s.key.tabStartTime < TimeToToggleTab
    ensures var i := s.selectionIndex + 1;
      HandleControlToggling(s, input, w) ==
        Step(s.(key := KeyState(s.key.tabStartTime, true), selectionIndex := if i >= |s.selections| then 0 else i),
             [Sound(Skip)])
  {
  }

  /** A frame that finds the press held 250 ms or more, with no release and
      no menu open, runs `toggle` on the resolved key state, which flips
      `isSelecting`. */
  lemma HoldFrameToggles(s: State, input: FrameInput, w: World)
    requires Inv(s) && !input.menuOpen
    requires !s.key.isReleased && !input.tabReleased && input.now - s.key.tabStartTime >= TimeToToggleTab
    ensures HandleControlToggling(s, input, w) == Toggle(s.(key := KeyState(s.key.tabStartTime, true)), false, w)
    ensures HandleControlToggling(s, input, w).next.isSelecting == !s.isSelecting
  {
  }

  /** Where the marker goes: above the target by its height, or by 1 when the
      height is NaN. */
  function MarkerPosition(t: Target): (r: Vec3)
    ensures r.x == t.pos.x && r.y == t.pos.y
    ensures r.z == t.pos.z + (if t.height.Some? then t.height.value else 1)
  {
    Vec3(t.pos.x, t.pos.y, t.pos.z + (match t.height case Some(h) => h case None => 1))
  }

  /** `alt.Player.all.find(...)` / `alt.Vehicle.all.find(...)`: the first
      handle with the given `scriptID`. */
  function Find(all: seq<Handle>, id: int): (r: Option<Handle>)
    ensures r.None? <==> forall i :: 0 <= i < |all| ==> all[i].scriptID != id
    ensures r.Some? ==> exists i :: 0 <= i < |all| && all[i] == r.value && r.value.scriptID == id &&
                          forall j :: 0 <= j < i ==> all[j].scriptID != id
    decreases |all|
  {
    if all == [] then None
    else if all[0].scriptID == id then Some(all[0])
    else
      var r := Find(all[1..], id);
      assert forall i :: 0 < i < |all| ==> all[i] == all[1..][i - 1];
      r
  }

  /** The commit switch: NPCs open directly; players and vehicles only when
      the first matching live entity is valid; objects and positions do
      nothing. */
  function Dispatch(sel: Target, w: World): (r: seq<Effect>)
    ensures |r| <= 1
    ensures r != [] ==> sel.kind == Npc || sel.kind == Player || sel.kind == Vehicle
  {
    match sel.kind
    case Npc => [OpenNpc(sel.id)]
    case Player =>
      (match Find(w.allPlayers, sel.id)
       case Some(h) => if h.valid then [OpenPlayer(h.scriptID)] else []
       case None => [])
    case Vehicle =>
      (match Find(w.allVehicles, sel.id)
       case Some(h) => if h.valid then [OpenVehicle(h.scriptID)] else []
       case None => [])
    case Object => []
    case Pos => []
  }

  /** `tick`: the classifier first; then, only while selecting with no menu
      open, the range cancel, the marker and the commit dispatch. */
  function Tick(s: State, input: FrameInput, w: World): (r: Step)
    requires Inv(s)
    ensures Inv(r.next)
    ensures r.next.key == Classify(s.key, TabEdge(input)).key && r.next.ticking == s.ticking
  {
    var h := HandleControlToggling(s, input, w);
    var s1 := h.next;
    if !s1.isSelecting || input.menuOpen then h
    else if SqDist2D(w.me.pos, s1.startPosition.value) > MaxDistance * MaxDistance && !w.me.inVehicle then
      var t := Toggle(s1, input.menuOpen, w);
      Step(t.next, h.effects + t.effects)
    else if |s1.selections| <= 0 then h
    else
      var sel := s1.selections[s1.selectionIndex];
      var shown := h.effects + [Marker(MarkerPosition(sel))];
      if !(input.enterReleased || input.enterReleasedDisabled) then Step(s1, shown)
      else Step(s1, shown + Dispatch(sel, w))
  }

  // ---------------------------------------------------------------------
  // Properties of the transitions.

  /** Starting a session records the player's position, resets the index and
      stores the ranked list; ending it right away returns to the idle state
      with the index left at 0. */
  lemma ToggleTwiceReturnsToIdle(s: State, w: World)
    requires Inv(s) && !s.isSelecting
    ensures var on := Toggle(s, false, w);
      && on.next == s.(isSelecting := true, startPosition := Some(w.me.pos), selectionIndex := 0, selections := Ranked(w))
      && on.effects == [Sound(Select)]
      && var off := Toggle(on.next, false, w);
         off.next == s.(selectionIndex := 0) && off.effects == [Sound(Back)]
  {
  }

  /** Ending a session clears the list and the start position and plays
      `BACK`, but keeps the index. */
  lemma ToggleOffKeepsIndex(s: State, w: World)
    requires Inv(s) && s.isSelecting
    ensures Toggle(s, false, w) == Step(Deactivated(s), [Sound(Back)])
    ensures Toggle(s, false, w).next.selectionIndex == s.selectionIndex
  {
  }

  /** `n` cycles in a row with the menu closed. */
  function Cycles(s: State, n: nat): State
    decreases n
  {
    if n == 0 then s else Cycles(SelectClosestEntity(s, false).next, n - 1)
  }

  /** Within one round of the list, `k` cycles move the index `k` places,
      wrapping past the end once, and change nothing else. */
  lemma {:induction false} CyclesAdvance(s: State, k: nat)
    requires s.isSelecting && s.ticking && |s.selections| > 0 && s.selectionIndex < |s.selections|
    requires k <= |s.selections|
    ensures var c := Cycles(s, k); var i := s.selectionIndex + k;
      c.(selectionIndex := s.selectionIndex) == s &&
      c.selectionIndex == if i < |s.selections| then i else i - |s.selections|
    decreases k
  {
    if k > 0 {
      var s1 := SelectClosestEntity(s, false).next;
      CyclesAdvance(s1, k - 1);
    }
  }

  /** Cycling is a rotation: as many cycles as the list is long bring the
      index back to where it started. */
  lemma CyclesReturn(s: State)
    requires s.isSelecting && s.ticking && |s.selections| > 0 && s.selectionIndex < |s.selections|
    ensures Cycles(s, |s.selections|) == s
  {
    CyclesAdvance(s, |s.selections|);
  }

  /** On an empty list a cycle keeps the index at 0 but still plays `SKIP`. */
  lemma CycleOnEmptyList(s: State)
    requires s.isSelecting && s.ticking && s.selections == []
    ensures SelectClosestEntity(s, false) == Step(s.(selectionIndex := 0), [Sound(Skip)])
  {
  }

  /** Ranked list `[A, C, B]`: cycling from the start visits C, then B, then
      wraps to A. */
  lemma CycleScenario(s: State, ta: Target, tb: Target, tc: Target)
    requires s.isSelecting && s.ticking && s.selections == [ta, tc, tb] && s.selectionIndex == 0
    ensures var s1 := SelectClosestEntity(s, false).next;
      var s2 := SelectClosestEntity(s1, false).next;
      var s3 := SelectClosestEntity(s2, false).next;
      s1.selections[s1.selectionIndex] == tc && s2.selections[s2.selectionIndex] == tb &&
      s3.selections[s3.selectionIndex] == ta
  {
  }

  /** Idle, or a menu open: `tick` is only the classifier; no marker, no range
      check, no dispatch. */
  lemma TickGatedToClassifier(s: State, input: FrameInput, w: World)
    requires Inv(s)
    requires !HandleControlToggling(s, input, w).next.isSelecting || input.menuOpen
    ensures Tick(s, input, w) == HandleControlToggling(s, input, w)
  {
  }

  /** An open menu drops any intent: the state only takes the classifier's
      key bookkeeping and no effect is emitted. */
  lemma MenuSuppressesIntents(s: State, input: FrameInput, w: World)
    requires Inv(s) && input.menuOpen
    ensures Tick(s, input, w) == Step(s.(key := Classify(s.key, TabEdge(input)).key), [])
  {
  }

  /** Range cancel: selecting, no menu, on foot and more than 10 units from
      the start position, the next tick ends the session; with no key intent
      the only effect is `BACK`. */
  lemma RangeCancel(s: State, input: FrameInput, w: World)
    requires Inv(s) && s.isSelecting && !input.menuOpen && !w.me.inVehicle
    requires SqDist2D(w.me.pos, s.startPosition.value) > MaxDistance * MaxDistance
    ensures var r := Tick(s, input, w);
      !r.next.isSelecting && r.next.selections == [] && r.next.startPosition == None
    ensures Classify(s.key, TabEdge(input)).intent == NoIntent ==>
      Tick(s, input, w) == Step(Deactivated(s).(key := Classify(s.key, TabEdge(input)).key), [Sound(Back)])
  {
  }

  /** In a vehicle the range check never ends the session: with no key
      intent the tick leaves the selection untouched. */
  lemma VehicleExempt(s: State, input: FrameInput, w: World)
    requires Inv(s) && s.isSelecting && w.me.inVehicle
    requires Classify(s.key, TabEdge(input)).intent == NoIntent
    ensures Tick(s, input, w).next == s.(key := Classify(s.key, TabEdge(input)).key)
  {
  }

  /** Marker and commit: in range with a non-empty list, the tick draws the
      marker above the selected target and, when the commit key was released
      on either channel, dispatches that target, after the classifier's
      effects. */
  lemma MarkerAndCommit(s: State, input: FrameInput, w: World)
    requires Inv(s) && !input.menuOpen
    requires var s1 := HandleControlToggling(s, input, w).next;
      s1.isSelecting && s1.selections != [] &&
      (SqDist2D(w.me.pos, s1.startPosition.value) <= MaxDistance * MaxDistance || w.me.inVehicle)
    ensures var h := HandleControlToggling(s, input, w);
      var sel := h.next.selections[h.next.selectionIndex];
      var commit := input.enterReleased || input.enterReleasedDisabled;
      Tick(s, input, w) ==
        Step(h.next, h.effects + [Marker(MarkerPosition(sel))] + (if commit then Dispatch(sel, w) else []))
  {
  }

  /** No commit branch changes the selector state: the commit key only adds
      effects. */
  lemma CommitKeepsState(s: State, input: FrameInput, w: World)
    requires Inv(s)
    ensures Tick(s, input, w).next ==
      Tick(s, input.(enterReleased := false, enterReleasedDisabled := false), w).next
  {
    var quiet := input.(enterReleased := false, enterReleasedDisabled := false);
    assert TabEdge(quiet) == TabEdge(input);
    assert HandleControlToggling(s, quiet, w) == HandleControlToggling(s, input, w);
  }

  /** The dispatch table: an NPC opens by handle; a player or vehicle opens
      only when the first live entity with that handle is valid; objects and
      positions emit nothing. */
  lemma DispatchCases(sel: Target, w: World)
    ensures sel.kind == Npc ==> Dispatch(sel, w) == [OpenNpc(sel.id)]
    ensures sel.kind == Player ==>
      (Dispatch(sel, w) == [OpenPlayer(sel.id)] <==>
         exists i :: 0 <= i < |w.allPlayers| && w.allPlayers[i].scriptID == sel.id && w.allPlayers[i].valid &&
           forall j :: 0 <= j < i ==> w.allPlayers[j].scriptID != sel.id)
    ensures sel.kind == Player ==> Dispatch(sel, w) == [] || Dispatch(sel, w) == [OpenPlayer(sel.id)]
    ensures sel.kind == Vehicle ==>
      (Dispatch(sel, w) == [OpenVehicle(sel.id)] <==>
         exists i :: 0 <= i < |w.allVehicles| && w.allVehicles[i].scriptID == sel.id && w.allVehicles[i].valid &&
           forall j :: 0 <= j < i ==> w.allVehicles[j].scriptID != sel.id)
    ensures sel.kind == Vehicle ==> Dispatch(sel, w) == [] || Dispatch(sel, w) == [OpenVehicle(sel.id)]
    ensures sel.kind == Object || sel.kind == Pos ==> Dispatch(sel, w) == []
  {
    FindFirst(w.allPlayers, sel.id);
    FindFirst(w.allVehicles, sel.id);
  }

  /** `find` returns the handle at the first index with a matching id. */
  lemma FindFirst(all: seq<Handle>, id: int)
    ensures forall i :: 0 <= i < |all| && all[i].scriptID == id && NoEarlierMatch(all, id, i) ==>
      Find(all, id) == Some(all[i])
  {
    forall i | 0 <= i < |all| && all[i].scriptID == id && NoEarlierMatch(all, id, i)
      ensures Find(all, id) == Some(all[i])
    {
      var k :| 0 <= k < |all| && all[k] == Find(all, id).value && Find(all, id).value.scriptID == id &&
               forall j :: 0 <= j < k ==> all[j].scriptID != id;
      assert k == i;
    }
  }

  ghost predicate NoEarlierMatch(all: seq<Handle>, id: int, i: int)
  {
    forall j :: 0 <= j < i && j < |all| ==> all[j].scriptID != id
  }
}
