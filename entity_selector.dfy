/** The entity selector as the client runs it: one object whose fields are
    the module-level variables, changed in place by the operations, each of
    which but `Init` is proved to make the transition of the same name in
    `SelectionState` (`Init` only sets `ticking`). All but `UpdateSelectionList` keep the selector's
    invariant on every call; that one keeps it when the index is 0, which is
    how its one caller, `Toggle`, calls it. */
module EntitySelector {
  import opened Targets
  import opened Ranking
  import opened Controls
  import SS = SelectionState

  class Selector {
    /** Whether `init` has registered the per-frame callback. */
    var ticking: bool
    var isSelecting: bool
    var selections: seq<Target>
    var selectionIndex: nat
    var tabStartTime: int
    var startPosition: Option<Vec3>
    var isReleased: bool

    /** The fields as a state value. */
    function State(): SS.State
      reads this
    {
      SS.State(ticking, isSelecting, selections, selectionIndex, startPosition, KeyState(tabStartTime, isReleased))
    }

    ghost predicate Valid()
      reads this
    {
      SS.Inv(State())
    }

    /** The module's initial values. */
    constructor ()
      ensures Valid() && State() == SS.Initial
    {
      ticking := false;
      isSelecting := false;
      selections := [];
      selectionIndex := 0;
      tabStartTime := 0;
      startPosition := None;
      isReleased := true;
    }

    /** `init`: registers the per-frame callback. */
    method Init()
      requires Valid()
      modifies this
      ensures Valid() && State() == old(State()).(ticking := true)
    {
      ticking := true;
    }

    /** `toggle`. */
    method Toggle(menuOpen: bool, w: World) returns (effects: seq<Effect>)
      requires Valid()
      modifies this
      ensures Valid()
      ensures var r := SS.Toggle(old(State()), menuOpen, w); State() == r.next && effects == r.effects
    {
      if menuOpen {
        return [];
      }
      if isSelecting {
        isSelecting := false;
        startPosition := None;
        selections := [];
        return [Sound(Back)];
      }
      startPosition := Some(w.me.pos);
      selectionIndex := 0;
      isSelecting := true;
      assert Valid() && selectionIndex == 0;
      UpdateSelectionList(w);
      effects := [Sound(Select)];
    }

    /** `updateSelectionList`: converts players, vehicles and objects, sorts
        the concatenation by distance and keeps the first entries. It does not
        reset the index, so it keeps the invariant only when called, as
        `toggle` calls it, with the index at 0. */
    method UpdateSelectionList(w: World)
      modifies this
      ensures State() == SS.UpdateSelectionList(old(State()), w)
      ensures old(Valid()) && old(selectionIndex) == 0 ==> Valid()
    {
      if !isSelecting {
        return;
      }
      var players := Convert(w.players, Player, w.me);
      var vehicles := Convert(w.vehicles, Vehicle, w.me);
      var objects := Convert(w.objects, Object, w.me);
      var entityInfo := players;
      entityInfo := entityInfo + vehicles;
      entityInfo := entityInfo + objects;
      assert entityInfo == Candidates(w);
      entityInfo := SortByDist(entityInfo);
      selections := Slice(entityInfo, if |entityInfo| < 5 then |entityInfo| else MaxTargets);
      assert selections == Ranked(w);
    }

    /** `selectClosestEntity`. */
    method SelectClosestEntity(menuOpen: bool) returns (effects: seq<Effect>)
      requires Valid()
      modifies this
      ensures Valid()
      ensures var r := SS.SelectClosestEntity(old(State()), menuOpen); State() == r.next && effects == r.effects
    {
      if !isSelecting {
        return [];
      }
      if menuOpen {
        return [];
      }
      if !ticking {
        return [];
      }
      selectionIndex := selectionIndex + 1;
      if selectionIndex >= |selections| {
        selectionIndex := 0;
      }
      effects := [Sound(Skip)];
    }

    /** `handleControlToggling`. */
    method HandleControlToggling(input: SS.FrameInput, w: World) returns (effects: seq<Effect>)
      requires Valid()
      modifies this
      ensures Valid()
      ensures var r := SS.HandleControlToggling(old(State()), input, w); State() == r.next && effects == r.effects
    {
      var isShortPress := input.now - tabStartTime < TimeToToggleTab;
      if input.tabPressed && isReleased {
        isReleased := false;
        tabStartTime := input.now;
        return [];
      }
      if input.tabReleased {
        isReleased := true;
        if !isShortPress {
          return [];
        }
        effects := SelectClosestEntity(input.menuOpen);
        return;
      }
      if !isShortPress && !isReleased {
        isReleased := true;
        effects := Toggle(input.menuOpen, w);
        return;
      }
      effects := [];
    }

    /** `tick`. */
    method Tick(input: SS.FrameInput, w: World) returns (effects: seq<Effect>)
      requires Valid()
      modifies this
      ensures Valid()
      ensures var r := SS.Tick(old(State()), input, w); State() == r.next && effects == r.effects
    {
      effects := HandleControlToggling(input, w);
      if !isSelecting {
        return;
      }
      if input.menuOpen {
        return;
      }
      if SqDist2D(w.me.pos, startPosition.value) > SS.MaxDistance * SS.MaxDistance && !w.me.inVehicle {
        var back := Toggle(input.menuOpen, w);
        effects := effects + back;
        return;
      }
      if |selections| <= 0 {
        return;
      }
      var selection := selections[selectionIndex];
      effects := effects + [Marker(SS.MarkerPosition(selection))];
      var enterKeyPressed := input.enterReleased || input.enterReleasedDisabled;
      if !enterKeyPressed {
        return;
      }
      effects := effects + SS.Dispatch(selection, w);
    }

    /** `EntitySelector.isSelecting`. */
    function IsSelecting(): (r: bool)
      reads this
      requires Valid()
      ensures r <==> startPosition.Some?
      ensures !r ==> selections == []
    {
      isSelecting
    }

    /** `EntitySelector.get.selection`: the selected record, or none when the
        list is empty. */
    function Selection(): (r: Option<Target>)
      reads this
      requires Valid()
      ensures r.None? <==> selections == []
      ensures r.Some? ==> selectionIndex < |selections| && r.value == selections[selectionIndex]
    {
      if |selections| <= 0 then None else Some(selections[selectionIndex])
    }

    /** `EntitySelector.get.selectables`: the whole ranked list. */
    function Selectables(): (r: seq<Target>)
      reads this
      requires Valid()
      ensures r == selections
      ensures |r| <= MaxTargets
      ensures !isSelecting ==> r == []
    {
      selections
    }
  }
}
