# Entity selector, modelled in Dafny

A model of the client-side entity selector of the game-mode core
(`src/core/client/systems/entitySelector.ts`). Holding the toggle key starts a
targeting session. The session ranks the nearest players, vehicles and
objects. A short tap cycles through them. A marker floats over the current
target, and the commit key opens that target's interaction menu. The session
ends when the key is held again, or when the player walks more than 10 units
from where it began.

The modules follow the parts of that file:

- `Targets` (`targets.dfy`): positions, entities, target records (`TargetInfo`),
  the host world one frame sees, and the effect requests the selector emits
  (sounds, the marker, the three menus).
- `Ranking` (`ranking.dfy`): `convert`, the distance sort, the slice, and
  `updateSelectionList`'s list. The sort is the host's `Array.prototype.sort`,
  which is stable. Its reference is a stable insertion sort. Three facts are
  proved of it: the result is sorted, it is a permutation of the input, and
  it is stable.
- `Controls` (`controls.dfy`): the tap/hold classifier of
  `handleControlToggling` as a small timed automaton, with lemmas over whole
  runs of key frames.
- `SelectionState` (`selection_state.dfy`): the state machine as pure
  transitions from the old state and the frame's inputs to the new state and
  the effects, with the selector's invariant and the lemmas relating calls.
- `EntitySelector` (`entity_selector.dfy`): class `Selector`. Its fields are
  the file's module-level `let`s. Its methods change them in place, as the
  source does. Each method but `Init`, which only sets `ticking`, is proved
  to make the `SelectionState` transition of the same name. Every method but `UpdateSelectionList` also keeps the
  invariant on every call. `UpdateSelectionList` does not reset the index,
  so it keeps the invariant only when the index is 0. Its one caller,
  `toggle`, sets the index to 0 first (lines 48-50). The three exported
  queries are functions over the fields.

Host inputs are parameters. They are: the "any menu open" signal, the clock,
the toggle key's just-pressed and just-released edges, the commit key's
just-released edge on both of its channels, the local player (handle,
position, vehicle occupancy), the streamed-in entity lists, and the
`alt.Player.all` / `alt.Vehicle.all` lists used to look a handle up again.
Host outputs are `Effect` values, returned in the order the source makes
the calls.

Modelling decisions:

- Coordinates are integers.
- A record's `dist` is the **squared** planar distance. The square root is
  monotone, so sorting on it gives the same order, and the range check
  `dist > 10` becomes `dist² > 10 * 10`.
- The height is `Option<int>`, where `None` stands for the NaN that the
  marker code guards against. An entity whose model dimensions are not
  numbers has `dims == None`.
- `Date.now()` is read twice in `handleControlToggling`. The model takes it
  as one `now` per frame.

Places where the code does something other than the natural reading, and
the model follows the code:

- `selectClosestEntity` plays `SKIP` even when the list is empty. The
  expected behaviour is a silent no-op. See `SelectionState.CycleOnEmptyList`.
- The self-exclusion test compares the entity's `id` with the local player's
  `scriptID`, but the record stores `scriptID`. So a record can carry the
  local player's own handle. See `Ranking.OwnHandleKeptWhenIdsDiffer`.
- Deactivating leaves `selectionIndex` as it was. See
  `SelectionState.ToggleOffKeepsIndex`.
- The slice bound `length < 5 ? length : MAX_TARGETS` works out to
  `min(length, 10)`. See `Ranking.RankedList`.
- A press and a release reported on the same frame are read as a press
  whose release was lost, so the key acts as held. See
  `Controls.SameFrameTapActsAsHold`.

## Model

| member | source | states |
|---|---|---|
| `Ranking.Height` | src/core/client/systems/entitySelector.ts:61-62 | the height is a number iff the model dimensions are, and then it is `abs(min.z) + abs(max.z)`, never negative; otherwise NaN (`None`) |
| `Ranking.Excluded` | src/core/client/systems/entitySelector.ts:57 | only a `player` can be excluded, and then exactly when its `id` is the local `scriptID`; see `ConvertedMembership` |
| `Ranking.ToTarget` | src/core/client/systems/entitySelector.ts:61-64 | the pushed record carries the entity's `scriptID`, position, kind, planar distance and height; `Converted` and `ConvertedMembership` say which entities produce one |
| `Ranking.Converted` | src/core/client/systems/entitySelector.ts:53-68 | never longer than its input; for every kind but `player`, one record per entity, position for position |
| `Ranking.Convert` | src/core/client/systems/entitySelector.ts:53-68 | the `for`/`push` loop returns exactly `Converted` of its input |
| `Ranking.ConvertedMembership` | src/core/client/systems/entitySelector.ts:56-64 | a record is in the result iff some entity produced it and was not excluded, and only a `player` whose `id` equals the local `scriptID` is excluded |
| `Ranking.ConvertedAppend` | src/core/client/systems/entitySelector.ts:56-65 | input order is preserved: converting `a + b` gives the conversions of `a` then of `b` |
| `Ranking.OwnHandleKeptWhenIdsDiffer` | src/core/client/systems/entitySelector.ts:57-64 | an entity carrying the local player's `scriptID` is kept, under that handle, when its `id` differs |
| `Ranking.SortByDist` | src/core/client/systems/entitySelector.ts:82-84 | the sorted list is in non-decreasing `dist` order and is a permutation of its input |
| `Ranking.SortByDistStable` | src/core/client/systems/entitySelector.ts:82-84 | for every distance, the records at that distance keep their input order |
| `Ranking.Slice` | src/core/client/systems/entitySelector.ts:86 | `slice(0, end)` gives the first `min(end, length)` records |
| `Ranking.Ranked` | src/core/client/systems/entitySelector.ts:69-86 | the stored list holds at most `MAX_TARGETS` records |
| `Ranking.RankedList` | src/core/client/systems/entitySelector.ts:74-86 | the list is the stable sort of players ++ vehicles ++ objects cut to `min(n, 10)`; it is sorted and drawn from the candidates; no candidate left out is closer than one kept |
| `Ranking.RankingScenario` | src/core/client/systems/entitySelector.ts:78-86 | candidates at distances 2, 5, 2 rank first, third, second |
| `Controls.Classify` | src/core/client/systems/entitySelector.ts:108-130 | an intent always leaves the press resolved with its start time kept; a cycle needs a release under 250 ms; a toggle needs an unresolved press held 250 ms or more |
| `Controls.QuietWhileShort` | src/core/client/systems/entitySelector.ts:126-129 | a press held under 250 ms with no edges emits nothing and changes nothing |
| `Controls.QuietWhileResolved` | src/core/client/systems/entitySelector.ts:110-129 | with the key released or the press resolved, frames without edges emit nothing |
| `Controls.Tap` | src/core/client/systems/entitySelector.ts:109-123 | press, short hold, release under 250 ms, then idle frames: exactly one cycle, no toggle |
| `Controls.Hold` | src/core/client/systems/entitySelector.ts:109-129 | a press held to 250 ms emits exactly one toggle, on the first frame past the threshold, and the later release emits nothing |
| `Controls.SameFrameTapActsAsHold` | src/core/client/systems/entitySelector.ts:110-129 | press and release on one frame: the trace is physical, the release is lost and the press later toggles |
| `Controls.IntentsBoundedByPresses` | src/core/client/systems/entitySelector.ts:108-130 | on any physical key trace with a clock that never goes back, including a press and release on one frame, intents ≤ presses, plus one if a press is already pending |
| `Controls.AtMostOneIntentPerPress` | src/core/client/systems/entitySelector.ts:108-130 | from the key at rest, each press yields at most one intent |
| `SelectionState.InitialIsValid` | src/core/client/systems/entitySelector.ts:22-28 | the initial values satisfy the invariant |
| `SelectionState.UpdateSelectionList` | src/core/client/systems/entitySelector.ts:69-87 | while selecting, the list becomes the ranked list; while idle, nothing changes; nothing but the list ever changes |
| `SelectionState.UpdateKeepsInvFromIndexZero` | src/core/client/systems/entitySelector.ts:48-50 | with the index reset to 0 first, as `toggle` does, rebuilding the list keeps the invariant |
| `SelectionState.UpdateWithoutResetBreaksInv` | src/core/client/systems/entitySelector.ts:69-87 | rebuilding the list does not reset the index: an index of 2 on a new list of one record breaks the invariant |
| `SelectionState.Deactivated` | src/core/client/systems/entitySelector.ts:39-44 | ending a session clears the list and the start position and keeps the index; on an idle state it changes nothing |
| `SelectionState.Toggle` | src/core/client/systems/entitySelector.ts:34-52 | keeps the invariant; no-op with no effect while a menu is open; otherwise flips `isSelecting`; never touches the key state |
| `SelectionState.SelectClosestEntity` | src/core/client/systems/entitySelector.ts:88-107 | keeps the invariant; changes only the index; emits exactly `SKIP` when selecting, menu closed and ticking started; otherwise returns the state unchanged, index included, with no effect |
| `SelectionState.HandleControlToggling` | src/core/client/systems/entitySelector.ts:108-130 | keeps the invariant; the key state is the classifier's |
| `SelectionState.MarkerPosition` | src/core/client/systems/entitySelector.ts:152-156 | the marker stands at the target's x and y, raised by its height, or by 1 when the height is NaN; `MarkerAndCommit` places it in `tick` |
| `SelectionState.Dispatch` | src/core/client/systems/entitySelector.ts:176-202 | at most one menu opens, and only for an `npc`, `player` or `vehicle`; `DispatchCases` gives each branch |
| `SelectionState.TapReleaseCycles` | src/core/client/systems/entitySelector.ts:116-123 | a release under 250 ms while selecting, ticking and with no menu open advances the index with wrap, resolves the press and plays `SKIP` |
| `SelectionState.HoldFrameToggles` | src/core/client/systems/entitySelector.ts:126-129 | a frame that finds an unresolved press held 250 ms or more, with no release and no menu open, is `toggle` on the resolved key state and flips `isSelecting` |
| `SelectionState.Find` | src/core/client/systems/entitySelector.ts:181 | `find` yields nothing iff no handle matches, else the first matching handle |
| `SelectionState.FindFirst` | src/core/client/systems/entitySelector.ts:189 | the handle at the first matching index is the one `find` returns |
| `SelectionState.Tick` | src/core/client/systems/entitySelector.ts:131-203 | keeps the invariant, so the reads at lines 152-155 and 174 are in bounds; the key state is the classifier's |
| `SelectionState.ToggleTwiceReturnsToIdle` | src/core/client/systems/entitySelector.ts:34-52 | from idle, toggling starts a session at the player's position with index 0 and the ranked list (`SELECT`); toggling again returns to idle (`BACK`) |
| `SelectionState.ToggleOffKeepsIndex` | src/core/client/systems/entitySelector.ts:39-44 | ending a session plays `BACK` and leaves the index unchanged |
| `SelectionState.CyclesAdvance` | src/core/client/systems/entitySelector.ts:101-104 | `k` cycles, within one round, move the index `k` places, wrapping once to 0, and change nothing else |
| `SelectionState.CyclesReturn` | src/core/client/systems/entitySelector.ts:101-104 | on a list of length N ≥ 1, N cycles return the state to where it was |
| `SelectionState.CycleOnEmptyList` | src/core/client/systems/entitySelector.ts:101-106 | on an empty list a cycle sets the index to 0 and still plays `SKIP` |
| `SelectionState.CycleScenario` | src/core/client/systems/entitySelector.ts:101-104 | on `[A, C, B]` cycling selects C, then B, then wraps to A |
| `SelectionState.TickGatedToClassifier` | src/core/client/systems/entitySelector.ts:131-140 | idle or menu open: the tick is only the classifier, with no marker, no range check and no dispatch |
| `SelectionState.MenuSuppressesIntents` | src/core/client/systems/entitySelector.ts:35-37 | with a menu open, a tick only updates the key bookkeeping and emits nothing |
| `SelectionState.RangeCancel` | src/core/client/systems/entitySelector.ts:142-146 | selecting, on foot, over 10 units from the start: the tick ends the session; with no key intent the only effect is `BACK` |
| `SelectionState.VehicleExempt` | src/core/client/systems/entitySelector.ts:143 | in a vehicle, with no key intent, the tick leaves the selection unchanged |
| `SelectionState.MarkerAndCommit` | src/core/client/systems/entitySelector.ts:148-175 | in range with a non-empty list: the marker sits at the selected position raised by its height, or by 1 for NaN, and the commit key on either channel adds the dispatch |
| `SelectionState.CommitKeepsState` | src/core/client/systems/entitySelector.ts:166-202 | the commit key never changes the selector state |
| `SelectionState.DispatchCases` | src/core/client/systems/entitySelector.ts:176-202 | `npc` opens by id; `player`/`vehicle` open iff the first entity with that handle is valid, else nothing; `object`/`pos` emit nothing |
| `EntitySelector.Selector.constructor` | src/core/client/systems/entitySelector.ts:22-28 | the fields start at the module's initial values, which satisfy the invariant |
| `EntitySelector.Selector.Init` | src/core/client/systems/entitySelector.ts:31-33 | marks ticking as started and changes nothing else |
| `EntitySelector.Selector.Toggle` | src/core/client/systems/entitySelector.ts:34-52 | the in-place update makes exactly the `SelectionState.Toggle` transition and keeps the invariant |
| `EntitySelector.Selector.UpdateSelectionList` | src/core/client/systems/entitySelector.ts:69-87 | three conversions, concatenation, sort and slice store exactly the ranked list; the invariant is kept when the index is 0 on entry |
| `EntitySelector.Selector.SelectClosestEntity` | src/core/client/systems/entitySelector.ts:88-107 | makes exactly the `SelectClosestEntity` transition and keeps the invariant |
| `EntitySelector.Selector.HandleControlToggling` | src/core/client/systems/entitySelector.ts:108-130 | makes exactly the `HandleControlToggling` transition and keeps the invariant |
| `EntitySelector.Selector.Tick` | src/core/client/systems/entitySelector.ts:131-203 | makes exactly the `Tick` transition, effects in source order, and keeps the invariant |
| `EntitySelector.Selector.IsSelecting` | src/core/client/systems/entitySelector.ts:212-214 | true iff a start position is recorded; false implies an empty list |
| `EntitySelector.Selector.Selection` | src/core/client/systems/entitySelector.ts:221-227 | none iff the list is empty; otherwise the record at `selectionIndex`, which is in bounds |
| `EntitySelector.Selector.Selectables` | src/core/client/systems/entitySelector.ts:233-235 | the whole stored list, so at most 10 records, and none while idle |

## Left out

- Engine queries are inputs. These are `native.getModelDimensions` (an
  optional bounding box per entity), `alt.Player.streamedIn`,
  `alt.Vehicle.streamedIn`, `alt.Object.all`, and the `alt.Player.all` /
  `alt.Vehicle.all` lookups (lists of handles with a validity flag).
- Control-edge queries, `Date.now()` and `isAnyMenuOpen()` are parameters of
  each operation.
- Drawing, sound and menus are emitted as `Effect` values:
  `drawMarkerSimple`, `handleFrontendSound`, and the NPC, player and vehicle
  wheel menus. The marker's type, rotation, scale and colour are constants
  and are left out. So is the sound set name.
- Event wiring is left out: the `alt.everyTick` registration and the
  `TICKS_START` server event. Only the fact that ticking has started is kept.
  Running `init` more than once would register several per-frame callbacks;
  that is not modelled.
- Floating point is left out. Distances are squared integers and NaN is
  `None`. Rounding in `distance2D` is not modelled.
- The two `console.log` placeholders for `object` and `pos` are left out.
  Those branches emit no effect.
- `SelectionState.CyclesAdvance`: states the index formula only for up to
  one full round (`k <= N`). The general `(i + k) mod N` form is not proved.
  `CyclesReturn`, the property that matters, follows from the bounded form.
