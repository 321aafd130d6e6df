# ngx-drag-to-select selection engine, modelled in Dafny

This project models the selection engine of the Angular drag-to-select library
`ngx-drag-to-select` and proves properties of it:

- **DragMachine** (`machine.dfy`) is the `dragMachine` interaction-mode state machine.
  Its modes are `clickMode`, `dragMode.idle`, `dragMode.dragging`, `selectMode`,
  `shortcutMode` and `disabled`. Its context holds the drag corners `x1, y1, x2, y2`
  and the `selectedDirectiveIds`.
  Each `assign` action is a function from context to context. The transition table
  is one function, `Step`. Lemmas state the table event by event, the laws of the
  Ctrl-click toggle, and the invariant that the selection stays a duplicate-free
  list of item ids over any run of events.
- **Geometry** (`geometry.dfy`) holds the container-supplied pure actions: the select
  area normalised with min/max, the inclusive overlap hit test, and the list of hit ids.
- **Operators** (`operators.dfy`) holds the function `createSelectBox` maps each drag
  state through, and `distinctKeyEvents` applied to a finite list of key events.
- **Directive** (`directive.dfy`) holds the `dtsSelectItem` directive as a class:
  the id taken from a shared counter, `selected`, `rangeStart`, the bounding-box
  cache and the `value` getter.
- **Container** (`container.dfy`) holds the select container as a class. It has the
  item list, the machine state, and the history of `selectedItemsChange` emissions.
  Every delivered state goes through the `changed || index === 0` filter, then
  through the synchronising loop over the items, then through the emission.
  Its methods are the `mode` setter, `selectAll`, `clearSelection` and click forwarding.
- **Sequences** and **Wrappers** are small helpers: duplicate freedom,
  order-preserving subsequence, and `Option`.

Inputs from outside the core become parameters:
- the DOM rectangle each item's element reports (`layout`, or `measured`);
- whether the code runs in a browser (`isBrowser`);
- the answer of the shortcut service's `toggleSingleItem` (`shortcutPressed`);
- the interpreter's `changed` flag for a new state (`changed`).

Coordinates are integers.

Behaviour of the code worth noting:
- Ctrl-click in `clickMode` toggles the clicked id; a plain click replaces the selection with it.
- `selectItems` and `clearAll` also work in `disabled`.
- The emitted list is in item-list order, not in selection order.
- Switching modes while dragging keeps the drag coordinates in the context.

## Model

| member | source | states |
|---|---|---|
| DragMachine.Initial | projects/ngx-drag-to-select/src/lib/machine.ts:49-61 | the machine starts in `clickMode` with all four coordinates 0 and nothing selected |
| DragMachine.RemoveId | projects/ngx-drag-to-select/src/lib/machine.ts:138 | the filtered list holds exactly the ids other than the removed one |
| DragMachine.Toggle | projects/ngx-drag-to-select/src/lib/machine.ts:135-141 | toggling flips the membership of the clicked id, keeps the membership of every other id, and appends an absent id at the end |
| DragMachine.ClickItem | projects/ngx-drag-to-select/src/lib/machine.ts:130-134 | the selection becomes exactly `[directiveId]`; no other context field changes |
| DragMachine.ClickItemAppend | projects/ngx-drag-to-select/src/lib/machine.ts:135-141 | the selection becomes the toggled list; no other context field changes |
| DragMachine.StartDrag | projects/ngx-drag-to-select/src/lib/machine.ts:150-156 | `x1, y1` become the pointer position; nothing else changes |
| DragMachine.Drag | projects/ngx-drag-to-select/src/lib/machine.ts:157-163 | `x2, y2` become the pointer position; nothing else changes |
| DragMachine.ResetDrag | projects/ngx-drag-to-select/src/lib/machine.ts:142-149 | all four coordinates become 0; the selection is kept |
| DragMachine.UpdateSelectedItems | projects/ngx-drag-to-select/src/lib/select-container.component.ts:132-154 | only the selection changes, and every id in it is an item id |
| DragMachine.SelectItemsAction | projects/ngx-drag-to-select/src/lib/machine.ts:164 | the selection becomes exactly the given ids |
| DragMachine.ClearAllAction | projects/ngx-drag-to-select/src/lib/machine.ts:165 | the selection becomes empty |
| DragMachine.ToggleRemovesEveryOccurrence | projects/ngx-drag-to-select/src/lib/machine.ts:137-138 | toggling a present id removes every occurrence and keeps all other ids, with their multiplicities, in their relative order |
| DragMachine.TogglePreservesNoDuplicates | projects/ngx-drag-to-select/src/lib/machine.ts:135-141 | a duplicate-free selection stays duplicate-free after a toggle |
| DragMachine.ToggleTwiceAbsent | projects/ngx-drag-to-select/src/lib/machine.ts:135-141 | toggling an absent id twice restores the original list exactly |
| DragMachine.ToggleTwiceMembership | projects/ngx-drag-to-select/src/lib/machine.ts:135-141 | toggling the same id twice restores the membership of every id |
| DragMachine.ClickModeClick | projects/ngx-drag-to-select/src/lib/machine.ts:63-74 | in `clickMode` a click replaces the selection with the clicked id, or toggles it when `ctrlKey` is set; mode and coordinates are kept |
| DragMachine.ClickInOtherModes | projects/ngx-drag-to-select/src/lib/machine.ts:97-112 | `selectMode` always toggles; `shortcutMode` toggles only when the guard holds; `disabled` and `dragMode` ignore the click |
| DragMachine.ModeTogglesKeepContext | projects/ngx-drag-to-select/src/lib/machine.ts:114-119 | each mode command reaches its target from every state (`dragMode` at `idle`) and keeps the whole context |
| DragMachine.RootSelectionCommands | projects/ngx-drag-to-select/src/lib/machine.ts:120-125 | in every mode, `selectItems` sets exactly the given ids and `clearAll` empties the selection; the mode and the coordinates are kept |
| DragMachine.MouseDownStartsDrag | projects/ngx-drag-to-select/src/lib/machine.ts:79-86 | `mousedown` in `dragMode.idle` moves to `dragging` with `x1, y1` set and the rest kept; in any other mode it changes nothing |
| DragMachine.MouseMoveMovesCorner | projects/ngx-drag-to-select/src/lib/machine.ts:87-91 | `mousemove` while dragging sets `x2, y2`, keeps `x1, y1` and the mode, and replaces the selection with the hit ids of the new area |
| DragMachine.MouseMoveSelectsHits | projects/ngx-drag-to-select/src/lib/machine.ts:87-91 | after `mousemove` while dragging, the selection is exactly the ids of the items the new area hits, in item order |
| DragMachine.MouseUpEndsDrag | projects/ngx-drag-to-select/src/lib/machine.ts:92 | `mouseup` while dragging returns to `idle`, zeroes the coordinates and keeps the selection |
| DragMachine.MouseIgnoredWhenNotDragging | projects/ngx-drag-to-select/src/lib/machine.ts:79-94 | `mousemove` and `mouseup` change nothing outside `dragMode.dragging` |
| DragMachine.StepPreservesWellFormed | projects/ngx-drag-to-select/src/lib/machine.ts:62-126 | one step of any event the container can send keeps the selection a duplicate-free list of item ids |
| DragMachine.RunPreservesWellFormed | projects/ngx-drag-to-select/src/lib/machine.ts:62-126 | every run of such events keeps the selection a duplicate-free list of item ids |
| DragMachine.InitialWellFormed | projects/ngx-drag-to-select/src/lib/machine.ts:53-61 | the initial selection satisfies that invariant |
| Geometry.NormalizedArea | projects/ngx-drag-to-select/src/lib/select-container.component.ts:133-138 | the area has `x1 <= x2` and `y1 <= y2`, and its corners are the minimum and maximum of the context's corners |
| Geometry.NormalizedAreaSymmetric | projects/ngx-drag-to-select/src/lib/select-container.component.ts:121-126 | the area does not depend on the direction of the drag |
| Geometry.HitIffCommonPoint | projects/ngx-drag-to-select/src/lib/select-container.component.ts:144-145 | the inclusive overlap test holds exactly when the area and the item box share a point, degenerate boxes included |
| Geometry.CandidateIds | projects/ngx-drag-to-select/src/lib/select-container.component.ts:149 | the ids of the items, position by position |
| Geometry.HitIdsExact | projects/ngx-drag-to-select/src/lib/select-container.component.ts:140-149 | an id is selected by the drag exactly when some item with that id is hit |
| Geometry.HitIdsInItemOrder | projects/ngx-drag-to-select/src/lib/select-container.component.ts:140-149 | the selected ids are a subsequence of the item ids, so they follow item order |
| Geometry.HitIdsAppend | projects/ngx-drag-to-select/src/lib/select-container.component.ts:140-149 | hit-testing a concatenation of item lists concatenates the hits |
| Geometry.HitIdsNoDuplicates | projects/ngx-drag-to-select/src/lib/select-container.component.ts:140-153 | distinct item ids give a duplicate-free selection |
| Geometry.HitIdsAreItemIds | projects/ngx-drag-to-select/src/lib/select-container.component.ts:140-149 | every selected id is an item id |
| Operators.Abs | projects/ngx-drag-to-select/src/lib/operators.ts:41-42 | the absolute value is non-negative and is either the number or its negation |
| Operators.CreateSelectBox | projects/ngx-drag-to-select/src/lib/operators.ts:14-45 | `DRAGGING_START` gives a 0-by-0 invisible box at `down`; `DRAGGING_END` gives the all-zero box; a missing position fails where the code reads it |
| Operators.DraggingBoxSpansCorners | projects/ngx-drag-to-select/src/lib/operators.ts:35-44 | any other state gives a visible box with `width = abs(move.x - down.x)` and `height = abs(move.y - down.y)`, at the minimum corner and reaching the maximum one |
| Operators.DraggingBoxSymmetric | projects/ngx-drag-to-select/src/lib/operators.ts:35-44 | swapping `down` and `move` gives the same box |
| Operators.DistinctKeyEvents | projects/ngx-drag-to-select/src/lib/operators.ts:55-60 | the output is empty only for empty input, and the first event is always kept |
| Operators.DistinctFromInOrder | projects/ngx-drag-to-select/src/lib/operators.ts:55-60 | what passes after a given last emission is a subsequence of the input |
| Operators.DistinctFromHead | projects/ngx-drag-to-select/src/lib/operators.ts:57-59 | the first event let through differs in key code or type from the last one emitted |
| Operators.DistinctFromNoAdjacentRepeats | projects/ngx-drag-to-select/src/lib/operators.ts:55-60 | no two neighbours of the output, counting the last emission, share key code and type |
| Operators.DistinctFromFixpoint | projects/ngx-drag-to-select/src/lib/operators.ts:55-60 | a stream without adjacent repeats passes unchanged |
| Operators.DistinctKeyEventsSpec | projects/ngx-drag-to-select/src/lib/operators.ts:55-60 | the output is a subsequence of the input with no two adjacent events of equal key code and type |
| Operators.DistinctKeyEventsIdempotent | projects/ngx-drag-to-select/src/lib/operators.ts:55-60 | de-duplicating twice equals de-duplicating once |
| Operators.DistinctFromRespectsSameKey | projects/ngx-drag-to-select/src/lib/operators.ts:57-59 | two last emissions with the same key code and type let the same events through |
| Operators.ChangedFromIsDistinctFrom | projects/ngx-drag-to-select/src/lib/operators.ts:55-60 | from position i on, the events that differ from their predecessor in the input are exactly what passes after the event at i - 1 |
| Operators.DistinctKeyEventsKeepsChanges | projects/ngx-drag-to-select/src/lib/operators.ts:55-60 | the output is exactly the input events that come first or differ from their predecessor in key code or type, in order |
| Directive.IdCounter.constructor | projects/ngx-drag-to-select/src/lib/select-item.directive.ts:24 | the counter starts at 0 with nothing issued |
| Directive.SelectItem.constructor | projects/ngx-drag-to-select/src/lib/select-item.directive.ts:48-55 | the new item takes the counter's value, which is larger than every id issued before, and the counter grows by one; `selected` and `rangeStart` start false and the cache empty |
| Directive.SelectItem.Value | projects/ngx-drag-to-select/src/lib/select-item.directive.ts:44-46 | the value is the bound input when that is truthy, otherwise the item itself |
| Directive.SelectItem.ToggleRangeStart | projects/ngx-drag-to-select/src/lib/select-item.directive.ts:65-67 | `rangeStart` is negated, so two calls restore it |
| Directive.SelectItem.CalculateBoundingClientRect | projects/ngx-drag-to-select/src/lib/select-item.directive.ts:80-84 | the measured box always overwrites the cache and is returned |
| Directive.SelectItem.GetBoundingClientRect | projects/ngx-drag-to-select/src/lib/select-item.directive.ts:73-78 | it measures only in a browser with an empty cache, otherwise leaves the cache as it is; either way it returns the cache |
| Directive.SelectItem.Select | projects/ngx-drag-to-select/src/lib/select-item.directive.ts:86-88 | `selected` becomes true and no other field changes |
| Directive.SelectItem.Deselect | projects/ngx-drag-to-select/src/lib/select-item.directive.ts:90-92 | `selected` becomes false and no other field changes |
| Container.ModeEvent | projects/ngx-drag-to-select/src/lib/select-container.component.ts:73-91 | exactly the five mode names send an event, and that event is a mode command; any other string sends nothing |
| Container.ModeEventEntersMode | projects/ngx-drag-to-select/src/lib/select-container.component.ts:73-91 | setting `mode` to a mode's name moves the machine to that mode and keeps the context |
| Container.ModeEventRoundTrip | projects/ngx-drag-to-select/src/lib/select-container.component.ts:73-91 | every accepted `mode` value is the name of the mode it switches to |
| Container.ItemIds | projects/ngx-drag-to-select/src/lib/select-container.component.ts:226 | the item ids position by position, in item order |
| Container.Candidates | projects/ngx-drag-to-select/src/lib/select-container.component.ts:140-142 | each item paired with its element's current rectangle, in item order |
| Container.SelectedValuesAppend | projects/ngx-drag-to-select/src/lib/select-container.component.ts:192-193 | the emitted list is built item by item, so it is in item-list order |
| Container.SelectedValuesExact | projects/ngx-drag-to-select/src/lib/select-container.component.ts:192-193 | a value is emitted exactly when it is the value of an item whose id is selected |
| Container.SelectedValuesEmpty | projects/ngx-drag-to-select/src/lib/select-container.component.ts:192-193 | with nothing selected the emitted list is empty |
| Container.SelectedValuesOfAllIds | projects/ngx-drag-to-select/src/lib/select-container.component.ts:192-193 | when every item's id is selected, every item's value is emitted, in item order |
| Container.SyncedValuesAreFlaggedValues | projects/ngx-drag-to-select/src/lib/select-container.component.ts:182-194 | once the flags are synchronised, the emitted list is the values of the items whose `selected` flag is set |
| Container.SelectBoxCoversSelectArea | projects/ngx-drag-to-select/src/lib/operators.ts:35-44 | the box drawn for a drag covers exactly the area the hit test uses for the same corners |
| Container.SelectContainer.constructor | projects/ngx-drag-to-select/src/lib/select-container.component.ts:157-165 | the container starts in the machine's initial state with nothing delivered or emitted |
| Container.SelectContainer.SyncSelection | projects/ngx-drag-to-select/src/lib/select-container.component.ts:182-190 | afterwards every item's `selected` flag is the membership of its id in the selection; no other item field changes |
| Container.SelectContainer.Publish | projects/ngx-drag-to-select/src/lib/select-container.component.ts:180-194 | the first state or a `changed` one is synchronised and its selected values emitted; any other state changes no flag and emits nothing |
| Container.SelectContainer.Start | projects/ngx-drag-to-select/src/lib/select-container.component.ts:168-178 | when nothing was delivered before, starting synchronises the current state and emits its selected values; otherwise no flag changes and nothing is emitted; rangeStart, dtsSelectItem and boundingClientRect of every item never change |
| Container.SelectContainer.Send | projects/ngx-drag-to-select/src/lib/select-container.component.ts:205-208 | the state becomes the machine's step; the first or a `changed` state is synchronised and emitted, any other emits nothing and changes no flag; an unchanged selection keeps the flags in sync; rangeStart, dtsSelectItem and boundingClientRect of every item never change |
| Container.SelectContainer.SetMode | projects/ngx-drag-to-select/src/lib/select-container.component.ts:73-91 | a mode name switches the machine to its mode, keeps the context and publishes like `Send`; any other value changes nothing; the flags stay in sync; rangeStart, dtsSelectItem and boundingClientRect of every item never change |
| Container.SelectContainer.SelectAll | projects/ngx-drag-to-select/src/lib/select-container.component.ts:225-227 | the selection becomes all item ids in item order, in any mode; once published every item is flagged and every item's value is emitted, otherwise nothing is emitted and no flag changes; rangeStart, dtsSelectItem and boundingClientRect of every item never change |
| Container.SelectContainer.ClearSelection | projects/ngx-drag-to-select/src/lib/select-container.component.ts:229-231 | the selection becomes empty; once published no item is flagged and the empty list is emitted, otherwise nothing is emitted and no flag changes; rangeStart, dtsSelectItem and boundingClientRect of every item never change |
| Container.SelectContainer.ItemClicked | projects/ngx-drag-to-select/src/lib/select-container.component.ts:212-217 | a click on an item is a machine click with that item's id and `ctrlKey`, published like `Send`; rangeStart, dtsSelectItem and boundingClientRect of every item never change |

## Left out

- Angular glue is not modelled: decorators, dependency injection, host bindings and listeners, `EventEmitter` (the emissions are kept as a list instead), lifecycle hooks, `QueryList`, `ngOnInit`'s back-reference on the element, and `applySelectedClass`. It is framework plumbing with no selection logic.
- RxJS plumbing is not modelled: `fromEvent`, `merge`, `takeUntil`, `fromEventPattern` and the subscriptions. Each DOM mouse event reaches the model as a call of `Send`.
- `Container.SelectContainer.Start`: events sent before `Start` are stepped and published at once, so the first emission belongs to whichever call comes first. The xstate interpreter instead defers such events until it starts, so it always delivers the initial state first. The interpreter starts only when `state$` is first subscribed, and the `mode` input setter can run before that, so the difference can be observed.
- The xstate interpreter's internals are not modelled: `interpret`, `withConfig`, `onTransition`, start and stop, `toStrings()`, and how `changed` is computed. `changed` is an input of `Send`.
- DOM side effects are not modelled: `clearSelection(window)` on `mousedown`, and the `--mouse-*` CSS properties that `drawSelectbox` writes. Neither has any effect on the selection. The normalisation `drawSelectbox` shares with `updateSelectedItems` is `Geometry.NormalizedArea`.
- The rectangles of the elements, and the `calculateBoundingClientRect` helper of `utils`, are parameters. `utils` is not part of this model.
- `whenSelectBoxVisible` is not modelled. It depends on `hasMinimumSize` from `utils`, which is not part of this model.
- `ShortcutService.toggleSingleItem` is not part of this model; its answer is the boolean `shortcutPressed`.
- The context field `shortcuts` is left out, because it only carries the service. `selectWithShortcut` is kept, but no action reads it.
- Numbers are integers. Floating-point coordinates, `NaN`, and fractional `dtsSelectItem` values (which affect truthiness) are not modelled.
- `Directive.SelectItem.Value`: the boolean-like view of the bound `dtsSelectItem` covers only undefined, null, booleans, integers, strings and objects.
- The source does not implement add/remove modifier reconciliation, shortcut-gated dragging, select-only-on-drag-end, or per-item select/deselect events, so none of them is modelled.
