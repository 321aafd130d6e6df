/** The select container: it keeps the items, the machine's current state and
    the notifications sent on `selectedItemsChange`; every state the machine
    reaches is published by synchronising the items' `selected` flags with the
    selected ids and emitting the values of the selected items. */
module Container {
  import opened Wrappers
  import opened Sequences
  import opened Geometry
  import opened DragMachine
  import opened Directive
  import Operators

  // ---------------------------------------------------------------------------
  // The `mode` input setter.

  /** The event the `mode` setter sends for `value`; `None` when it sends nothing. */
  function ModeEvent(value: string): (r: Option<Event>)
    ensures r.Some? <==> value == "click" || value == "drag" || value == "select" || value == "shortcut" || value == "disable"
    ensures r.Some? ==> r.value.IsModeToggle()
  {
    if value == "click" then Some(ToggleClickMode)
    else if value == "drag" then Some(ToggleDragMode)
    else if value == "select" then Some(ToggleSelectMode)
    else if value == "shortcut" then Some(ToggleSelectWithShortcut)
    else if value == "disable" then Some(ToggleDisabledMode)
    else None
  }

  /** The `mode` value that names each top-level mode. */
  function ModeName(m: Mode): string {
    match m
    case ClickMode => "click"
    case DragMode(_) => "drag"
    case SelectMode => "select"
    case ShortcutMode => "shortcut"
    case Disabled => "disable"
  }

  /** Setting `mode` to a mode's name switches the machine to that mode (to
      `dragMode.idle` for "drag") and keeps the context. */
  lemma ModeEventEntersMode(m: Mode, s: State, items: seq<Candidate>, p: bool)
    ensures ModeEvent(ModeName(m)).Some?
    ensures Step(s, ModeEvent(ModeName(m)).value, items, p) ==
            State(if m.DragMode? then DragMode(Idle) else m, s.context)
  {
  }

  /** Conversely, every accepted `mode` value names the mode it switches to. */
  lemma ModeEventRoundTrip(value: string, s: State, items: seq<Candidate>, p: bool)
    requires ModeEvent(value).Some?
    ensures ModeName(Step(s, ModeEvent(value).value, items, p).mode) == value
  {
  }

  // ---------------------------------------------------------------------------
  // The items as the machine and the notification see them.

  /** `this.$selectableItems.map(c => c.id)`. */
  function ItemIds(items: seq<SelectItem>): (ids: seq<int>)
    ensures |ids| == |items|
    ensures forall i | 0 <= i < |items| :: ids[i] == items[i].id
  {
    seq(|items|, i requires 0 <= i < |items| => items[i].id)
  }

  /** The items with the rectangles their elements report now (`layout`). */
  function Candidates(items: seq<SelectItem>, layout: SelectItem -> BoundingBox): (c: seq<Candidate>)
    ensures |c| == |items|
    ensures forall i | 0 <= i < |items| :: c[i] == Candidate(items[i].id, layout(items[i]))
    ensures CandidateIds(c) == ItemIds(items)
  {
    if items == [] then [] else [Candidate(items[0].id, layout(items[0]))] + Candidates(items[1..], layout)
  }

  /** `items.filter(item => ids.includes(item.id)).map(item => item.value)`. */
  function SelectedValues(items: seq<SelectItem>, ids: seq<int>): seq<ItemValue>
    reads items
  {
    if items == [] then []
    else (if items[0].id in ids then [items[0].Value()] else []) + SelectedValues(items[1..], ids)
  }

  /** The values of the items whose `selected` flag is set, in item order. */
  function FlaggedValues(items: seq<SelectItem>): seq<ItemValue>
    reads items
  {
    if items == [] then []
    else (if items[0].selected then [items[0].Value()] else []) + FlaggedValues(items[1..])
  }

  /** The values of all items, in item order. */
  function AllValues(items: seq<SelectItem>): (r: seq<ItemValue>)
    reads items
    ensures |r| == |items|
    ensures forall i | 0 <= i < |items| :: r[i] == items[i].Value()
  {
    if items == [] then [] else [items[0].Value()] + AllValues(items[1..])
  }

  /** Every item's flag says whether its id is in `ids`. */
  ghost predicate SyncedWith(items: seq<SelectItem>, ids: seq<int>)
    reads items
  {
    forall i | 0 <= i < |items| :: items[i].selected == (items[i].id in ids)
  }

  /** The notification is built item by item, so it follows item order. */
  lemma {:induction false} SelectedValuesAppend(xs: seq<SelectItem>, ys: seq<SelectItem>, ids: seq<int>)
    ensures SelectedValues(xs + ys, ids) == SelectedValues(xs, ids) + SelectedValues(ys, ids)
  {
    if xs == [] {
      assert xs + ys == ys;
    } else {
      assert (xs + ys)[1..] == xs[1..] + ys;
      SelectedValuesAppend(xs[1..], ys, ids);
    }
  }

  /** When every item's id is selected, the notification lists every item's value. */
  lemma {:induction false} SelectedValuesOfAllIds(items: seq<SelectItem>, ids: seq<int>)
    requires forall i | 0 <= i < |items| :: items[i].id in ids
    ensures SelectedValues(items, ids) == AllValues(items)
  {
    if items != [] {
      assert forall i | 0 <= i < |items[1..]| :: items[1..][i] == items[i + 1];
      SelectedValuesOfAllIds(items[1..], ids);
    }
  }

  /** A value is notified exactly when it is the value of an item whose id is selected. */
  lemma {:induction false} SelectedValuesExact(items: seq<SelectItem>, ids: seq<int>, v: ItemValue)
    ensures v in SelectedValues(items, ids) <==>
            exists i :: 0 <= i < |items| && items[i].id in ids && items[i].Value() == v
  {
    if items != [] {
      SelectedValuesExact(items[1..], ids, v);
      if v in SelectedValues(items[1..], ids) {
        var i :| 0 <= i < |items[1..]| && items[1..][i].id in ids && items[1..][i].Value() == v;
        assert items[i + 1] == items[1..][i];
      }
      if exists i :: 0 <= i < |items| && items[i].id in ids && items[i].Value() == v {
        var i :| 0 <= i < |items| && items[i].id in ids && items[i].Value() == v;
        if i > 0 {
          assert items[1..][i - 1] == items[i];
        }
      }
    }
  }

  /** Once the flags are synchronised, the notified list is the list of values
      of the items whose flag is set. */
  lemma {:induction false} SyncedValuesAreFlaggedValues(items: seq<SelectItem>, ids: seq<int>)
    requires SyncedWith(items, ids)
    ensures SelectedValues(items, ids) == FlaggedValues(items)
  {
    if items != [] {
      assert SyncedWith(items[1..], ids) by {
        forall i | 0 <= i < |items[1..]| ensures items[1..][i].selected == (items[1..][i].id in ids) {
          assert items[1..][i] == items[i + 1];
        }
      }
      SyncedValuesAreFlaggedValues(items[1..], ids);
    }
  }

  /** The box drawn for a drag from `down` to `move` covers exactly the select area
      the hit test uses for the same two corners. */
  lemma SelectBoxCoversSelectArea(state: string, down: Operators.MousePosition, move: Operators.MousePosition)
    requires state != Operators.DRAGGING_START && state != Operators.DRAGGING_END
    ensures var box := Operators.CreateSelectBox(Operators.DragState(state, Some(down), Some(move)));
      var a := NormalizedArea(down.x, down.y, move.x, move.y);
      && box.Some?
      && box.value.left == a.x1 && box.value.left + box.value.width == a.x2
      && box.value.top == a.y1 && box.value.top + box.value.height == a.y2
  {
    Operators.DraggingBoxSpansCorners(state, down, move);
  }

  // ---------------------------------------------------------------------------

  class SelectContainer {
    var items: seq<SelectItem>
    var state: State
    /** How many states the transition stream has delivered. */
    var transitions: nat
    /** Every list emitted on `selectedItemsChange`, oldest first. */
    var emitted: seq<seq<ItemValue>>

    constructor (items: seq<SelectItem>)
      ensures this.items == items && state == Initial()
      ensures transitions == 0 && emitted == []
    {
      this.items := items;
      state := Initial();
      transitions := 0;
      emitted := [];
    }

    ghost predicate Synced()
      reads this, items
    {
      SyncedWith(items, state.context.selectedDirectiveIds)
    }

    /** The first `tap`: every item is selected or deselected by membership of its
        id in the selected ids. Only the `selected` flags change. */
    method SyncSelection()
      modifies items
      ensures Synced()
      ensures forall j | 0 <= j < |items| ::
        && items[j].rangeStart == old(items[j].rangeStart)
        && items[j].dtsSelectItem == old(items[j].dtsSelectItem)
        && items[j].boundingClientRect == old(items[j].boundingClientRect)
    {
      var ids := state.context.selectedDirectiveIds;
      var i := 0;
      while i < |items|
        invariant 0 <= i <= |items|
        invariant forall j | 0 <= j < i :: items[j].selected == (items[j].id in ids)
        invariant forall j | 0 <= j < |items| ::
          && items[j].rangeStart == old(items[j].rangeStart)
          && items[j].dtsSelectItem == old(items[j].dtsSelectItem)
          && items[j].boundingClientRect == old(items[j].boundingClientRect)
      {
        if items[i].id in ids {
          items[i].Select();
        } else {
          items[i].Deselect();
        }
        i := i + 1;
      }
    }

    /** One state delivered by the transition stream: it passes the filter when it
        is the first one or is flagged `changed`, and is then synchronised into the
        items and notified. */
    method Publish(changed: bool)
      modifies this, items
      ensures items == old(items) && state == old(state) && transitions == old(transitions) + 1
      ensures changed || old(transitions) == 0 ==>
        && Synced()
        && emitted == old(emitted) + [SelectedValues(items, state.context.selectedDirectiveIds)]
        && emitted == old(emitted) + [FlaggedValues(items)]
      ensures !(changed || old(transitions) == 0) ==>
        && emitted == old(emitted)
        && forall j | 0 <= j < |items| :: items[j].selected == old(items[j].selected)
      ensures forall j | 0 <= j < |items| ::
        && items[j].rangeStart == old(items[j].rangeStart)
        && items[j].dtsSelectItem == old(items[j].dtsSelectItem)
        && items[j].boundingClientRect == old(items[j].boundingClientRect)
    {
      var index := transitions;
      transitions := transitions + 1;
      if changed || index == 0 {
        SyncSelection();
        SyncedValuesAreFlaggedValues(items, state.context.selectedDirectiveIds);
        emitted := emitted + [SelectedValues(items, state.context.selectedDirectiveIds)];
      }
    }

    /** Starting the interpreter delivers the current state; when nothing was
        delivered before, it is index 0 and passes the filter. */
    method Start()
      modifies this, items
      ensures items == old(items) && state == old(state) && transitions == old(transitions) + 1
      ensures old(transitions) == 0 ==>
        Synced() && emitted == old(emitted) + [SelectedValues(items, state.context.selectedDirectiveIds)]
      ensures old(transitions) != 0 ==>
        emitted == old(emitted) && forall j | 0 <= j < |items| :: items[j].selected == old(items[j].selected)
      ensures forall j | 0 <= j < |items| ::
        && items[j].rangeStart == old(items[j].rangeStart)
        && items[j].dtsSelectItem == old(items[j].dtsSelectItem)
        && items[j].boundingClientRect == old(items[j].boundingClientRect)
    {
      Publish(false);
    }

    /** `dragService.send(e)`: one machine step, then the new state is published.
        `layout` gives each item's current rectangle, `shortcutPressed` the
        shortcut guard, `changed` the interpreter's flag for the new state. */
    method Send(e: Event, layout: SelectItem -> BoundingBox, shortcutPressed: bool, changed: bool)
      modifies this, items
      ensures items == old(items) && transitions == old(transitions) + 1
      ensures state == Step(old(state), e, Candidates(items, layout), shortcutPressed)
      ensures changed || old(transitions) == 0 ==>
        Synced() && emitted == old(emitted) + [SelectedValues(items, state.context.selectedDirectiveIds)]
      ensures !(changed || old(transitions) == 0) ==>
        emitted == old(emitted) && forall j | 0 <= j < |items| :: items[j].selected == old(items[j].selected)
      ensures old(Synced()) && state.context.selectedDirectiveIds == old(state.context.selectedDirectiveIds) ==> Synced()
      ensures forall j | 0 <= j < |items| ::
        && items[j].rangeStart == old(items[j].rangeStart)
        && items[j].dtsSelectItem == old(items[j].dtsSelectItem)
        && items[j].boundingClientRect == old(items[j].boundingClientRect)
    {
      state := Step(state, e, Candidates(items, layout), shortcutPressed);
      Publish(changed);
    }

    /** The `mode` input setter. */
    method SetMode(value: string, changed: bool)
      modifies this, items
      ensures items == old(items)
      ensures ModeEvent(value).None? ==>
        && state == old(state) && transitions == old(transitions) && emitted == old(emitted)
        && forall j | 0 <= j < |items| :: items[j].selected == old(items[j].selected)
      ensures ModeEvent(value).Some? ==>
        && state == State(ToggleTarget(ModeEvent(value).value), old(state).context)
        && transitions == old(transitions) + 1
        && (changed || old(transitions) == 0 ==>
              Synced() && emitted == old(emitted) + [SelectedValues(items, state.context.selectedDirectiveIds)])
        && (!(changed || old(transitions) == 0) ==>
              emitted == old(emitted) && forall j | 0 <= j < |items| :: items[j].selected == old(items[j].selected))
      ensures old(Synced()) ==> Synced()
      ensures forall j | 0 <= j < |items| ::
        && items[j].rangeStart == old(items[j].rangeStart)
        && items[j].dtsSelectItem == old(items[j].dtsSelectItem)
        && items[j].boundingClientRect == old(items[j].boundingClientRect)
    {
      var e := ModeEvent(value);
      if e.Some? {
        Send(e.value, _ => BoundingBox(0, 0, 0, 0), false, changed);
      }
    }

    /** `selectAll`: every item id, in item order, becomes the selection, and once
        published every item is flagged and all item values are emitted. */
    method SelectAll(changed: bool)
      modifies this, items
      ensures items == old(items) && transitions == old(transitions) + 1
      ensures state == State(old(state).mode, old(state).context.(selectedDirectiveIds := ItemIds(items)))
      ensures changed || old(transitions) == 0 ==>
        && (forall j | 0 <= j < |items| :: items[j].selected)
        && emitted == old(emitted) + [AllValues(items)]
      ensures !(changed || old(transitions) == 0) ==>
        emitted == old(emitted) && forall j | 0 <= j < |items| :: items[j].selected == old(items[j].selected)
      ensures forall j | 0 <= j < |items| ::
        && items[j].rangeStart == old(items[j].rangeStart)
        && items[j].dtsSelectItem == old(items[j].dtsSelectItem)
        && items[j].boundingClientRect == old(items[j].boundingClientRect)
    {
      Send(SelectItems(ItemIds(items)), _ => BoundingBox(0, 0, 0, 0), false, changed);
      SelectedValuesOfAllIds(items, ItemIds(items));
    }

    /** `clearSelection`: the selection becomes empty. */
    method ClearSelection(changed: bool)
      modifies this, items
      ensures items == old(items) && transitions == old(transitions) + 1
      ensures state == State(old(state).mode, old(state).context.(selectedDirectiveIds := []))
      ensures changed || old(transitions) == 0 ==>
        (forall j | 0 <= j < |items| :: !items[j].selected) && emitted == old(emitted) + [[]]
      ensures !(changed || old(transitions) == 0) ==>
        emitted == old(emitted) && forall j | 0 <= j < |items| :: items[j].selected == old(items[j].selected)
      ensures forall j | 0 <= j < |items| ::
        && items[j].rangeStart == old(items[j].rangeStart)
        && items[j].dtsSelectItem == old(items[j].dtsSelectItem)
        && items[j].boundingClientRect == old(items[j].boundingClientRect)
    {
      Send(ClearAll, _ => BoundingBox(0, 0, 0, 0), false, changed);
      SelectedValuesEmpty(items);
    }

    /** A click on the item at position `k` is forwarded with its id and `ctrlKey`.
        (A click step does not look at the items' rectangles, hence `[]`.) */
    method ItemClicked(k: nat, ctrlKey: bool, shortcutPressed: bool, changed: bool)
      requires k < |items|
      modifies this, items
      ensures items == old(items) && transitions == old(transitions) + 1
      ensures state == Step(old(state), Click(items[k].id, ctrlKey), [], shortcutPressed)
      ensures changed || old(transitions) == 0 ==>
        Synced() && emitted == old(emitted) + [SelectedValues(items, state.context.selectedDirectiveIds)]
      ensures !(changed || old(transitions) == 0) ==>
        emitted == old(emitted) && forall j | 0 <= j < |items| :: items[j].selected == old(items[j].selected)
      ensures forall j | 0 <= j < |items| ::
        && items[j].rangeStart == old(items[j].rangeStart)
        && items[j].dtsSelectItem == old(items[j].dtsSelectItem)
        && items[j].boundingClientRect == old(items[j].boundingClientRect)
    {
      Send(Click(items[k].id, ctrlKey), _ => BoundingBox(0, 0, 0, 0), shortcutPressed, changed);
    }
  }

  lemma {:induction false} SelectedValuesEmpty(items: seq<SelectItem>)
    ensures SelectedValues(items, []) == []
  {
    if items != [] {
      SelectedValuesEmpty(items[1..]);
    }
  }
}
