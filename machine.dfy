/** The `dragMachine` interaction-mode state machine: its modes, its context, its
    events, the `assign` actions and the transition table as one `Step` function.
    The container-supplied action `updateSelectedItems` is the hit test of
    module Geometry; the guard `isShortcutPressed` calls a shortcut service that is
    not part of this model and arrives as the boolean `shortcutPressed`. */
module DragMachine {
  import opened Sequences
  import opened Geometry

  datatype DragSub = Idle | Dragging

  datatype Mode = ClickMode | DragMode(sub: DragSub) | SelectMode | ShortcutMode | Disabled

  datatype Context = Context(
    selectWithShortcut: bool,
    x1: int, y1: int, x2: int, y2: int,
    selectedDirectiveIds: seq<int>)

  datatype Event =
    | ToggleDragMode
    | ToggleSelectMode
    | ToggleClickMode
    | ToggleDisabledMode
    | ToggleSelectWithShortcut
    | ClearAll
    | SelectItems(directiveIds: seq<int>)
    | Click(directiveId: int, ctrlKey: bool)
    | MouseDown(clientX: int, clientY: int)
    | MouseMove(clientX: int, clientY: int)
    | MouseUp(clientX: int, clientY: int)
  {
    /** The five commands handled on the root node that only switch mode. */
    predicate IsModeToggle() {
      ToggleDragMode? || ToggleSelectMode? || ToggleClickMode? || ToggleDisabledMode? || ToggleSelectWithShortcut?
    }
  }

  datatype State = State(mode: Mode, context: Context)

  /** The machine's declared initial state. */
  function Initial(): (s: State)
    ensures s.mode == ClickMode
    ensures s.context.x1 == 0 && s.context.y1 == 0 && s.context.x2 == 0 && s.context.y2 == 0
    ensures s.context.selectedDirectiveIds == [] && !s.context.selectWithShortcut
  {
    State(ClickMode, Context(false, 0, 0, 0, 0, []))
  }

  /** `ids.filter(id => id !== x)`. */
  function RemoveId(ids: seq<int>, x: int): (r: seq<int>)
    ensures forall y :: y in r <==> y in ids && y != x
  {
    if ids == [] then []
    else (if ids[0] == x then [] else [ids[0]]) + RemoveId(ids[1..], x)
  }

  /** The id list `clickItemAppend` computes. */
  function Toggle(ids: seq<int>, x: int): (r: seq<int>)
    ensures x in r <==> x !in ids
    ensures forall y :: y != x ==> (y in r <==> y in ids)
    ensures x !in ids ==> r == ids + [x]
  {
    if x in ids then RemoveId(ids, x) else ids + [x]
  }

  // The `assign` actions. Each returns the context with only the fields of its
  // partial result replaced.

  function ClickItem(ctx: Context, directiveId: int): (c: Context)
    ensures c.selectedDirectiveIds == [directiveId]
    ensures c.(selectedDirectiveIds := ctx.selectedDirectiveIds) == ctx
  {
    ctx.(selectedDirectiveIds := [directiveId])
  }

  function ClickItemAppend(ctx: Context, directiveId: int): (c: Context)
    ensures c.selectedDirectiveIds == Toggle(ctx.selectedDirectiveIds, directiveId)
    ensures c.(selectedDirectiveIds := ctx.selectedDirectiveIds) == ctx
  {
    ctx.(selectedDirectiveIds := Toggle(ctx.selectedDirectiveIds, directiveId))
  }

  function StartDrag(ctx: Context, clientX: int, clientY: int): (c: Context)
    ensures c.x1 == clientX && c.y1 == clientY
    ensures c.(x1 := ctx.x1, y1 := ctx.y1) == ctx
  {
    ctx.(x1 := clientX, y1 := clientY)
  }

  function Drag(ctx: Context, clientX: int, clientY: int): (c: Context)
    ensures c.x2 == clientX && c.y2 == clientY
    ensures c.(x2 := ctx.x2, y2 := ctx.y2) == ctx
  {
    ctx.(x2 := clientX, y2 := clientY)
  }

  function ResetDrag(ctx: Context): (c: Context)
    ensures c.x1 == 0 && c.y1 == 0 && c.x2 == 0 && c.y2 == 0
    ensures c.(x1 := ctx.x1, y1 := ctx.y1, x2 := ctx.x2, y2 := ctx.y2) == ctx
  {
    ctx.(x1 := 0, y1 := 0, x2 := 0, y2 := 0)
  }

  /** The container's `updateSelectedItems`: the ids of the hit items, in item order. */
  function UpdateSelectedItems(ctx: Context, items: seq<Candidate>): (c: Context)
    ensures forall x :: x in c.selectedDirectiveIds ==> x in CandidateIds(items)
    ensures c.(selectedDirectiveIds := ctx.selectedDirectiveIds) == ctx
  {
    HitIdsAreItemIds(items, NormalizedArea(ctx.x1, ctx.y1, ctx.x2, ctx.y2));
    ctx.(selectedDirectiveIds := HitIds(items, NormalizedArea(ctx.x1, ctx.y1, ctx.x2, ctx.y2)))
  }

  function SelectItemsAction(ctx: Context, directiveIds: seq<int>): (c: Context)
    ensures c.selectedDirectiveIds == directiveIds
    ensures c.(selectedDirectiveIds := ctx.selectedDirectiveIds) == ctx
  {
    ctx.(selectedDirectiveIds := directiveIds)
  }

  function ClearAllAction(ctx: Context): (c: Context)
    ensures c.selectedDirectiveIds == []
    ensures c.(selectedDirectiveIds := ctx.selectedDirectiveIds) == ctx
  {
    ctx.(selectedDirectiveIds := [])
  }

  /** The guard `appendItem`. */
  predicate AppendItem(ctrlKey: bool) { ctrlKey }

  /** The mode a root-level mode command targets; `dragMode` is entered at `idle`. */
  function ToggleTarget(e: Event): Mode
    requires e.IsModeToggle()
  {
    match e
    case ToggleDragMode => DragMode(Idle)
    case ToggleSelectMode => SelectMode
    case ToggleClickMode => ClickMode
    case ToggleSelectWithShortcut => ShortcutMode
    case ToggleDisabledMode => Disabled
  }

  /** One transition of the machine. `items` are the container's items with their
      current rectangles (read by `updateSelectedItems`), `shortcutPressed` is the
      answer of the `isShortcutPressed` guard for this event. An event with no
      handler in the active state leaves the state as it is. */
  function Step(s: State, e: Event, items: seq<Candidate>, shortcutPressed: bool): State
  {
    var ctx := s.context;
    match e
    case ToggleDragMode => State(DragMode(Idle), ctx)
    case ToggleSelectMode => State(SelectMode, ctx)
    case ToggleClickMode => State(ClickMode, ctx)
    case ToggleSelectWithShortcut => State(ShortcutMode, ctx)
    case ToggleDisabledMode => State(Disabled, ctx)
    case SelectItems(ids) => State(s.mode, SelectItemsAction(ctx, ids))
    case ClearAll => State(s.mode, ClearAllAction(ctx))
    case Click(id, ctrlKey) =>
      (match s.mode
       case ClickMode =>
         if AppendItem(ctrlKey) then State(ClickMode, ClickItemAppend(ctx, id))
         else State(ClickMode, ClickItem(ctx, id))
       case SelectMode => State(SelectMode, ClickItemAppend(ctx, id))
       case ShortcutMode =>
         if shortcutPressed then State(ShortcutMode, ClickItemAppend(ctx, id)) else s
       case _ => s)
    case MouseDown(x, y) =>
      if s.mode == DragMode(Idle) then State(DragMode(Dragging), StartDrag(ctx, x, y)) else s
    case MouseMove(x, y) =>
      if s.mode == DragMode(Dragging) then State(s.mode, UpdateSelectedItems(Drag(ctx, x, y), items)) else s
    case MouseUp(_, _) =>
      if s.mode == DragMode(Dragging) then State(DragMode(Idle), ResetDrag(ctx)) else s
  }

  // ---------------------------------------------------------------------------
  // The toggle `clickItemAppend` applies.

  lemma {:induction false} RemoveIdInOrder(ids: seq<int>, x: int)
    ensures IsSubsequence(RemoveId(ids, x), ids)
  {
    if ids != [] {
      RemoveIdInOrder(ids[1..], x);
      assert ids == [ids[0]] + ids[1..];
      if ids[0] == x {
        assert RemoveId(ids, x) == RemoveId(ids[1..], x);
        SubsequenceCons(ids[0], RemoveId(ids[1..], x), ids[1..]);
      }
    }
  }

  lemma {:induction false} RemoveIdMultiset(ids: seq<int>, x: int)
    ensures multiset(RemoveId(ids, x)) == multiset(ids)[x := 0]
  {
    if ids != [] {
      RemoveIdMultiset(ids[1..], x);
      assert ids == [ids[0]] + ids[1..];
      assert multiset(ids) == multiset{ids[0]} + multiset(ids[1..]);
      if ids[0] == x {
        assert RemoveId(ids, x) == RemoveId(ids[1..], x);
      } else {
        assert RemoveId(ids, x) == [ids[0]] + RemoveId(ids[1..], x);
      }
    }
  }

  lemma {:induction false} RemoveIdAppend(xs: seq<int>, ys: seq<int>, x: int)
    ensures RemoveId(xs + ys, x) == RemoveId(xs, x) + RemoveId(ys, x)
  {
    if xs == [] {
      assert xs + ys == ys;
    } else {
      assert (xs + ys)[1..] == xs[1..] + ys;
      RemoveIdAppend(xs[1..], ys, x);
    }
  }

  lemma {:induction false} RemoveIdAbsent(ids: seq<int>, x: int)
    requires x !in ids
    ensures RemoveId(ids, x) == ids
  {
    if ids != [] {
      RemoveIdAbsent(ids[1..], x);
      assert ids == [ids[0]] + ids[1..];
    }
  }

  /** Toggling a present id removes every occurrence of it and keeps the other ids,
      with their multiplicities, in their relative order. */
  lemma ToggleRemovesEveryOccurrence(ids: seq<int>, x: int)
    requires x in ids
    ensures x !in Toggle(ids, x)
    ensures IsSubsequence(Toggle(ids, x), ids)
    ensures multiset(Toggle(ids, x)) == multiset(ids)[x := 0]
  {
    RemoveIdInOrder(ids, x);
    RemoveIdMultiset(ids, x);
  }

  lemma TogglePreservesNoDuplicates(ids: seq<int>, x: int)
    requires NoDuplicates(ids)
    ensures NoDuplicates(Toggle(ids, x))
  {
    if x in ids {
      RemoveIdInOrder(ids, x);
      SubsequenceNoDuplicates(RemoveId(ids, x), ids);
    } else {
      var r := ids + [x];
      forall i, j | 0 <= i < j < |r| ensures r[i] != r[j] {
        if j == |ids| {
          assert r[i] == ids[i];
        } else {
          assert r[i] == ids[i] && r[j] == ids[j];
        }
      }
    }
  }

  /** Toggling an absent id twice gives back the original list. */
  lemma ToggleTwiceAbsent(ids: seq<int>, x: int)
    requires x !in ids
    ensures Toggle(Toggle(ids, x), x) == ids
  {
    RemoveIdAppend(ids, [x], x);
    RemoveIdAbsent(ids, x);
    assert RemoveId([x], x) == [];
  }

  /** Toggling twice always restores membership of every id. */
  lemma ToggleTwiceMembership(ids: seq<int>, x: int, y: int)
    ensures y in Toggle(Toggle(ids, x), x) <==> y in ids
  {
  }

  // ---------------------------------------------------------------------------
  // The transition table, event kind by event kind.

  /** A click in `clickMode` replaces the selection with the clicked id, or toggles
      it when Ctrl is held; nothing else in the context changes. */
  lemma ClickModeClick(ctx: Context, id: int, ctrlKey: bool, items: seq<Candidate>, p: bool)
    ensures Step(State(ClickMode, ctx), Click(id, ctrlKey), items, p) ==
            State(ClickMode, ctx.(selectedDirectiveIds :=
              if ctrlKey then Toggle(ctx.selectedDirectiveIds, id) else [id]))
  {
  }

  /** `selectMode` always toggles; `shortcutMode` toggles only when the guard holds;
      `disabled` and both `dragMode` sub-states ignore clicks. */
  lemma ClickInOtherModes(s: State, id: int, ctrlKey: bool, items: seq<Candidate>, p: bool)
    requires s.mode != ClickMode
    ensures var t := Step(s, Click(id, ctrlKey), items, p);
      if s.mode == SelectMode || (s.mode == ShortcutMode && p)
      then t == State(s.mode, s.context.(selectedDirectiveIds := Toggle(s.context.selectedDirectiveIds, id)))
      else t == s
  {
  }

  /** Every mode command reaches its target from every state and keeps the whole
      context, the drag coordinates included. */
  lemma ModeTogglesKeepContext(s: State, e: Event, items: seq<Candidate>, p: bool)
    requires e.IsModeToggle()
    ensures Step(s, e, items, p) == State(ToggleTarget(e), s.context)
  {
  }

  /** `selectItems` and `clearAll` are handled at the root, so they work in every
      mode, `disabled` included, and only replace the selection. */
  lemma RootSelectionCommands(s: State, ids: seq<int>, items: seq<Candidate>, p: bool)
    ensures Step(s, SelectItems(ids), items, p) == State(s.mode, s.context.(selectedDirectiveIds := ids))
    ensures Step(s, ClearAll, items, p) == State(s.mode, s.context.(selectedDirectiveIds := []))
  {
  }

  /** `mousedown` in `dragMode.idle` starts dragging at the pointer; anywhere else the
      mouse events are ignored, except in `dragMode.dragging`. */
  lemma MouseDownStartsDrag(s: State, x: int, y: int, items: seq<Candidate>, p: bool)
    ensures var t := Step(s, MouseDown(x, y), items, p);
      if s.mode == DragMode(Idle)
      then t == State(DragMode(Dragging), s.context.(x1 := x, y1 := y))
      else t == s
  {
  }

  /** While dragging, `mousemove` moves the second corner and replaces the selection
      with the hit ids of the new area; the first corner and the mode are kept. */
  lemma MouseMoveMovesCorner(s: State, x: int, y: int, items: seq<Candidate>, p: bool)
    requires s.mode == DragMode(Dragging)
    ensures Step(s, MouseMove(x, y), items, p) ==
            State(DragMode(Dragging), s.context.(x2 := x, y2 := y,
              selectedDirectiveIds := HitIds(items, NormalizedArea(s.context.x1, s.context.y1, x, y))))
  {
  }

  /** The selection after such a `mousemove` is exactly the ids of the items the
      new area hits, in item order. */
  lemma MouseMoveSelectsHits(s: State, x: int, y: int, items: seq<Candidate>, p: bool)
    requires s.mode == DragMode(Dragging)
    ensures var ids := Step(s, MouseMove(x, y), items, p).context.selectedDirectiveIds;
      && IsSubsequence(ids, CandidateIds(items))
      && forall id :: id in ids <==> SomeItemHit(items, NormalizedArea(s.context.x1, s.context.y1, x, y), id)
  {
    var a := NormalizedArea(s.context.x1, s.context.y1, x, y);
    MouseMoveMovesCorner(s, x, y, items, p);
    HitIdsInItemOrder(items, a);
    forall id ensures id in HitIds(items, a) <==> SomeItemHit(items, a, id) {
      HitIdsExact(items, a, id);
    }
  }

  /** Releasing the mouse while dragging goes back to `idle`, zeroes the four
      coordinates and keeps the selection. */
  lemma MouseUpEndsDrag(s: State, x: int, y: int, items: seq<Candidate>, p: bool)
    requires s.mode == DragMode(Dragging)
    ensures Step(s, MouseUp(x, y), items, p) ==
            State(DragMode(Idle), s.context.(x1 := 0, y1 := 0, x2 := 0, y2 := 0))
  {
  }

  /** Outside `dragMode.dragging`, `mousemove` and `mouseup` change nothing. */
  lemma MouseIgnoredWhenNotDragging(s: State, x: int, y: int, items: seq<Candidate>, p: bool)
    requires s.mode != DragMode(Dragging)
    ensures Step(s, MouseMove(x, y), items, p) == s
    ensures Step(s, MouseUp(x, y), items, p) == s
  {
  }

  // ---------------------------------------------------------------------------
  // The selection invariant over runs of events.

  /** The selection lists no id twice and only ids of the container's items. */
  predicate WellFormed(ctx: Context, itemIds: seq<int>) {
    NoDuplicates(ctx.selectedDirectiveIds) &&
    forall x :: x in ctx.selectedDirectiveIds ==> x in itemIds
  }

  /** Events the container can send: clicks come from its items, and `selectItems`
      names distinct item ids. */
  predicate ValidEvent(e: Event, itemIds: seq<int>) {
    (e.Click? ==> e.directiveId in itemIds) &&
    (e.SelectItems? ==> NoDuplicates(e.directiveIds) && forall x :: x in e.directiveIds ==> x in itemIds)
  }

  lemma StepPreservesWellFormed(s: State, e: Event, items: seq<Candidate>, p: bool)
    requires NoDuplicates(CandidateIds(items))
    requires WellFormed(s.context, CandidateIds(items)) && ValidEvent(e, CandidateIds(items))
    ensures WellFormed(Step(s, e, items, p).context, CandidateIds(items))
  {
    var ids := s.context.selectedDirectiveIds;
    match e
    case Click(id, _) =>
      TogglePreservesNoDuplicates(ids, id);
    case MouseMove(x, y) =>
      HitIdsNoDuplicates(items, NormalizedArea(s.context.x1, s.context.y1, x, y));
    case _ =>
  }

  datatype Input = Input(event: Event, shortcutPressed: bool)

  /** The state after feeding the inputs one by one, the items staying the same. */
  function Run(s: State, inputs: seq<Input>, items: seq<Candidate>): State
    decreases |inputs|
  {
    if inputs == [] then s
    else Run(Step(s, inputs[0].event, items, inputs[0].shortcutPressed), inputs[1..], items)
  }

  /** From the initial state, every run of valid events keeps the selection a
      duplicate-free list of item ids. */
  lemma {:induction false} RunPreservesWellFormed(s: State, inputs: seq<Input>, items: seq<Candidate>)
    requires NoDuplicates(CandidateIds(items)) && WellFormed(s.context, CandidateIds(items))
    requires forall k | 0 <= k < |inputs| :: ValidEvent(inputs[k].event, CandidateIds(items))
    ensures WellFormed(Run(s, inputs, items).context, CandidateIds(items))
    decreases |inputs|
  {
    if inputs != [] {
      StepPreservesWellFormed(s, inputs[0].event, items, inputs[0].shortcutPressed);
      var rest := inputs[1..];
      assert forall k | 0 <= k < |rest| :: rest[k] == inputs[k + 1];
      RunPreservesWellFormed(Step(s, inputs[0].event, items, inputs[0].shortcutPressed), rest, items);
    }
  }

  lemma InitialWellFormed(itemIds: seq<int>)
    ensures WellFormed(Initial().context, itemIds)
  {
  }
}
