/** The stream operators' pure parts: the function `createSelectBox` maps every
    drag state through, and the `distinctKeyEvents` filter on a finite stream. */
module Operators {
  import opened Wrappers
  import opened Sequences

  datatype MousePosition = MousePosition(x: int, y: int)

  /** `down` and `move` are optional in the source's `DragState`. */
  datatype DragState = DragState(state: string, down: Option<MousePosition>, move: Option<MousePosition>)

  datatype SelectBox = SelectBox(left: int, top: int, width: int, height: int, opacity: int)

  const DRAGGING_START: string := "DRAGGING_START"
  const DRAGGING_END: string := "DRAGGING_END"

  function Abs(n: int): (r: int)
    ensures r >= 0 && (r == n || r == -n)
  {
    if n < 0 then -n else n
  }

  /** The box for one drag state. `None` stands for the `TypeError` the mapping
      raises when it reads a coordinate of a position that is absent. */
  function CreateSelectBox(d: DragState): (r: Option<SelectBox>)
    ensures d.state == DRAGGING_END ==> r == Some(SelectBox(0, 0, 0, 0, 0))
    ensures d.state == DRAGGING_START ==>
      (r.Some? <==> d.down.Some?) &&
      (r.Some? ==> r.value == SelectBox(d.down.value.x, d.down.value.y, 0, 0, 0))
    ensures d.state != DRAGGING_START && d.state != DRAGGING_END ==>
      (r.Some? <==> d.down.Some? && d.move.Some?)
  {
    if d.state == DRAGGING_START then
      if d.down.None? then None
      else Some(SelectBox(d.down.value.x, d.down.value.y, 0, 0, 0))
    else if d.state == DRAGGING_END then
      Some(SelectBox(0, 0, 0, 0, 0))
    else if d.down.None? || d.move.None? then
      None
    else
      var down, move := d.down.value, d.move.value;
      var width := move.x - down.x;
      var height := move.y - down.y;
      Some(SelectBox(
        if width < 0 then move.x else down.x,
        if height < 0 then move.y else down.y,
        Abs(width), Abs(height), 1))
  }

  /** While dragging the box is visible and spans exactly from the smaller to the
      larger of the two x coordinates and of the two y coordinates. */
  lemma DraggingBoxSpansCorners(state: string, down: MousePosition, move: MousePosition)
    requires state != DRAGGING_START && state != DRAGGING_END
    ensures var r := CreateSelectBox(DragState(state, Some(down), Some(move)));
      && r.Some?
      && r.value.opacity == 1
      && r.value.width == Abs(move.x - down.x) >= 0
      && r.value.height == Abs(move.y - down.y) >= 0
      && r.value.left <= down.x && r.value.left <= move.x
      && (r.value.left == down.x || r.value.left == move.x)
      && r.value.top <= down.y && r.value.top <= move.y
      && (r.value.top == down.y || r.value.top == move.y)
      && r.value.left + r.value.width == (if down.x <= move.x then move.x else down.x)
      && r.value.top + r.value.height == (if down.y <= move.y then move.y else down.y)
  {
  }

  /** The box does not depend on which of the two corners is the origin. */
  lemma DraggingBoxSymmetric(state: string, down: MousePosition, move: MousePosition)
    requires state != DRAGGING_START && state != DRAGGING_END
    ensures CreateSelectBox(DragState(state, Some(down), Some(move))) ==
            CreateSelectBox(DragState(state, Some(move), Some(down)))
  {
  }

  // ---------------------------------------------------------------------------
  // distinctKeyEvents

  datatype KeyEvent = KeyEvent(keyCode: int, eventType: string)  // eventType is the DOM event's `type`

  /** The comparator handed to `distinctUntilChanged`. */
  predicate SameKey(prev: KeyEvent, curr: KeyEvent) {
    prev.keyCode == curr.keyCode && prev.eventType == curr.eventType
  }

  /** What `distinctUntilChanged` lets through after it last emitted `last`: an
      event is dropped when it compares equal to the last emitted one. */
  function DistinctFrom(last: KeyEvent, s: seq<KeyEvent>): seq<KeyEvent>
    decreases |s|
  {
    if s == [] then []
    else if SameKey(last, s[0]) then DistinctFrom(last, s[1..])
    else [s[0]] + DistinctFrom(s[0], s[1..])
  }

  /** `distinctKeyEvents()` applied to a finite stream of key events. */
  function DistinctKeyEvents(s: seq<KeyEvent>): (r: seq<KeyEvent>)
    ensures r == [] <==> s == []
    ensures s != [] ==> r[0] == s[0]
  {
    if s == [] then [] else [s[0]] + DistinctFrom(s[0], s[1..])
  }

  predicate NoAdjacentRepeats(s: seq<KeyEvent>) {
    forall i | 0 < i < |s| :: !SameKey(s[i - 1], s[i])
  }

  lemma {:induction false} DistinctFromInOrder(last: KeyEvent, s: seq<KeyEvent>)
    ensures IsSubsequence(DistinctFrom(last, s), s)
    decreases |s|
  {
    if s != [] {
      assert s == [s[0]] + s[1..];
      if SameKey(last, s[0]) {
        DistinctFromInOrder(last, s[1..]);
        SubsequenceCons(s[0], DistinctFrom(last, s[1..]), s[1..]);
      } else {
        DistinctFromInOrder(s[0], s[1..]);
      }
    }
  }

  lemma {:induction false} DistinctFromHead(last: KeyEvent, s: seq<KeyEvent>)
    requires DistinctFrom(last, s) != []
    ensures !SameKey(last, DistinctFrom(last, s)[0])
    decreases |s|
  {
    if SameKey(last, s[0]) {
      DistinctFromHead(last, s[1..]);
    }
  }

  lemma {:induction false} DistinctFromNoAdjacentRepeats(last: KeyEvent, s: seq<KeyEvent>)
    ensures NoAdjacentRepeats([last] + DistinctFrom(last, s))
    decreases |s|
  {
    if s != [] {
      if SameKey(last, s[0]) {
        DistinctFromNoAdjacentRepeats(last, s[1..]);
      } else {
        var tail := DistinctFrom(s[0], s[1..]);
        DistinctFromNoAdjacentRepeats(s[0], s[1..]);
        var t := [last] + ([s[0]] + tail);
        forall i | 0 < i < |t| ensures !SameKey(t[i - 1], t[i]) {
          if i > 1 {
            assert t[i - 1] == ([s[0]] + tail)[i - 2] && t[i] == ([s[0]] + tail)[i - 1];
          }
        }
      }
    }
  }

  /** Nothing is dropped from a stream that has no adjacent repeats. */
  lemma {:induction false} DistinctFromFixpoint(last: KeyEvent, s: seq<KeyEvent>)
    requires NoAdjacentRepeats([last] + s)
    ensures DistinctFrom(last, s) == s
    decreases |s|
  {
    if s != [] {
      assert ([last] + s)[0] == last && ([last] + s)[1] == s[0];
      assert !SameKey(last, s[0]);
      var t := [s[0]] + s[1..];
      assert t == s;
      forall i | 0 < i < |t| ensures !SameKey(t[i - 1], t[i]) {
        assert t[i - 1] == ([last] + s)[i] && t[i] == ([last] + s)[i + 1];
      }
      DistinctFromFixpoint(s[0], s[1..]);
    }
  }

  /** The output keeps the order of the input, starts with the first event and
      never has two neighbours with the same key code and type. */
  lemma DistinctKeyEventsSpec(s: seq<KeyEvent>)
    ensures IsSubsequence(DistinctKeyEvents(s), s)
    ensures NoAdjacentRepeats(DistinctKeyEvents(s))
  {
    if s != [] {
      DistinctFromInOrder(s[0], s[1..]);
      DistinctFromNoAdjacentRepeats(s[0], s[1..]);
    }
  }

  /** Only the equivalence class of the last emission matters. */
  lemma {:induction false} DistinctFromRespectsSameKey(a: KeyEvent, b: KeyEvent, s: seq<KeyEvent>)
    requires SameKey(a, b)
    ensures DistinctFrom(a, s) == DistinctFrom(b, s)
    decreases |s|
  {
    if s != [] && SameKey(a, s[0]) {
      DistinctFromRespectsSameKey(a, b, s[1..]);
    }
  }

  /** The reference filter, written over positions: among `s[i..]`, keep `s[k]`
      when it is the first event or differs from the event right before it. */
  function ChangedFrom(s: seq<KeyEvent>, i: nat): seq<KeyEvent>
    requires i <= |s|
    decreases |s| - i
  {
    if i == |s| then []
    else (if i == 0 || !SameKey(s[i - 1], s[i]) then [s[i]] else []) + ChangedFrom(s, i + 1)
  }

  lemma {:induction false} ChangedFromIsDistinctFrom(s: seq<KeyEvent>, i: nat)
    requires 0 < i <= |s|
    ensures ChangedFrom(s, i) == DistinctFrom(s[i - 1], s[i..])
    decreases |s| - i
  {
    if i < |s| {
      ChangedFromIsDistinctFrom(s, i + 1);
      assert s[i..][0] == s[i] && s[i..][1..] == s[i + 1..];
      if SameKey(s[i - 1], s[i]) {
        DistinctFromRespectsSameKey(s[i], s[i - 1], s[i + 1..]);
      }
    }
  }

  /** `distinctKeyEvents` keeps exactly the first event and every event whose key
      code or type differs from the event right before it in the input. */
  lemma DistinctKeyEventsKeepsChanges(s: seq<KeyEvent>)
    ensures DistinctKeyEvents(s) == ChangedFrom(s, 0)
  {
    if s != [] {
      if |s| == 1 {
        assert s[1..] == [];
      } else {
        ChangedFromIsDistinctFrom(s, 1);
      }
    }
  }

  /** De-duplicating twice is de-duplicating once. */
  lemma DistinctKeyEventsIdempotent(s: seq<KeyEvent>)
    ensures DistinctKeyEvents(DistinctKeyEvents(s)) == DistinctKeyEvents(s)
  {
    var r := DistinctKeyEvents(s);
    if s != [] {
      DistinctKeyEventsSpec(s);
      assert r == [r[0]] + r[1..];
      DistinctFromFixpoint(r[0], r[1..]);
    }
  }
}
