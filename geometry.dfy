/** The pure geometry the select container supplies to the machine: the select
    area normalised from the two drag corners, and the inclusive overlap hit test
    that turns the item list into the new list of selected ids. */
module Geometry {
  import opened Sequences

  /** An element's client rectangle as the DOM reports it. */
  datatype BoundingBox = BoundingBox(left: int, top: int, right: int, bottom: int)

  /** The select area: (x1, y1) is the top-left and (x2, y2) the bottom-right corner. */
  datatype Area = Area(x1: int, y1: int, x2: int, y2: int)

  /** What the hit test needs of an item: its id and its element's current rectangle. */
  datatype Candidate = Candidate(id: int, box: BoundingBox)

  function Min(a: int, b: int): int { if a <= b then a else b }
  function Max(a: int, b: int): int { if a <= b then b else a }

  /** The select area of the two drag corners (x1, y1) and (x2, y2). */
  function NormalizedArea(x1: int, y1: int, x2: int, y2: int): (a: Area)
    ensures a.x1 <= a.x2 && a.y1 <= a.y2
    ensures a.x1 <= x1 && a.x1 <= x2 && (a.x1 == x1 || a.x1 == x2)
    ensures a.x2 >= x1 && a.x2 >= x2 && (a.x2 == x1 || a.x2 == x2)
    ensures a.y1 <= y1 && a.y1 <= y2 && (a.y1 == y1 || a.y1 == y2)
    ensures a.y2 >= y1 && a.y2 >= y2 && (a.y2 == y1 || a.y2 == y2)
  {
    Area(Min(x1, x2), Min(y1, y2), Max(x1, x2), Max(y1, y2))
  }

  /** The area does not depend on the direction of the drag. */
  lemma NormalizedAreaSymmetric(x1: int, y1: int, x2: int, y2: int)
    ensures NormalizedArea(x1, y1, x2, y2) == NormalizedArea(x2, y2, x1, y1)
    ensures NormalizedArea(x1, y1, x2, y2) == NormalizedArea(x2, y1, x1, y2)
  {
  }

  /** The container's `isInSelectArea` test, bounds inclusive. */
  predicate IsInSelectArea(a: Area, b: BoundingBox) {
    a.x1 <= b.right && a.x2 >= b.left && a.y1 <= b.bottom && a.y2 >= b.top
  }

  predicate AreaContains(a: Area, px: int, py: int) {
    a.x1 <= px <= a.x2 && a.y1 <= py <= a.y2
  }

  predicate BoxContains(b: BoundingBox, px: int, py: int) {
    b.left <= px <= b.right && b.top <= py <= b.bottom
  }

  /** For proper rectangles the hit test says exactly that the area and the box
      share a point; degenerate (zero-width or zero-height) ones included. */
  lemma HitIffCommonPoint(a: Area, b: BoundingBox)
    requires a.x1 <= a.x2 && a.y1 <= a.y2
    requires b.left <= b.right && b.top <= b.bottom
    ensures IsInSelectArea(a, b) <==> exists px, py :: AreaContains(a, px, py) && BoxContains(b, px, py)
  {
    if IsInSelectArea(a, b) {
      var px, py := Max(a.x1, b.left), Max(a.y1, b.top);
      assert AreaContains(a, px, py) && BoxContains(b, px, py);
    }
  }

  function CandidateIds(items: seq<Candidate>): (ids: seq<int>)
    ensures |ids| == |items|
    ensures forall i | 0 <= i < |items| :: ids[i] == items[i].id
  {
    if items == [] then [] else [items[0].id] + CandidateIds(items[1..])
  }

  /** `items.filter(isInSelectArea).map(item => item.id)`. */
  function HitIds(items: seq<Candidate>, a: Area): seq<int>
  {
    if items == [] then []
    else (if IsInSelectArea(a, items[0].box) then [items[0].id] else []) + HitIds(items[1..], a)
  }

  /** Some item with id `x` is hit by the area. */
  predicate SomeItemHit(items: seq<Candidate>, a: Area, x: int) {
    exists i :: 0 <= i < |items| && items[i].id == x && IsInSelectArea(a, items[i].box)
  }

  /** An id is selected by the drag exactly when some item with that id is hit. */
  lemma {:induction false} HitIdsExact(items: seq<Candidate>, a: Area, x: int)
    ensures x in HitIds(items, a) <==> SomeItemHit(items, a, x)
  {
    if items != [] {
      HitIdsExact(items[1..], a, x);
      if x in HitIds(items[1..], a) {
        var i :| 0 <= i < |items[1..]| && items[1..][i].id == x && IsInSelectArea(a, items[1..][i].box);
        assert items[i + 1] == items[1..][i];
      }
      if exists i :: 0 <= i < |items| && items[i].id == x && IsInSelectArea(a, items[i].box) {
        var i :| 0 <= i < |items| && items[i].id == x && IsInSelectArea(a, items[i].box);
        if i > 0 {
          assert items[1..][i - 1] == items[i];
        }
      }
    }
  }

  /** The hit ids keep item order: they are a subsequence of all item ids. */
  lemma {:induction false} HitIdsInItemOrder(items: seq<Candidate>, a: Area)
    ensures IsSubsequence(HitIds(items, a), CandidateIds(items))
  {
    if items != [] {
      HitIdsInItemOrder(items[1..], a);
      var ids := CandidateIds(items);
      assert ids == [items[0].id] + CandidateIds(items[1..]);
      if !IsInSelectArea(a, items[0].box) {
        assert HitIds(items, a) == HitIds(items[1..], a);
        SubsequenceCons(items[0].id, HitIds(items[1..], a), CandidateIds(items[1..]));
      } else {
        assert HitIds(items, a) == [items[0].id] + HitIds(items[1..], a);
      }
    }
  }

  /** The hit test is applied item by item: hitting a concatenation is concatenating the hits. */
  lemma {:induction false} HitIdsAppend(xs: seq<Candidate>, ys: seq<Candidate>, a: Area)
    ensures HitIds(xs + ys, a) == HitIds(xs, a) + HitIds(ys, a)
  {
    if xs != [] {
      assert (xs + ys)[1..] == xs[1..] + ys;
      HitIdsAppend(xs[1..], ys, a);
    } else {
      assert xs + ys == ys;
    }
  }

  /** Distinct item ids give a duplicate-free selection. */
  lemma HitIdsNoDuplicates(items: seq<Candidate>, a: Area)
    requires NoDuplicates(CandidateIds(items))
    ensures NoDuplicates(HitIds(items, a))
  {
    HitIdsInItemOrder(items, a);
    SubsequenceNoDuplicates(HitIds(items, a), CandidateIds(items));
  }

  /** Every hit id is the id of some item. */
  lemma HitIdsAreItemIds(items: seq<Candidate>, a: Area)
    ensures forall x :: x in HitIds(items, a) ==> x in CandidateIds(items)
  {
    HitIdsInItemOrder(items, a);
    SubsequenceMembers(HitIds(items, a), CandidateIds(items));
  }
}
