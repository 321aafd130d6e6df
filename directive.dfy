/** The `dtsSelectItem` directive: an item with an id drawn from a process-wide
    counter, a `selected` flag, a `rangeStart` flag, a lazily filled bounding-box
    cache and the value it stands for in the container's output. */
module Directive {
  import opened Wrappers
  import opened Geometry

  /** The JavaScript values the `dtsSelectItem` input can be bound to, as far as
      their truthiness goes (`NaN` and fractional numbers are not modelled). */
  datatype JsValue = Undefined | Null | Bool(b: bool) | Num(n: int) | Str(s: string) | Obj(handle: nat)

  predicate Truthy(v: JsValue) {
    match v
    case Undefined => false
    case Null => false
    case Bool(b) => b
    case Num(n) => n != 0
    case Str(s) => s != ""
    case Obj(_) => true
  }

  /** The module-level `DIRECTIVE_ID` counter, held in one shared object.
      `issued` records the ids handed out so far. */
  class IdCounter {
    var next: nat
    ghost var issued: set<nat>

    ghost predicate Valid()
      reads this
    {
      forall i :: i in issued ==> i < next
    }

    constructor ()
      ensures Valid() && next == 0 && issued == {}
    {
      next := 0;
      issued := {};
    }
  }

  /** What the item contributes to the `selectedItemsChange` list: the bound value,
      or the directive instance itself. */
  datatype ItemValue = Given(input: JsValue) | Itself(item: SelectItem)

  class SelectItem {
    const id: nat
    var selected: bool
    var rangeStart: bool
    var dtsSelectItem: JsValue
    var boundingClientRect: Option<BoundingBox>

    /** `this.id = DIRECTIVE_ID++`: the item takes the counter's current value, which
        no earlier item has, and the counter moves on by one. */
    constructor (counter: IdCounter)
      requires counter.Valid()
      modifies counter
      ensures id == old(counter.next) && counter.next == old(counter.next) + 1
      ensures id !in old(counter.issued) && forall i :: i in old(counter.issued) ==> i < id
      ensures counter.issued == old(counter.issued) + {id} && counter.Valid()
      ensures !selected && !rangeStart && dtsSelectItem == Undefined && boundingClientRect == None
    {
      id := counter.next;
      selected := false;
      rangeStart := false;
      dtsSelectItem := Undefined;
      boundingClientRect := None;
      counter.next := counter.next + 1;
      counter.issued := counter.issued + {counter.next - 1};
    }

    /** The `value` getter. */
    function Value(): (v: ItemValue)
      reads this
      ensures v.Given? <==> Truthy(dtsSelectItem)
      ensures v.Given? ==> v.input == dtsSelectItem
      ensures v.Itself? ==> v.item == this
    {
      if Truthy(dtsSelectItem) then Given(dtsSelectItem) else Itself(this)
    }

    method ToggleRangeStart()
      modifies this`rangeStart
      ensures rangeStart == !old(rangeStart)
    {
      rangeStart := !rangeStart;
    }

    /** `calculateBoundingClientRect`: `measured` is what the DOM reports for the
        host element now; it always replaces the cache and is returned. */
    method CalculateBoundingClientRect(measured: BoundingBox) returns (r: BoundingBox)
      modifies this`boundingClientRect
      ensures r == measured && boundingClientRect == Some(measured)
    {
      boundingClientRect := Some(measured);
      r := measured;
    }

    /** `getBoundingClientRect`: measures only in a browser and only when nothing
        is cached; otherwise returns the cache, which may be empty. */
    method GetBoundingClientRect(isBrowser: bool, measured: BoundingBox) returns (r: Option<BoundingBox>)
      modifies this`boundingClientRect
      ensures if isBrowser && old(boundingClientRect).None?
              then boundingClientRect == Some(measured)
              else boundingClientRect == old(boundingClientRect)
      ensures r == boundingClientRect
    {
      if isBrowser && boundingClientRect.None? {
        var _ := CalculateBoundingClientRect(measured);
      }
      r := boundingClientRect;
    }

    /** `_select`. */
    method Select()
      modifies this`selected
      ensures selected
    {
      selected := true;
    }

    /** `_deselect`. */
    method Deselect()
      modifies this`selected
      ensures !selected
    {
      selected := false;
    }
  }
}
