/**
 * `Base<T>` of src/observable_array.rs: a fixed-length buffer together with
 * one slot per observer handle. A live slot holds the ranges of the buffer
 * changed since that observer last took them; a released slot is empty
 * (None) and is reused by the next observer. The wake-up `Notify` of each
 * observer is not modelled.
 */
module ObservableArrays {
  import opened Wrappers
  import opened RangeArrays

  /** Every changed range lies inside a buffer of n elements. */
  ghost predicate InBuffer(c: seq<Range>, n: int)
  {
    forall x :: Covers(c, x) ==> 0 <= x < n
  }

  /** A slot after an update that marked r: still released, or its changes now also hold r. */
  ghost predicate Marked(before: Option<seq<Range>>, after: Option<seq<Range>>, r: Range)
  {
    || (before.None? && after.None?)
    || (before.Some? && after.Some? &&
        forall x :: Covers(after.value, x) <==> Covers(before.value, x) || Contains(r, x))
  }

  class Base<T> {
    /** The elements; the length never changes. */
    var elements: seq<T>
    /** `observers`: per slot, None once released, otherwise that observer's changed ranges. */
    var observers: seq<Option<seq<Range>>>

    ghost predicate Valid()
      reads this
    {
      forall i :: 0 <= i < |observers| && observers[i].Some? ==>
        Canonical(observers[i].value) && InBuffer(observers[i].value, |elements|)
    }

    /** `Base::new(size)`: `size` default elements and no observers. */
    constructor (size: nat, default: T)
      ensures Valid()
      ensures elements == seq(size, _ => default) && observers == []
    {
      elements := seq(size, _ => default);
      observers := [];
    }

    /**
     * `get_observer`: a new observer with no changes takes the lowest
     * released slot, or a new slot at the end when none is released.
     */
    method GetObserver() returns (index: nat)
      requires Valid()
      modifies this
      ensures Valid() && elements == old(elements)
      ensures index <= |old(observers)|
      ensures forall k :: 0 <= k < index && k < |old(observers)| ==> old(observers)[k].Some?
      ensures index < |old(observers)| ==> old(observers)[index].None? &&
                                           observers == old(observers)[index := Some([])]
      ensures index == |old(observers)| ==> observers == old(observers) + [Some([])]
      ensures index < |observers| && observers[index] == Some([])
    {
      var p := 0;
      while p < |observers| && observers[p].Some?
        invariant 0 <= p <= |observers|
        invariant forall k :: 0 <= k < p ==> observers[k].Some?
      {
        p := p + 1;
      }
      if p < |observers| {
        observers := observers[p := Some([])];
      } else {
        observers := observers + [Some([])];
      }
      index := p;
    }

    /** `release(index)`: empties that slot and no other. */
    method Release(index: nat)
      requires Valid() && index < |observers|
      modifies this
      ensures Valid() && elements == old(elements)
      ensures observers == old(observers)[index := None]
    {
      observers := observers[index := None];
    }

    /**
     * `update(start, data, exclude)`: overwrites `start..start + |data|` and
     * marks that range as changed for every live observer except `exclude`.
     */
    method Update(start: nat, data: seq<T>, exclude: nat)
      requires Valid() && start + |data| <= |elements|
      modifies this
      ensures Valid()
      ensures elements == old(elements)[..start] + data + old(elements)[start + |data|..]
      ensures |observers| == |old(observers)|
      ensures exclude < |observers| ==> observers[exclude] == old(observers)[exclude]
      ensures forall i :: 0 <= i < |observers| && i != exclude ==>
                Marked(old(observers)[i], observers[i], Range(start, start + |data|))
    {
      var r := Range(start, start + |data|);
      elements := elements[..start] + data + elements[start + |data|..];
      var i := 0;
      while i < |observers|
        invariant 0 <= i <= |observers| == |old(observers)|
        invariant elements == old(elements)[..start] + data + old(elements)[start + |data|..]
        invariant Valid()
        invariant forall k :: 0 <= k < i && k != exclude ==> Marked(old(observers)[k], observers[k], r)
        invariant forall k :: i <= k < |observers| || k == exclude ==>
                    0 <= k < |observers| ==> observers[k] == old(observers)[k]
      {
        if i != exclude && observers[i].Some? {
          var c := UnionInto(observers[i].value, r);
          assert InBuffer(c, |elements|) by {
            forall x | Covers(c, x)
              ensures 0 <= x < |elements|
            {
            }
          }
          observers := observers[i := Some(c)];
        }
        i := i + 1;
      }
    }

    /**
     * The `clear_into` step of `ObservableArray::updated`: hands over the
     * ranges changed since the last call and leaves the slot with none.
     */
    method TakeChanges(index: nat) returns (changes: seq<Range>)
      requires Valid() && index < |observers| && observers[index].Some?
      modifies this
      ensures Valid() && elements == old(elements)
      ensures changes == old(observers)[index].value && Canonical(changes)
      ensures observers == old(observers)[index := Some([])]
    {
      changes := observers[index].value;
      observers := observers[index := Some([])];
    }
  }
}
