/**
 * `Tags` of src/tags.rs: the four 65536-element Modbus areas of one device,
 * each an observable buffer, filled at start-up with the initial values of
 * the configured tags. Every area is created with one observer, the `Tags`
 * handle itself (slot 0), which is excluded from its own updates.
 */
module TagStores {
  import opened Wrappers
  import opened Numbers
  import opened TagLists
  import opened RegisterValue
  import opened ObservableArrays

  /** Every Modbus area has one element per 16-bit address. */
  const AreaSize: nat := 0x1_0000

  /**
   * The floating-point library of `parse`, taken as given: what it makes
   * of the text of a register's initial value.
   */
  type FloatLibrary = (RegisterRange, string) -> FloatReading

  ghost predicate ValidLibrary(floats: FloatLibrary)
  {
    forall regs, text :: ValidReading(floats(regs, text))
  }

  /** The register fits its area at its group base, and its value can be encoded. */
  predicate Encodable(p: Placed<RegisterRange>)
  {
    RegisterFits(p) && (p.tag.initialValue.Some? ==> WellSized(p.tag))
  }

  predicate AllEncodable(placed: seq<Placed<RegisterRange>>)
  {
    forall i :: 0 <= i < |placed| ==> Encodable(placed[i])
  }

  predicate AllBitsFit(placed: seq<Placed<Bit>>)
  {
    forall i :: 0 <= i < |placed| ==> BitFits(placed[i])
  }

  /** The start-up arithmetic of `Tags::new` on this configuration stays within `u16`. */
  predicate Initialisable(init: TagDefList)
  {
    && AddressesFit(init)
    && AllEncodable(TagIter(init.holdingRegisters, 0))
    && AllEncodable(TagIter(init.inputRegisters, 0))
  }

  /** `data` written over `a` from position `at` on. */
  function Overwrite<T>(a: seq<T>, at: nat, data: seq<T>): (r: seq<T>)
    requires at + |data| <= |a|
    ensures |r| == |a|
    ensures forall x :: 0 <= x < |a| ==> r[x] == if at <= x < at + |data| then data[x - at] else a[x]
  {
    a[..at] + data + a[at + |data|..]
  }

  /** The address a placed register's value is written at. */
  function RegisterStart(p: Placed<RegisterRange>): int
  {
    p.tag.addressLow + p.base
  }

  /**
   * The words written for a placed register: none without an initial
   * value or when it does not parse (the failure is only logged),
   * otherwise exactly one word per register of the range.
   */
  function Encoded(p: Placed<RegisterRange>, floats: FloatLibrary): (r: Option<seq<Word>>)
    requires Encodable(p) && ValidLibrary(floats)
    ensures r.Some? <==> p.tag.initialValue.Some? &&
                         ParseSpec(p.tag, p.tag.initialValue.value, floats(p.tag, p.tag.initialValue.value)).Ok?
    ensures r.Some? ==> r.value == ParseSpec(p.tag, p.tag.initialValue.value, floats(p.tag, p.tag.initialValue.value)).value
    ensures r.Some? ==> |r.value| == WordCount(p.tag) && RegisterStart(p) + |r.value| <= AreaSize
  {
    match p.tag.initialValue
    case None => None
    case Some(text) =>
      match ParseSpec(p.tag, text, floats(p.tag, text))
      case Ok(v) => Some(v)
      case Err(_) => None
  }

  /** The register loop of `Tags::new`: each register in turn writes its encoded value, if any. */
  function InitialRegisters(a: seq<Word>, placed: seq<Placed<RegisterRange>>, floats: FloatLibrary): (r: seq<Word>)
    requires |a| == AreaSize && ValidLibrary(floats)
    requires AllEncodable(placed)
    ensures |r| == AreaSize
    decreases |placed|
  {
    if placed == [] then a
    else
      var before := InitialRegisters(a, placed[..|placed| - 1], floats);
      var p := placed[|placed| - 1];
      match Encoded(p, floats)
      case None => before
      case Some(v) => Overwrite(before, RegisterStart(p), v)
  }

  /** The bit loop of `Tags::new`: each bit in turn writes its initial value, or false. */
  function InitialBits(a: seq<bool>, placed: seq<Placed<Bit>>): (r: seq<bool>)
    requires |a| == AreaSize
    requires AllBitsFit(placed)
    ensures |r| == AreaSize
    decreases |placed|
  {
    if placed == [] then a
    else
      var before := InitialBits(a, placed[..|placed| - 1]);
      var p := placed[|placed| - 1];
      Overwrite(before, p.tag.address + p.base, [match p.tag.initialValue case Some(b) => b case None => false])
  }

  // ---------------------------------------------------------------------------
  // What the initial contents are

  /** The register at position j writes address x, or a later one does. */
  ghost predicate WritesAt(placed: seq<Placed<RegisterRange>>, j: int, x: int, floats: FloatLibrary)
    requires 0 <= j < |placed| && ValidLibrary(floats)
    requires AllEncodable(placed)
  {
    var e := Encoded(placed[j], floats);
    e.Some? && RegisterStart(placed[j]) <= x < RegisterStart(placed[j]) + |e.value|
  }

  /** An address that no encoded register writes keeps its value. */
  lemma {:induction false} RegisterUntouched(a: seq<Word>, placed: seq<Placed<RegisterRange>>,
                                            floats: FloatLibrary, x: int)
    requires |a| == AreaSize && ValidLibrary(floats)
    requires AllEncodable(placed)
    requires 0 <= x < AreaSize
    requires forall j :: 0 <= j < |placed| ==> !WritesAt(placed, j, x, floats)
    ensures InitialRegisters(a, placed, floats)[x] == a[x]
    decreases |placed|
  {
    if placed != [] {
      var init := placed[..|placed| - 1];
      forall j | 0 <= j < |init|
        ensures !WritesAt(init, j, x, floats)
      {
        assert init[j] == placed[j];
        assert !WritesAt(placed, j, x, floats);
      }
      RegisterUntouched(a, init, floats, x);
      assert !WritesAt(placed, |placed| - 1, x, floats);
    }
  }

  /**
   * A register whose initial value parses holds its words at
   * `address_low + base`, unless a later register writes over them.
   */
  lemma {:induction false} RegisterWritten(a: seq<Word>, placed: seq<Placed<RegisterRange>>,
                                          floats: FloatLibrary, j: nat, x: int)
    requires |a| == AreaSize && ValidLibrary(floats)
    requires AllEncodable(placed)
    requires j < |placed| && WritesAt(placed, j, x, floats)
    requires forall k :: j < k < |placed| ==> !WritesAt(placed, k, x, floats)
    ensures InitialRegisters(a, placed, floats)[x] ==
            Encoded(placed[j], floats).value[x - RegisterStart(placed[j])]
    decreases |placed|
  {
    var init := placed[..|placed| - 1];
    if j < |placed| - 1 {
      WritesAtPrefix(placed, j, x, floats);
      LaterSkipInPrefix(placed, init, j, x, floats);
      RegisterWritten(a, init, floats, j, x);
      WritesAtInArea(placed, j, x, floats);
      EarlierRegisterWrites(a, placed, init, floats, x, Encoded(placed[j], floats).value[x - RegisterStart(placed[j])]);
    } else {
      LastRegisterWrites(a, placed, floats, j, x);
    }
  }

  /** What the registers before the last one left at x survives the last one, which does not write x. */
  lemma EarlierRegisterWrites(a: seq<Word>, placed: seq<Placed<RegisterRange>>, init: seq<Placed<RegisterRange>>,
                              floats: FloatLibrary, x: int, w: Word)
    requires |a| == AreaSize && ValidLibrary(floats)
    requires AllEncodable(placed) && placed != [] && init == placed[..|placed| - 1] && AllEncodable(init)
    requires 0 <= x < AreaSize && !WritesAt(placed, |placed| - 1, x, floats)
    requires InitialRegisters(a, init, floats)[x] == w
    ensures InitialRegisters(a, placed, floats)[x] == w
  {
    LastRegisterSkips(a, placed, floats, x);
  }

  /** Every address a register writes lies in the area. */
  lemma WritesAtInArea(placed: seq<Placed<RegisterRange>>, j: nat, x: int, floats: FloatLibrary)
    requires ValidLibrary(floats) && AllEncodable(placed) && j < |placed|
    requires WritesAt(placed, j, x, floats)
    ensures 0 <= x < AreaSize
  {
  }

  /** Dropping the last register changes nothing about what the others write. */
  lemma WritesAtPrefix(placed: seq<Placed<RegisterRange>>, k: nat, x: int, floats: FloatLibrary)
    requires ValidLibrary(floats) && AllEncodable(placed) && k < |placed| - 1
    ensures AllEncodable(placed[..|placed| - 1])
    ensures placed[..|placed| - 1][k] == placed[k]
    ensures WritesAt(placed[..|placed| - 1], k, x, floats) == WritesAt(placed, k, x, floats)
  {
  }

  /** Registers after j that do not write x do not write it in the list without its last register either. */
  lemma LaterSkipInPrefix(placed: seq<Placed<RegisterRange>>, init: seq<Placed<RegisterRange>>,
                          j: nat, x: int, floats: FloatLibrary)
    requires ValidLibrary(floats) && AllEncodable(placed) && j < |placed| - 1
    requires init == placed[..|placed| - 1]
    requires forall k :: j < k < |placed| ==> !WritesAt(placed, k, x, floats)
    ensures AllEncodable(init)
    ensures forall k :: j < k < |init| ==> !WritesAt(init, k, x, floats)
  {
    forall k | j < k < |init|
      ensures !WritesAt(init, k, x, floats)
    {
      WritesAtPrefix(placed, k, x, floats);
    }
  }

  /** The last register of the loop decides the addresses it writes. */
  lemma LastRegisterWrites(a: seq<Word>, placed: seq<Placed<RegisterRange>>, floats: FloatLibrary, j: nat, x: int)
    requires |a| == AreaSize && ValidLibrary(floats)
    requires AllEncodable(placed) && j == |placed| - 1 && WritesAt(placed, j, x, floats)
    ensures InitialRegisters(a, placed, floats)[x] == Encoded(placed[j], floats).value[x - RegisterStart(placed[j])]
  {
    var p := placed[j];
    var before := InitialRegisters(a, placed[..|placed| - 1], floats);
    assert InitialRegisters(a, placed, floats) == Overwrite(before, RegisterStart(p), Encoded(p, floats).value);
  }

  /** An address the last register does not write keeps what the registers before it left. */
  lemma LastRegisterSkips(a: seq<Word>, placed: seq<Placed<RegisterRange>>, floats: FloatLibrary, x: int)
    requires |a| == AreaSize && ValidLibrary(floats)
    requires AllEncodable(placed) && placed != [] && 0 <= x < AreaSize
    requires !WritesAt(placed, |placed| - 1, x, floats)
    ensures InitialRegisters(a, placed, floats)[x] == InitialRegisters(a, placed[..|placed| - 1], floats)[x]
  {
    var p := placed[|placed| - 1];
    var before := InitialRegisters(a, placed[..|placed| - 1], floats);
    match Encoded(p, floats)
    case None =>
      assert InitialRegisters(a, placed, floats) == before;
    case Some(v) =>
      assert InitialRegisters(a, placed, floats) == Overwrite(before, RegisterStart(p), v);
  }


  /** An address that no configured bit sits at keeps its value. */
  lemma {:induction false} BitUntouched(a: seq<bool>, placed: seq<Placed<Bit>>, x: int)
    requires |a| == AreaSize
    requires AllBitsFit(placed)
    requires 0 <= x < AreaSize
    requires forall j :: 0 <= j < |placed| ==> placed[j].tag.address + placed[j].base != x
    ensures InitialBits(a, placed)[x] == a[x]
    decreases |placed|
  {
    if placed != [] {
      var init := placed[..|placed| - 1];
      assert forall j :: 0 <= j < |init| ==> init[j] == placed[j];
      BitUntouched(a, init, x);
    }
  }

  /** Every configured bit holds its initial value, or false, unless a later bit shares its address. */
  lemma {:induction false} BitWritten(a: seq<bool>, placed: seq<Placed<Bit>>, j: nat)
    requires |a| == AreaSize
    requires AllBitsFit(placed)
    requires j < |placed|
    requires forall k :: j < k < |placed| ==>
               placed[k].tag.address + placed[k].base != placed[j].tag.address + placed[j].base
    ensures InitialBits(a, placed)[placed[j].tag.address + placed[j].base] ==
            match placed[j].tag.initialValue case Some(b) => b case None => false
    decreases |placed|
  {
    var init := placed[..|placed| - 1];
    if j < |placed| - 1 {
      assert forall k :: 0 <= k < |init| ==> init[k] == placed[k];
      BitWritten(a, init, j);
    }
  }

  // ---------------------------------------------------------------------------
  // The loops

  /** One register loop of `Tags::new`, writing through the `Tags` handle's own slot. */
  method WriteRegisters(area: Base<Word>, self: nat, placed: seq<Placed<RegisterRange>>, floats: FloatLibrary)
    requires area.Valid() && |area.elements| == AreaSize && area.observers == [Some([])] && self == 0
    requires ValidLibrary(floats)
    requires AllEncodable(placed)
    modifies area
    ensures area.Valid() && area.observers == old(area.observers)
    ensures area.elements == InitialRegisters(old(area.elements), placed, floats)
  {
    for i := 0 to |placed|
      invariant area.Valid() && area.observers == [Some([])]
      invariant area.elements == InitialRegisters(old(area.elements), placed[..i], floats)
    {
      var p := placed[i];
      assert placed[..i + 1][..i] == placed[..i];
      if p.tag.initialValue.Some? {
        var text := p.tag.initialValue.value;
        var r := Parse(p.tag, text, floats(p.tag, text));
        if r.Ok? {
          area.Update(RegisterStart(p), r.value, self);
        }
      }
    }
    assert placed[..|placed|] == placed;
  }

  /** One bit loop of `Tags::new`. */
  method WriteBits(area: Base<bool>, self: nat, placed: seq<Placed<Bit>>)
    requires area.Valid() && |area.elements| == AreaSize && area.observers == [Some([])] && self == 0
    requires AllBitsFit(placed)
    modifies area
    ensures area.Valid() && area.observers == old(area.observers)
    ensures area.elements == InitialBits(old(area.elements), placed)
  {
    for i := 0 to |placed|
      invariant area.Valid() && area.observers == [Some([])]
      invariant area.elements == InitialBits(old(area.elements), placed[..i])
    {
      var p := placed[i];
      assert placed[..i + 1][..i] == placed[..i];
      var value := match p.tag.initialValue case Some(b) => b case None => false;
      area.Update(p.tag.address + p.base, [value], self);
    }
    assert placed[..|placed|] == placed;
  }

  /**
   * `ObservableArray::new(65536)` for a register area, whose own handle
   * takes slot 0, followed by that area's register loop.
   */
  method NewRegisterArea(placed: seq<Placed<RegisterRange>>, floats: FloatLibrary) returns (area: Base<Word>)
    requires ValidLibrary(floats) && AllEncodable(placed)
    ensures fresh(area) && area.Valid() && area.observers == [Some([])]
    ensures area.elements == InitialRegisters(ZeroedRegisters, placed, floats)
  {
    area := new Base<Word>(AreaSize, 0);
    var self := area.GetObserver();
    ghost var zeros := area.elements;
    assert zeros == ZeroedRegisters;
    WriteRegisters(area, self, placed, floats);
  }

  /** `ObservableArray::new(65536)` for a bit area, followed by that area's bit loop. */
  method NewBitArea(placed: seq<Placed<Bit>>) returns (area: Base<bool>)
    requires AllBitsFit(placed)
    ensures fresh(area) && area.Valid() && area.observers == [Some([])]
    ensures area.elements == InitialBits(ClearedBits, placed)
  {
    area := new Base<bool>(AreaSize, false);
    var self := area.GetObserver();
    ghost var falses := area.elements;
    assert falses == ClearedBits;
    WriteBits(area, self, placed);
  }

  /** A register area as created: every register zero. */
  const ZeroedRegisters: seq<Word> := seq(AreaSize, _ => 0)

  /** A bit area as created: every bit clear. */
  const ClearedBits: seq<bool> := seq(AreaSize, _ => false)

  class Tags {
    const holdingRegisters: Base<Word>
    const inputRegisters: Base<Word>
    const discreteInputs: Base<bool>
    const coils: Base<bool>

    ghost predicate Valid()
      reads this, holdingRegisters, inputRegisters, discreteInputs, coils
    {
      && holdingRegisters != inputRegisters && discreteInputs != coils
      && holdingRegisters.Valid() && inputRegisters.Valid() && discreteInputs.Valid() && coils.Valid()
      && |holdingRegisters.elements| == |inputRegisters.elements| == AreaSize
      && |discreteInputs.elements| == |coils.elements| == AreaSize
    }

    /**
     * The areas hold the initial values of init on zeroed areas, and each
     * has only the `Tags` handle's own observer, with nothing changed.
     */
    ghost predicate Initialised(init: TagDefList, floats: FloatLibrary)
      reads this, holdingRegisters, inputRegisters, discreteInputs, coils
      requires Initialisable(init) && ValidLibrary(floats)
    {
      && holdingRegisters.elements ==
         InitialRegisters(ZeroedRegisters, TagIter(init.holdingRegisters, 0), floats)
      && inputRegisters.elements ==
         InitialRegisters(ZeroedRegisters, TagIter(init.inputRegisters, 0), floats)
      && coils.elements == InitialBits(ClearedBits, TagIter(init.coils, 0))
      && discreteInputs.elements == InitialBits(ClearedBits, TagIter(init.discreteInputs, 0))
      && holdingRegisters.observers == inputRegisters.observers == [Some([])]
      && discreteInputs.observers == coils.observers == [Some([])]
    }

    /**
     * `Tags::new`: four zeroed areas of 65536 elements, then every register
     * initial value that parses and every bit written in configuration order.
     */
    constructor (init: TagDefList, floats: FloatLibrary)
      requires Initialisable(init) && ValidLibrary(floats)
      ensures Valid()
      ensures fresh(holdingRegisters) && fresh(inputRegisters) && fresh(discreteInputs) && fresh(coils)
      ensures Initialised(init, floats)
    {
      var hr := NewRegisterArea(TagIter(init.holdingRegisters, 0), floats);
      var ir := NewRegisterArea(TagIter(init.inputRegisters, 0), floats);
      var co := NewBitArea(TagIter(init.coils, 0));
      var di := NewBitArea(TagIter(init.discreteInputs, 0));
      holdingRegisters, inputRegisters, discreteInputs, coils := hr, ir, di, co;
    }
  }
}
