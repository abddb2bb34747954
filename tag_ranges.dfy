/**
 * `TagRanges` of src/tag_ranges.rs: for each of the four Modbus areas, the
 * canonical set of addresses that some configured tag occupies; the client
 * polls exactly these addresses.
 */
module TagRangeSets {
  import opened RangeArrays
  import opened TagLists

  /** Some configured register of regs occupies address x. */
  ghost predicate RegisterAt(regs: seq<RegisterRange>, n: int, x: int)
  {
    exists i :: 0 <= i < n && i < |regs| && regs[i].addressLow <= x <= regs[i].addressHigh
  }

  /** Some configured bit of bits sits at address x. */
  ghost predicate BitAt(bits: seq<Bit>, n: int, x: int)
  {
    exists i :: 0 <= i < n && i < |bits| && bits[i].address == x
  }

  /** `address_high + 1` and `address + 1` stay within `u16`. */
  predicate NoOverflow(list: TagList)
  {
    && (forall r | r in list.inputRegisters :: r.addressHigh < 0xFFFF)
    && (forall r | r in list.holdingRegisters :: r.addressHigh < 0xFFFF)
    && (forall b | b in list.discreteInputs :: b.address < 0xFFFF)
    && (forall b | b in list.coils :: b.address < 0xFFFF)
  }

  class TagRanges {
    var holdingRegisters: seq<Range>
    var inputRegisters: seq<Range>
    var discreteInputs: seq<Range>
    var coils: seq<Range>

    ghost predicate Valid()
      reads this
    {
      Canonical(holdingRegisters) && Canonical(inputRegisters) && Canonical(discreteInputs) && Canonical(coils)
    }

    /** Each area's set covers exactly the addresses of that area's tags in list. */
    ghost predicate Covering(list: TagList)
      reads this
    {
      && (forall x :: Covers(inputRegisters, x) <==> RegisterAt(list.inputRegisters, |list.inputRegisters|, x))
      && (forall x :: Covers(holdingRegisters, x) <==> RegisterAt(list.holdingRegisters, |list.holdingRegisters|, x))
      && (forall x :: Covers(discreteInputs, x) <==> BitAt(list.discreteInputs, |list.discreteInputs|, x))
      && (forall x :: Covers(coils, x) <==> BitAt(list.coils, |list.coils|, x))
    }

    /** `TagRanges::new` (and `Default`): all four sets empty. */
    constructor ()
      ensures Valid()
      ensures holdingRegisters == [] && inputRegisters == [] && discreteInputs == [] && coils == []
    {
      holdingRegisters, inputRegisters, discreteInputs, coils := [], [], [], [];
    }

    /**
     * `From<&TagList>`: each area's set covers exactly the addresses of that
     * area's tags, a register range `address_low..=address_high` and a bit
     * its one address.
     */
    constructor FromTagList(list: TagList)
      requires NoOverflow(list)
      ensures Valid()
      ensures Covering(list)
    {
      var ir := CoverRegisters(list.inputRegisters);
      var hr := CoverRegisters(list.holdingRegisters);
      var di := CoverBits(list.discreteInputs);
      var co := CoverBits(list.coils);
      holdingRegisters, inputRegisters, discreteInputs, coils := hr, ir, di, co;
    }
  }

  /** The loop over one register area: union of `address_low..address_high + 1` for each register. */
  method CoverRegisters(regs: seq<RegisterRange>) returns (s: seq<Range>)
    requires forall r | r in regs :: r.addressHigh < 0xFFFF
    ensures Canonical(s)
    ensures forall x :: Covers(s, x) <==> RegisterAt(regs, |regs|, x)
  {
    s := [];
    for i := 0 to |regs|
      invariant Canonical(s)
      invariant forall x :: Covers(s, x) <==> RegisterAt(regs, i, x)
    {
      var r := Range(regs[i].addressLow, regs[i].addressHigh + 1);
      var s' := UnionInto(s, r);
      forall x
        ensures Covers(s', x) <==> RegisterAt(regs, i + 1, x)
      {
        if RegisterAt(regs, i + 1, x) && !Contains(r, x) {
          var k :| 0 <= k < i + 1 && k < |regs| && regs[k].addressLow <= x <= regs[k].addressHigh;
          assert RegisterAt(regs, i, x);
        }
      }
      s := s';
    }
  }

  /** The loop over one bit area: union of `address..address + 1` for each bit. */
  method CoverBits(bits: seq<Bit>) returns (s: seq<Range>)
    requires forall b | b in bits :: b.address < 0xFFFF
    ensures Canonical(s)
    ensures forall x :: Covers(s, x) <==> BitAt(bits, |bits|, x)
  {
    s := [];
    for i := 0 to |bits|
      invariant Canonical(s)
      invariant forall x :: Covers(s, x) <==> BitAt(bits, i, x)
    {
      var r := Range(bits[i].address, bits[i].address + 1);
      var s' := UnionInto(s, r);
      forall x
        ensures Covers(s', x) <==> BitAt(bits, i + 1, x)
      {
        if BitAt(bits, i + 1, x) && !Contains(r, x) {
          var k :| 0 <= k < i + 1 && k < |bits| && bits[k].address == x;
          assert BitAt(bits, i, x);
        }
      }
      s := s';
    }
  }
}
