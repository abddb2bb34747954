/**
 * `Devices` of src/devices.rs: one entry per configured device, holding
 * its unit address, its tag areas and its poll ranges, kept sorted by unit
 * so that a unit is found by binary search.
 */
module DeviceTables {
  import opened Wrappers
  import opened Numbers
  import opened TagLists
  import opened DeviceLists
  import opened TagRangeSets
  import opened TagStores

  datatype Error = UnitNotAvailable | LockFailed

  /** `Display`: both kinds read "Unit not available". */
  function ErrorMessage(e: Error): (s: string)
    ensures s == "Unit not available"
  {
    match e
    case UnitNotAvailable => "Unit not available"
    case LockFailed => "Unit not available"
  }

  datatype Device = Device(unit: Byte, tags: Tags, ranges: TagRanges)

  predicate SortedUnits(devs: seq<Device>)
  {
    forall i, j :: 0 <= i < j < |devs| ==> devs[i].unit < devs[j].unit
  }

  /**
   * The tag areas of different devices are different objects: each device
   * builds its own with `Tags::new`.
   */
  ghost predicate Separate(devs: seq<Device>)
  {
    forall i, j :: 0 <= i < |devs| && 0 <= j < |devs| && i != j ==>
      && devs[i].tags.holdingRegisters != devs[j].tags.holdingRegisters
      && devs[i].tags.holdingRegisters != devs[j].tags.inputRegisters
      && devs[i].tags.coils != devs[j].tags.coils
      && devs[i].tags.coils != devs[j].tags.discreteInputs
  }

  /** The tags of a device can be set up and its poll ranges built without `u16` overflow. */
  predicate Configurable(tags: TagDefList)
  {
    Initialisable(tags) && NoOverflow(Flatten(tags))
  }

  /**
   * `binary_search_by_key(&unit, get_unit)` over positions lo..hi of units
   * sorted without repeats: the position holding unit, if any.
   */
  function Search(devs: seq<Device>, unit: Byte, lo: nat, hi: nat): (r: Option<nat>)
    requires lo <= hi <= |devs| && SortedUnits(devs)
    ensures r.Some? ==> lo <= r.value < hi && devs[r.value].unit == unit
    ensures r.None? ==> forall i :: lo <= i < hi ==> devs[i].unit != unit
    decreases hi - lo
  {
    if lo == hi then None
    else
      var mid := (lo + hi) / 2;
      if devs[mid].unit < unit then Search(devs, unit, mid + 1, hi)
      else if unit < devs[mid].unit then Search(devs, unit, lo, mid)
      else Some(mid)
  }

  /** `find_unit`: the device with that unit, or None when there is none. */
  function FindUnit(devs: seq<Device>, unit: Byte): (r: Option<Device>)
    requires SortedUnits(devs)
    ensures r.Some? ==> r.value in devs && r.value.unit == unit
    ensures r.None? <==> forall i :: 0 <= i < |devs| ==> devs[i].unit != unit
  {
    match Search(devs, unit, 0, |devs|)
    case Some(i) => Some(devs[i])
    case None => None
  }

  /**
   * `tags_read` and `tags_write` (their bodies are the same): f applied to
   * the tags of the unit, or UnitNotAvailable when there is no such unit.
   */
  function WithTags<R>(devs: seq<Device>, unit: Byte, f: Tags -> R): (r: Result<R, Error>)
    requires SortedUnits(devs)
    ensures r.Err? ==> r.error == UnitNotAvailable
    ensures r.Err? <==> forall i :: 0 <= i < |devs| ==> devs[i].unit != unit
    ensures r.Ok? ==> exists i :: 0 <= i < |devs| && devs[i].unit == unit && r.value == f(devs[i].tags)
  {
    match FindUnit(devs, unit)
    case None => Err(UnitNotAvailable)
    case Some(dev) => Ok(f(dev.tags))
  }

  /** `ranges`: the poll ranges of the unit, or UnitNotAvailable. */
  function Ranges(devs: seq<Device>, unit: Byte): (r: Result<TagRanges, Error>)
    requires SortedUnits(devs)
    ensures r.Err? ==> r.error == UnitNotAvailable
    ensures r.Err? <==> forall i :: 0 <= i < |devs| ==> devs[i].unit != unit
    ensures r.Ok? ==> exists i :: 0 <= i < |devs| && devs[i].unit == unit && r.value == devs[i].ranges
  {
    match FindUnit(devs, unit)
    case None => Err(UnitNotAvailable)
    case Some(dev) => Ok(dev.ranges)
  }

  /** `units`: the unit numbers, in ascending order. */
  function Units(devs: seq<Device>): (r: seq<Byte>)
    requires SortedUnits(devs)
    ensures |r| == |devs| && forall i :: 0 <= i < |r| ==> r[i] == devs[i].unit
    ensures forall i, j :: 0 <= i < j < |r| ==> r[i] < r[j]
  {
    seq(|devs|, i requires 0 <= i < |devs| => devs[i].unit)
  }

  /** dev holds the tag areas and poll ranges built from def. */
  ghost predicate Built(dev: Device, def: DeviceDef, floats: FloatLibrary)
    reads dev.tags, dev.tags.holdingRegisters, dev.tags.inputRegisters, dev.tags.discreteInputs, dev.tags.coils
    reads dev.ranges
  {
    && Configurable(def.tags) && ValidLibrary(floats)
    && dev.unit == def.addr
    && dev.tags.Valid() && dev.tags.Initialised(def.tags, floats)
    && dev.ranges.Valid() && dev.ranges.Covering(Flatten(def.tags))
  }

  /** The loop body of `Devices::new`: `Tags::new` and `TagRanges::from` for one definition. */
  method NewDevice(def: DeviceDef, floats: FloatLibrary) returns (dev: Device)
    requires Configurable(def.tags) && ValidLibrary(floats)
    ensures fresh(dev.tags) && fresh(dev.ranges)
    ensures fresh(dev.tags.holdingRegisters) && fresh(dev.tags.inputRegisters)
    ensures fresh(dev.tags.discreteInputs) && fresh(dev.tags.coils)
    ensures Built(dev, def, floats)
  {
    var tags := new Tags(def.tags, floats);
    var ranges := new TagRanges.FromTagList(Flatten(def.tags));
    dev := Device(def.addr, tags, ranges);
  }

  /**
   * One turn of the loop of `Devices::new`: the device for the next
   * definition, built without disturbing the devices already built.
   */
  method AddDevice(devs: seq<Device>, defs: seq<DeviceDef>, floats: FloatLibrary) returns (dev: Device)
    requires |devs| < |defs| && Configurable(defs[|devs|].tags) && ValidLibrary(floats)
    requires forall i :: 0 <= i < |devs| ==> Built(devs[i], defs[i], floats)
    ensures fresh(dev.tags) && fresh(dev.ranges)
    ensures fresh(dev.tags.holdingRegisters) && fresh(dev.tags.inputRegisters)
    ensures fresh(dev.tags.discreteInputs) && fresh(dev.tags.coils)
    ensures Built(dev, defs[|devs|], floats)
    ensures forall i :: 0 <= i < |devs| ==> Built(devs[i], defs[i], floats)
  {
    dev := NewDevice(defs[|devs|], floats);
  }

  /** The loop of `Devices::new` over the definitions, in their order. */
  method BuildDevices(defs: seq<DeviceDef>, floats: FloatLibrary) returns (devs: seq<Device>)
    requires ValidLibrary(floats)
    requires forall i :: 0 <= i < |defs| ==> Configurable(defs[i].tags)
    ensures |devs| == |defs|
    ensures forall i :: 0 <= i < |devs| ==> fresh(devs[i].tags) && fresh(devs[i].ranges)
    ensures forall i :: 0 <= i < |devs| ==> Built(devs[i], defs[i], floats)
    ensures Separate(devs)
  {
    devs := [];
    for k := 0 to |defs|
      invariant |devs| == k
      invariant forall i :: 0 <= i < k ==> fresh(devs[i].tags) && fresh(devs[i].ranges) && Built(devs[i], defs[i], floats)
      invariant Separate(devs)
    {
      var dev := AddDevice(devs, defs, floats);
      SeparateAppend(devs, dev);
      devs := devs + [dev];
    }
  }

  /** A device whose areas are none of the areas already held keeps the devices separate. */
  lemma SeparateAppend(devs: seq<Device>, dev: Device)
    requires Separate(devs)
    requires forall i :: 0 <= i < |devs| ==>
               && devs[i].tags.holdingRegisters != dev.tags.holdingRegisters
               && devs[i].tags.holdingRegisters != dev.tags.inputRegisters
               && devs[i].tags.coils != dev.tags.coils
               && devs[i].tags.coils != dev.tags.discreteInputs
               && devs[i].tags.inputRegisters != dev.tags.holdingRegisters
               && devs[i].tags.discreteInputs != dev.tags.coils
    ensures Separate(devs + [dev])
  {
  }

  /**
   * `Devices::new`: one device per definition, in the ascending address
   * order of the definition list, each with freshly built tag areas and
   * poll ranges. The final `sort_by_key` is not a step of the model: the
   * loop already produces units in ascending order, so sorting leaves the
   * sequence as it is.
   */
  method NewDevices(init: DeviceDefList, floats: FloatLibrary) returns (devs: seq<Device>)
    requires init.Valid() && ValidLibrary(floats)
    requires forall a | a in init.devices :: Configurable(init.devices[a].tags)
    ensures SortedUnits(devs) && Separate(devs)
    ensures |devs| == |init.Devices()|
    ensures forall i :: 0 <= i < |devs| ==> fresh(devs[i].tags) && fresh(devs[i].ranges)
    ensures forall i :: 0 <= i < |devs| ==>
              Configurable(init.Devices()[i].tags) && Built(devs[i], init.Devices()[i], floats)
  {
    var defs := init.Devices();
    forall i | 0 <= i < |defs|
      ensures Configurable(defs[i].tags)
    {
      assert defs[i] == init.devices[defs[i].addr];
    }
    devs := BuildDevices(defs, floats);
    assert forall i :: 0 <= i < |devs| ==> devs[i].unit == defs[i].addr;
  }
}
