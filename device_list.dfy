/**
 * `DeviceDefList` of src/device_list.rs: the configured devices, keyed by
 * their Modbus unit address in an ordered map, so that iteration visits
 * them in ascending address order.
 */
module DeviceLists {
  import opened Wrappers
  import opened Numbers
  import opened TagLists

  /** One configured device: its unit address and its tags. */
  datatype DeviceDef = DeviceDef(addr: Byte, tags: TagDefList)

  /** The keys of m from k upwards, in ascending order: the key walk of a `BTreeMap<u8, _>`. */
  function KeysFrom<V>(m: map<Byte, V>, k: nat): (r: seq<Byte>)
    requires k <= 0x100
    ensures forall i :: 0 <= i < |r| ==> r[i] in m && k <= r[i]
    ensures forall i, j :: 0 <= i < j < |r| ==> r[i] < r[j]
    decreases 0x100 - k
  {
    if k == 0x100 then []
    else (if k in m then [k as Byte] else []) + KeysFrom(m, k + 1)
  }

  /** The key walk misses no key. */
  lemma {:induction false} KeysFromComplete<V>(m: map<Byte, V>, k: nat, a: Byte)
    requires k <= a && a in m
    ensures exists i :: 0 <= i < |KeysFrom(m, k)| && KeysFrom(m, k)[i] == a
    decreases 0x100 - k
  {
    var head: seq<Byte> := if k in m then [k as Byte] else [];
    var rest := KeysFrom(m, k + 1);
    assert KeysFrom(m, k) == head + rest;
    if k == a {
      assert (head + rest)[0] == a;
    } else {
      KeysFromComplete(m, k + 1, a);
      var i :| 0 <= i < |rest| && rest[i] == a;
      assert (head + rest)[|head| + i] == a;
    }
  }

  /** The devices stored under keys, in the order of keys. */
  function ValuesInOrder(m: map<Byte, DeviceDef>, keys: seq<Byte>): (r: seq<DeviceDef>)
    requires forall i :: 0 <= i < |keys| ==> keys[i] in m
    ensures |r| == |keys| && forall i :: 0 <= i < |r| ==> r[i] == m[keys[i]]
  {
    seq(|keys|, i requires 0 <= i < |keys| => m[keys[i]])
  }

  class DeviceDefList {
    var devices: map<Byte, DeviceDef>

    /** Each device is stored under its own address. */
    ghost predicate Valid()
      reads this
    {
      forall a | a in devices :: devices[a].addr == a
    }

    /** `DeviceDefList::new`: no devices. */
    constructor ()
      ensures Valid() && devices == map[]
    {
      devices := map[];
    }

    /** `insert`: stores the device under its address, replacing an earlier one there. */
    method Insert(device: DeviceDef)
      requires Valid()
      modifies this
      ensures Valid()
      ensures devices == old(devices)[device.addr := device]
      ensures |devices| == if device.addr in old(devices) then |old(devices)| else |old(devices)| + 1
    {
      devices := devices[device.addr := device];
    }

    /** `get`: the device stored under addr, if any. */
    function Get(addr: Byte): (r: Option<DeviceDef>)
      reads this
      requires Valid()
      ensures r.Some? <==> addr in devices
      ensures r.Some? ==> r.value == devices[addr] && r.value.addr == addr
    {
      if addr in devices then Some(devices[addr]) else None
    }

    /** `devices()` and iteration: one device per address, in ascending address order. */
    function Devices(): (r: seq<DeviceDef>)
      reads this
      requires Valid()
      ensures forall i :: 0 <= i < |r| ==> r[i].addr in devices && devices[r[i].addr] == r[i]
      ensures forall i, j :: 0 <= i < j < |r| ==> r[i].addr < r[j].addr
    {
      var keys := KeysFrom(devices, 0);
      var r := ValuesInOrder(devices, keys);
      assert forall i :: 0 <= i < |r| ==> r[i].addr == keys[i];
      r
    }
  }

  /** `devices()` lists every stored device. */
  lemma DevicesComplete(list: DeviceDefList, a: Byte)
    requires list.Valid() && a in list.devices
    ensures exists i :: 0 <= i < |list.Devices()| && list.Devices()[i] == list.devices[a]
  {
    KeysFromComplete(list.devices, 0, a);
    var keys := KeysFrom(list.devices, 0);
    var i :| 0 <= i < |keys| && keys[i] == a;
    assert list.Devices()[i] == list.devices[a];
  }
}
