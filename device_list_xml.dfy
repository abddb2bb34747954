/**
 * src/device_list_xml.rs: reading the device list of a configuration file.
 * Each `device` element has an `addr` attribute, the device's Modbus unit
 * address, and holds a tag list; a later device with the same address
 * replaces an earlier one.
 */
module DeviceListXml {
  import opened Wrappers
  import opened Numbers
  import opened XmlCommon
  import opened TagLists
  import opened DeviceLists
  import TagListXml

  datatype DeviceErrorKind =
    | Base(base: TagListXml.TagErrorKind)
      /** Declared for a repeated address, but no parser produces it. */
    | DuplicateAddr

  type DeviceError = ParseErrorBase<DeviceErrorKind>

  /** `From<tag_list_xml::ParseError>`: same position, the kind wrapped in `Base`. */
  function FromTag(e: TagListXml.TagError): (r: DeviceError)
    ensures r.pos == e.pos && r.kind == Base(e.kind)
  {
    ParseErrorBase(Base(e.kind), e.pos)
  }

  /** `From<xml_common::ParseError>`: same position, the kind wrapped twice. */
  function FromXml(e: XmlCommon.ParseError): (r: DeviceError)
    ensures r.pos == e.pos && r.kind == Base(TagListXml.TagErrorKind.Base(e.kind))
  {
    ParseErrorBase(Base(TagListXml.TagErrorKind.Base(e.kind)), e.pos)
  }

  /** Converting directly from the shared error is the same as converting through the tag-list error. */
  lemma FromXmlThroughTag(e: XmlCommon.ParseError)
    ensures FromXml(e) == FromTag(TagListXml.FromBase(e))
  {
  }

  /** The `Display` text of each kind; a wrapped kind displays as itself. */
  function DeviceKindText(k: DeviceErrorKind): (s: string)
    ensures k.Base? ==> s == TagListXml.TagKindText(k.base)
  {
    match k
    case Base(base) => TagListXml.TagKindText(base)
    case DuplicateAddr => "A device with the same address already configured"
  }

  function DeviceErrorText(e: DeviceError): string
  {
    PositionedText(e.pos, DeviceKindText(e.kind))
  }

  /** The `?` operator on a result of the shared parsers. */
  function LiftXml<T>(r: Result<T, XmlCommon.ParseError>): (r': Result<T, DeviceError>)
    ensures r.Ok? <==> r'.Ok?
    ensures r.Ok? ==> r'.value == r.value
    ensures r.Err? ==> r'.error == FromXml(r.error)
  {
    match r
    case Ok(v) => Ok(v)
    case Err(e) => Err(FromXml(e))
  }

  /** The `?` operator on a result of the tag-list parser. */
  function LiftTag<T>(r: Result<T, TagListXml.TagError>): (r': Result<T, DeviceError>)
    ensures r.Ok? <==> r'.Ok?
    ensures r.Ok? ==> r'.value == r.value
    ensures r.Err? ==> r'.error == FromTag(r.error)
  {
    match r
    case Ok(v) => Ok(v)
    case Err(e) => Err(FromTag(e))
  }

  // ---------------------------------------------------------------------------
  // ParsedU8

  /**
   * `ParsedU8::from_str`: hexadecimal after "0x", decimal otherwise; no sign.
   * A device address reads as a tag address would (`ParsedU16`), limited to
   * a byte and without the '-' and "0b" forms.
   */
  function ParsedU8(s: string): (r: Result<Byte, IntErrorKind>)
    ensures r.Ok? ==> TagListXml.ParsedU16(s) == Ok(r.value)
    ensures !TagListXml.HasPrefix(s, "-") && !TagListXml.HasPrefix(s, "0b") &&
            TagListXml.ParsedU16(s).Ok? && TagListXml.ParsedU16(s).value < 0x100 ==>
              r == TagListXml.ParsedU16(s)
  {
    var hex := TagListXml.HasPrefix(s, "0x");
    var digits := if hex then s[2..] else s;
    var radix := if hex then 16 else 10;
    TagListXml.SignPrefix(s);
    ParseLimits(digits, radix, 0x100, 0x1_0000);
    ParseDigits(digits, radix, 0x100);
    var v :- ParseUnsigned(digits, radix, 0x100);
    Ok(v)
  }

  function ReadParsedU8(s: string): Result<Byte, string>
  {
    match ParsedU8(s)
    case Ok(v) => Ok(v)
    case Err(k) => Err(IntErrorMessage(k))
  }

  /** Text without the "0x" prefix is read as decimal. */
  lemma ParsedU8Plain(s: string)
    requires !TagListXml.HasPrefix(s, "0x")
    ensures ParsedU8(s).Ok? <==> ParseUnsigned(s, 10, 0x100).Ok?
    ensures ParsedU8(s).Ok? ==> ParseUnsigned(s, 10, 0x100) == Ok(ParsedU8(s).value)
    ensures ParsedU8(s).Err? ==> ParseUnsigned(s, 10, 0x100) == Err(ParsedU8(s).error)
  {
  }

  /** Decimal text of an address reads back as that address. */
  lemma ParsedU8Decimal(n: nat)
    requires n < 0x100
    ensures ParsedU8(DecimalString(n)) == Ok(n)
  {
    TagListXml.DecimalNoPrefix(n);
    ParsedU8Plain(DecimalString(n));
    DecimalRoundTrip(n, 0x100);
  }

  /** "0x" and hexadecimal digits read back as the address they show. */
  lemma ParsedU8Hex(n: nat)
    requires n < 0x100
    ensures ParsedU8("0x" + RadixString(n, 16)) == Ok(n)
  {
    var s := "0x" + RadixString(n, 16);
    assert s[..2] == "0x" && s[2..] == RadixString(n, 16);
    RadixRoundTrip(n, 16, 0x100);
  }

  /** A number above 255 is too large, in either notation. */
  lemma ParsedU8TooLarge(n: nat)
    requires 0x100 <= n
    ensures ParsedU8(DecimalString(n)) == Err(PosOverflow)
    ensures ParsedU8("0x" + RadixString(n, 16)) == Err(PosOverflow)
  {
    var s := DecimalString(n);
    DecimalIsRadix10(n);
    RadixOverflow(n, 10, 0x100);
    TagListXml.DecimalNoPrefix(n);
    ParsedU8Plain(s);
    var h := "0x" + RadixString(n, 16);
    assert h[..2] == "0x" && h[2..] == RadixString(n, 16);
    RadixOverflow(n, 16, 0x100);
  }

  /** The digit loop stops at a first character that is not a digit. */
  lemma {:induction false} ScanInvalidFirst(s: string, radix: nat, limit: nat)
    requires s != [] && DigitOf(s[0], radix).None? && 0 < limit
    ensures ScanDigits(s, radix, limit) == Err(InvalidDigit)
    decreases |s|
  {
    if |s| > 1 {
      assert s[..|s| - 1][0] == s[0];
      ScanInvalidFirst(s[..|s| - 1], radix, limit);
    } else {
      assert s[..|s| - 1] == [];
    }
  }

  /** Unlike a register value, an address cannot be written with a '-'. */
  lemma ParsedU8Negative(t: string)
    ensures ParsedU8("-" + t) == Err(InvalidDigit)
  {
    var s := "-" + t;
    assert s[0] == '-';
    ParsedU8Plain(s);
    if s != "-" {
      ScanInvalidFirst(s, 10, 0x100);
    }
  }

  // ---------------------------------------------------------------------------
  // parse_device, parse_device_list

  /**
   * What `parse_device` gives: the address is read first, so a missing or
   * unreadable address is reported before any error in the tag list.
   */
  function DeviceOf(node: Node): (r: Result<DeviceDef, DeviceError>)
    ensures r.Ok? <==> "addr" in node.attributes && ParsedU8(node.attributes["addr"]).Ok? &&
                       TagListXml.TagListOf(node).Ok?
    ensures "addr" in node.attributes && r.Ok? ==>
              ParsedU8(node.attributes["addr"]) == Ok(r.value.addr) && TagListXml.TagListOf(node) == Ok(r.value.tags)
    ensures "addr" !in node.attributes ==> r == Err(FromXml(NewError(node, MissingAttribute("addr"))))
  {
    var addr :- LiftXml(RequiredAttribute(node, "addr", ReadParsedU8));
    var tags :- LiftTag(TagListXml.TagListOf(node));
    Ok(DeviceDef(addr, tags))
  }

  /** `parse_device` */
  method ParseDevice(node: Node) returns (r: Result<DeviceDef, DeviceError>)
    ensures r == DeviceOf(node)
  {
    var addr :- LiftXml(RequiredAttribute(node, "addr", ReadParsedU8));
    var tags := TagListXml.ParseTagList(node);
    var t :- LiftTag(tags);
    return Ok(DeviceDef(addr, t));
  }

  /** The devices of node's children from i on, stored over acc. */
  function DevicesFrom(node: Node, i: nat, acc: map<Byte, DeviceDef>): Result<map<Byte, DeviceDef>, DeviceError>
    decreases |node.children| - i
  {
    if i >= |node.children| then Ok(acc)
    else
      var child := node.children[i];
      var isElement :- LiftXml(CheckElementNs(child));
      if !isElement then DevicesFrom(node, i + 1, acc)
      else if child.name == "device" then
        var device :- DeviceOf(child);
        DevicesFrom(node, i + 1, acc[device.addr := device])
      else Err(NewError(child, Base(TagListXml.TagErrorKind.Base(UnexpectedElement))))
  }

  function DevicesOf(node: Node): Result<map<Byte, DeviceDef>, DeviceError>
  {
    DevicesFrom(node, 0, map[])
  }

  /** `parse_device_list`: inserts every device into a new list, in document order. */
  method ParseDeviceList(node: Node) returns (r: Result<DeviceDefList, DeviceError>)
    ensures r.Ok? <==> DevicesOf(node).Ok?
    ensures r.Ok? ==> fresh(r.value) && r.value.Valid() && DevicesOf(node) == Ok(r.value.devices)
    ensures r.Err? ==> DevicesOf(node) == Err(r.error)
  {
    var devices := new DeviceDefList();
    for i := 0 to |node.children|
      invariant fresh(devices) && devices.Valid()
      invariant DevicesOf(node) == DevicesFrom(node, i, devices.devices)
    {
      var child := node.children[i];
      var isElement :- LiftXml(CheckElementNs(child));
      if isElement {
        if child.name == "device" {
          var device :- ParseDevice(child);
          devices.Insert(device);
        } else {
          return Err(NewError(child, Base(TagListXml.TagErrorKind.Base(UnexpectedElement))));
        }
      }
    }
    return Ok(devices);
  }

  // ---------------------------------------------------------------------------
  // What the device list promises

  /** Child c is a `device` element that parses, with address a. */
  predicate IsDevice(c: Node, a: Byte)
  {
    CheckElementNs(c) == Ok(true) && c.name == "device" && DeviceOf(c).Ok? && DeviceOf(c).value.addr == a
  }

  /** No device child from i on has address a. */
  predicate NoDeviceFrom(node: Node, i: nat, a: Byte)
  {
    forall k | i <= k < |node.children| :: !IsDevice(node.children[k], a)
  }

  /** One step of a device list that parses: a device child is stored, whitespace skipped. */
  lemma DevicesStep(node: Node, i: nat, acc: map<Byte, DeviceDef>)
    requires i < |node.children| && DevicesFrom(node, i, acc).Ok?
    ensures var child := node.children[i];
            if CheckElementNs(child) == Ok(true) then
              && child.name == "device" && DeviceOf(child).Ok?
              && DevicesFrom(node, i, acc) == DevicesFrom(node, i + 1, acc[DeviceOf(child).value.addr := DeviceOf(child).value])
            else
              CheckElementNs(child) == Ok(false) && DevicesFrom(node, i, acc) == DevicesFrom(node, i + 1, acc)
  {
  }

  /**
   * A device list that parses has only devices and whitespace among its
   * children, and holds an address exactly when some device child has it.
   */
  lemma DevicesAddresses(node: Node, i: nat, acc: map<Byte, DeviceDef>, a: Byte)
    requires i <= |node.children|
    ensures DevicesFrom(node, i, acc).Ok? ==>
              && (forall j | i <= j < |node.children| :: TagListXml.AcceptedAmong(node.children[j], {"device"}))
              && (a in DevicesFrom(node, i, acc).value <==>
                  a in acc || exists j | i <= j < |node.children| :: IsDevice(node.children[j], a))
  {
    DevicesAccepted(node, i, acc);
    DevicesHeld(node, i, acc, a);
  }

  /** Every child of a device list that parses is a device or whitespace. */
  lemma {:induction false} DevicesAccepted(node: Node, i: nat, acc: map<Byte, DeviceDef>)
    requires i <= |node.children|
    ensures DevicesFrom(node, i, acc).Ok? ==>
              forall j | i <= j < |node.children| :: TagListXml.AcceptedAmong(node.children[j], {"device"})
    decreases |node.children| - i
  {
    if i < |node.children| && DevicesFrom(node, i, acc).Ok? {
      DevicesStep(node, i, acc);
      var child := node.children[i];
      if CheckElementNs(child) == Ok(true) {
        var device := DeviceOf(child).value;
        DevicesAccepted(node, i + 1, acc[device.addr := device]);
        assert child.name in {"device"};
      } else {
        DevicesAccepted(node, i + 1, acc);
      }
      assert TagListXml.AcceptedAmong(child, {"device"});
      forall j | i <= j < |node.children|
        ensures TagListXml.AcceptedAmong(node.children[j], {"device"})
      {
        if j == i {
          assert node.children[j] == child;
        }
      }
    }
  }

  /** The addresses a device list that parses holds are those of its device children. */
  lemma {:induction false} DevicesHeld(node: Node, i: nat, acc: map<Byte, DeviceDef>, a: Byte)
    requires i <= |node.children|
    ensures DevicesFrom(node, i, acc).Ok? ==>
              (a in DevicesFrom(node, i, acc).value <==> a in acc || !NoDeviceFrom(node, i, a))
    decreases |node.children| - i
  {
    if i < |node.children| && DevicesFrom(node, i, acc).Ok? {
      DevicesStep(node, i, acc);
      NoDeviceFromStep(node, i, a);
      var child := node.children[i];
      if CheckElementNs(child) == Ok(true) {
        var device := DeviceOf(child).value;
        DevicesHeld(node, i + 1, acc[device.addr := device], a);
        assert IsDevice(child, a) <==> a == device.addr;
      } else {
        assert !IsDevice(child, a);
        DevicesHeld(node, i + 1, acc, a);
      }
    }
  }

  lemma NoDeviceFromStep(node: Node, i: nat, a: Byte)
    requires i < |node.children|
    ensures NoDeviceFrom(node, i, a) <==> !IsDevice(node.children[i], a) && NoDeviceFrom(node, i + 1, a)
  {
  }

  /** Children without a device of address a leave what is stored under a alone. */
  lemma {:induction false} DevicesUntouched(node: Node, i: nat, acc: map<Byte, DeviceDef>, a: Byte)
    requires i <= |node.children| && NoDeviceFrom(node, i, a)
    ensures DevicesFrom(node, i, acc).Ok? ==>
              (a in DevicesFrom(node, i, acc).value <==> a in acc) &&
              (a in acc ==> DevicesFrom(node, i, acc).value[a] == acc[a])
    decreases |node.children| - i
  {
    if i < |node.children| && DevicesFrom(node, i, acc).Ok? {
      DevicesStep(node, i, acc);
      var child := node.children[i];
      if CheckElementNs(child) == Ok(true) {
        var device := DeviceOf(child).value;
        assert !IsDevice(child, a);
        DevicesUntouched(node, i + 1, acc[device.addr := device], a);
      } else {
        DevicesUntouched(node, i + 1, acc, a);
      }
    }
  }

  /** The last device child with an address is the one stored under it. */
  lemma {:induction false} DevicesLastWins(node: Node, i: nat, acc: map<Byte, DeviceDef>, j: nat, a: Byte)
    requires i <= j < |node.children|
    requires IsDevice(node.children[j], a) && NoDeviceFrom(node, j + 1, a)
    ensures DevicesFrom(node, i, acc).Ok? ==>
              a in DevicesFrom(node, i, acc).value && DevicesFrom(node, i, acc).value[a] == DeviceOf(node.children[j]).value
    decreases j - i
  {
    if DevicesFrom(node, i, acc).Ok? {
      DevicesStep(node, i, acc);
      var child := node.children[i];
      if CheckElementNs(child) == Ok(true) {
        var device := DeviceOf(child).value;
        if i == j {
          DevicesUntouched(node, i + 1, acc[a := device], a);
        } else {
          DevicesLastWins(node, i + 1, acc[device.addr := device], j, a);
        }
      } else {
        DevicesLastWins(node, i + 1, acc, j, a);
      }
    }
  }

  /** Every error of the device list is one of the wrapped kinds: a repeated address is never an error. */
  lemma {:induction false} DevicesNeverDuplicate(node: Node, i: nat, acc: map<Byte, DeviceDef>)
    requires i <= |node.children|
    ensures DevicesFrom(node, i, acc).Err? ==> DevicesFrom(node, i, acc).error.kind.Base?
    decreases |node.children| - i
  {
    if i < |node.children| && DevicesFrom(node, i, acc).Err? {
      var child := node.children[i];
      if CheckElementNs(child) == Ok(true) && child.name == "device" && DeviceOf(child).Ok? {
        var device := DeviceOf(child).value;
        DevicesNeverDuplicate(node, i + 1, acc[device.addr := device]);
      } else if CheckElementNs(child) == Ok(false) {
        DevicesNeverDuplicate(node, i + 1, acc);
      }
    }
  }
}
