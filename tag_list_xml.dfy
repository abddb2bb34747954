/**
 * src/tag_list_xml.rs: reading a device's tag list from its configuration
 * element. Attribute readers and the straight-line parts of each parser are
 * functions; the loops over an element's children are methods, each proved
 * to return what the function of the same shape describes.
 */
module TagListXml {
  import opened Wrappers
  import opened Numbers
  import opened TagLists
  import opened XmlCommon

  datatype TagErrorKind =
    | Base(base: ParseErrorKind)
    | BitRange
    | InvalidByteOrder
    | InvalidWordOrder
    | InvalidSign
    | InvalidValueType

  type TagError = ParseErrorBase<TagErrorKind>

  /**
   * The tag-list parser's own `From<xml_common::ParseError>`: same position, the kind
   * wrapped in `Base`. The device-list parser has its own conversion from the tag-list
   * error (`DeviceListXml.FromTag`), which has the same shape but other types.
   */
  function FromBase(e: XmlCommon.ParseError): (r: TagError)
    ensures r.pos == e.pos && r.kind == Base(e.kind)
  {
    ParseErrorBase(Base(e.kind), e.pos)
  }

  /** The `?` operator on a result of the shared parsers. */
  function Lifted<T>(r: Result<T, XmlCommon.ParseError>): (r': Result<T, TagError>)
    ensures r.Ok? <==> r'.Ok?
    ensures r.Ok? ==> r'.value == r.value
    ensures r.Err? ==> r'.error == FromBase(r.error)
  {
    match r
    case Ok(v) => Ok(v)
    case Err(e) => Err(FromBase(e))
  }

  /** The `Display` text of each kind; a wrapped kind displays as itself. */
  function TagKindText(k: TagErrorKind): (s: string)
    ensures k.Base? ==> s == KindText(k.base)
  {
    match k
    case Base(base) => KindText(base)
    case BitRange => "Either use attribute 'bit' or both of 'bit-low' and 'bit-high'"
    case InvalidByteOrder => "Invalid byte order"
    case InvalidWordOrder => "Invalid word order"
    case InvalidSign => "Attribute 'sign' must be either 'signed' or 'unsigned'"
    case InvalidValueType => "Attribute 'value-type' must be one of 'integer', 'float', or 'string'"
  }

  /** `optional_attribute::<String>`, which cannot fail. */
  function OptionalText(node: Node, name: string): (r: Option<string>)
    ensures OptionalAttribute(node, name, ReadString) == Ok(r)
  {
    if name in node.attributes then Some(node.attributes[name]) else None
  }

  function TagErrorText(e: TagError): string
  {
    PositionedText(e.pos, TagKindText(e.kind))
  }

  // ---------------------------------------------------------------------------
  // Attribute readers (`FromStr` of each attribute type)

  predicate HasPrefix(s: string, p: string)
  {
    |p| <= |s| && s[..|p|] == p
  }

  /** Starting with "-" is starting with the character '-'. */
  lemma SignPrefix(s: string)
    ensures HasPrefix(s, "-") <==> |s| > 0 && s[0] == '-'
  {
    if |s| > 0 {
      assert s[..1] == [s[0]];
    }
  }

  /** `u8::from_str` */
  function ReadU8(s: string): Result<Byte, string>
  {
    match ParseUnsigned(s, 10, 0x100)
    case Ok(v) => Ok(v)
    case Err(k) => Err(IntErrorMessage(k))
  }

  /**
   * `ParsedU16::from_str`: an optional '-', then hexadecimal after "0x",
   * binary after "0b", decimal otherwise; a negative value is the `u16`
   * two's complement of its magnitude.
   */
  function ParsedU16(s: string): (r: Result<Word, IntErrorKind>)
    ensures HasPrefix(s, "-") && !HasPrefix(s[1..], "-") ==>
              && (r.Ok? <==> ParsedU16(s[1..]).Ok?)
              && (r.Ok? ==> (r.value + ParsedU16(s[1..]).value) % 0x1_0000 == 0)
    decreases |s|
  {
    var neg := HasPrefix(s, "-");
    var magnitude :- U16Magnitude(if neg then s[1..] else s);
    Ok(if neg then (0x1_0000 - magnitude) % 0x1_0000 else magnitude)
  }

  /** The unsigned part of an address: hexadecimal after "0x", binary after "0b", decimal otherwise. */
  function U16Magnitude(t: string): (r: Result<nat, IntErrorKind>)
    ensures r.Ok? ==> r.value < 0x1_0000
  {
    if HasPrefix(t, "0x") then ParseUnsigned(t[2..], 16, 0x1_0000)
    else if HasPrefix(t, "0b") then ParseUnsigned(t[2..], 2, 0x1_0000)
    else ParseUnsigned(t, 10, 0x1_0000)
  }

  function ReadU16(s: string): Result<Word, string>
  {
    match ParsedU16(s)
    case Ok(v) => Ok(v)
    case Err(k) => Err(IntErrorMessage(k))
  }

  /** `ParsedBit::from_str`: "1" and "0", then what `bool::from_str` accepts. */
  function ParsedBit(s: string): (r: Result<bool, string>)
    ensures r == Ok(true) <==> s == "1" || s == "true"
    ensures r == Ok(false) <==> s == "0" || s == "false"
    ensures r.Err? <==> s != "1" && s != "0" && s != "true" && s != "false"
  {
    if s == "1" then Ok(true)
    else if s == "0" then Ok(false)
    else if s == "true" then Ok(true)
    else if s == "false" then Ok(false)
    else Err("provided string was not `true` or `false`")
  }

  /** The value of a run of decimal digits; `None` when something else is in it. */
  function DigitsValue(s: string): (r: Option<nat>)
    ensures r.Some? <==> forall k :: 0 <= k < |s| ==> '0' <= s[k] <= '9'
  {
    if s == [] then Some(0)
    else
      var last := s[|s| - 1];
      match DigitsValue(s[..|s| - 1])
      case None => None
      case Some(v) => if '0' <= last <= '9' then Some(10 * v + (last as int - 48)) else None
  }

  /** The first position of c in s. */
  function IndexOf(s: string, c: char): (r: Option<nat>)
    ensures r.Some? ==> r.value < |s| && s[r.value] == c && forall k :: 0 <= k < r.value ==> s[k] != c
    ensures r.None? <==> forall k :: 0 <= k < |s| ==> s[k] != c
  {
    if s == [] then None
    else if s[0] == c then Some(0)
    else match IndexOf(s[1..], c)
      case None => None
      case Some(i) => Some(i + 1)
  }

  /** Digits with an optional '.' among them, and at least one digit. */
  function Mantissa(s: string): Option<real>
  {
    var (whole, fraction) := match IndexOf(s, '.')
      case Some(d) => (s[..d], s[d + 1..])
      case None => (s, "");
    if |whole| + |fraction| == 0 then None
    else match (DigitsValue(whole), DigitsValue(fraction))
      case (Some(a), Some(b)) => Some(a as real + b as real / Pow(10, |fraction|) as real)
      case _ => None
  }

  /** An exponent: an optional sign and at least one digit. */
  function Exponent(s: string): Option<int>
  {
    var neg := |s| > 0 && s[0] == '-';
    var digits := if |s| > 0 && (s[0] == '-' || s[0] == '+') then s[1..] else s;
    if digits == [] then None
    else match DigitsValue(digits)
      case None => None
      case Some(e) => var x: int := e; Some(if neg then -x else x)
  }

  function Scaled(m: real, e: int): real
  {
    if e >= 0 then m * Pow(10, e) as real else m / Pow(10, -e) as real
  }

  /**
   * `f32::from_str` on decimal text: an optional sign, digits with an
   * optional point, and an optional exponent after 'e' or 'E'; the value is
   * kept exact.
   */
  function ParseF32(s: string): (r: Result<real, string>)
    ensures s == [] ==> r == Err("cannot parse float from empty string")
  {
    if s == [] then Err("cannot parse float from empty string")
    else
      var neg := s[0] == '-';
      var t := if s[0] == '-' || s[0] == '+' then s[1..] else s;
      var e := match IndexOf(t, 'e') case Some(i) => Some(i) case None => IndexOf(t, 'E');
      var value := match e
        case None => Mantissa(t)
        case Some(i) =>
          (match (Mantissa(t[..i]), Exponent(t[i + 1..]))
           case (Some(m), Some(x)) => Some(Scaled(m, x))
           case _ => None);
      match value
      case None => Err("invalid float literal")
      case Some(v) => Ok(if neg then -v else v)
  }

  lemma {:induction false} DigitsValueDecimal(n: nat)
    ensures DigitsValue(DecimalString(n)) == Some(n)
    decreases n
  {
    var s := DecimalString(n);
    if n >= 10 {
      DigitsValueDecimal(n / 10);
      assert s[..|s| - 1] == DecimalString(n / 10);
    } else {
      assert s[..|s| - 1] == [];
    }
  }

  /** A decimal integer reads as itself. */
  lemma ParseF32Integer(n: nat)
    ensures ParseF32(DecimalString(n)) == Ok(n as real)
  {
    var s := DecimalString(n);
    DigitsValueDecimal(n);
    assert s[0] != '-' && s[0] != '+';
    assert IndexOf(s, 'e').None? && IndexOf(s, 'E').None?;
    MantissaWhole(s, n);
  }

  /** Digits without a point are a whole mantissa. */
  lemma MantissaWhole(s: string, n: nat)
    requires s != [] && DigitsValue(s) == Some(n)
    ensures Mantissa(s) == Some(n as real)
  {
    assert IndexOf(s, '.').None?;
    assert DigitsValue("") == Some(0);
    assert Pow(10, 0) == 1;
  }

  /** Without a sign or a radix prefix the text is read as decimal. */
  lemma ParsedU16Plain(s: string, n: nat)
    requires s != [] && s[0] != '-' && !HasPrefix(s, "0x") && !HasPrefix(s, "0b")
    requires ParseUnsigned(s, 10, 0x1_0000) == Ok(n)
    ensures ParsedU16(s) == Ok(n)
  {
    assert s[..1] == [s[0]];
  }

  /** Decimal digits carry no sign and no radix prefix. */
  lemma DecimalNoPrefix(n: nat)
    ensures DecimalString(n)[0] != '-'
    ensures !HasPrefix(DecimalString(n), "0x") && !HasPrefix(DecimalString(n), "0b")
  {
    var s := DecimalString(n);
    if |s| >= 2 {
      assert '0' <= s[1] <= '9';
    }
  }

  /** Decimal text reads back as the number it shows. */
  lemma ParsedU16Decimal(n: nat)
    requires n < 0x1_0000
    ensures ParsedU16(DecimalString(n)) == Ok(n)
  {
    DecimalNoPrefix(n);
    DecimalRoundTrip(n, 0x1_0000);
    ParsedU16Plain(DecimalString(n), n);
  }

  /** "0x" and hexadecimal digits read back as the number they show. */
  lemma ParsedU16Hex(n: nat)
    requires n < 0x1_0000
    ensures ParsedU16("0x" + RadixString(n, 16)) == Ok(n)
  {
    var s := "0x" + RadixString(n, 16);
    assert s[..2] == "0x" && s[2..] == RadixString(n, 16);
    assert s[..1] == "0";
    RadixRoundTrip(n, 16, 0x1_0000);
  }

  /** "0b" and binary digits read back as the number they show. */
  lemma ParsedU16Binary(n: nat)
    requires n < 0x1_0000
    ensures ParsedU16("0b" + RadixString(n, 2)) == Ok(n)
  {
    var s := "0b" + RadixString(n, 2);
    assert s[..2] == "0b" && s[2..] == RadixString(n, 2);
    assert s[..1] == "0";
    assert !HasPrefix(s, "0x");
    RadixRoundTrip(n, 2, 0x1_0000);
  }

  /** A '-' before a magnitude gives its 16-bit two's complement. */
  lemma ParsedU16Negative(n: nat)
    requires n < 0x1_0000
    ensures ParsedU16("-" + DecimalString(n)) == Ok((0x1_0000 - n) % 0x1_0000)
  {
    var s := "-" + DecimalString(n);
    assert s[..1] == "-" && s[1..] == DecimalString(n);
    DecimalNoPrefix(n);
    DecimalRoundTrip(n, 0x1_0000);
    assert U16Magnitude(DecimalString(n)) == Ok(n);
  }

  /** "-1" is all ones, "-0" is zero. */
  lemma ParsedU16MinusOne()
    ensures ParsedU16("-1") == Ok(0xFFFF)
    ensures ParsedU16("-0") == Ok(0)
  {
    assert "-" + DecimalString(1) == "-1" && "-" + DecimalString(0) == "-0";
    ParsedU16Negative(1);
    ParsedU16Negative(0);
  }

  // ---------------------------------------------------------------------------
  // parse_presentation, parse_encoding

  /**
   * `parse_presentation`: scale 1, radix 10 and 2 decimals unless given; an
   * unreadable attribute is an error.
   */
  function ParsePresentation(node: Node): (r: Result<Presentation, TagError>)
    ensures r.Ok? && "scale" !in node.attributes ==> r.value.scale == 1.0
    ensures r.Ok? && "radix" !in node.attributes ==> r.value.radix == 10
    ensures r.Ok? && "decimals" !in node.attributes ==> r.value.decimals == 2
    ensures r.Ok? ==> r.value.unit == (if "unit" in node.attributes then Some(node.attributes["unit"]) else None)
    ensures r.Ok? && "scale" in node.attributes ==> ParseF32(node.attributes["scale"]) == Ok(r.value.scale)
    ensures r.Ok? && "radix" in node.attributes ==> ReadU8(node.attributes["radix"]) == Ok(r.value.radix)
    ensures r.Ok? && "decimals" in node.attributes ==> ReadU8(node.attributes["decimals"]) == Ok(r.value.decimals)
    ensures r.Ok? <==>
              && ("scale" in node.attributes ==> ParseF32(node.attributes["scale"]).Ok?)
              && ("radix" in node.attributes ==> ReadU8(node.attributes["radix"]).Ok?)
              && ("decimals" in node.attributes ==> ReadU8(node.attributes["decimals"]).Ok?)
    ensures r.Err? ==> r.error.pos == node.pos
  {
    var scale :- Lifted(OptionalAttribute(node, "scale", ParseF32));
    var unit := OptionalText(node, "unit");
    var radix :- Lifted(OptionalAttribute(node, "radix", ReadU8));
    var decimals :- Lifted(OptionalAttribute(node, "decimals", ReadU8));
    Ok(Presentation(radix.UnwrapOr(10), decimals.UnwrapOr(2), scale.UnwrapOr(1.0), unit))
  }

  /** Presentation attributes written as decimal numbers read back as those numbers. */
  lemma PresentationReadBack(node: Node, radix: Byte, decimals: Byte, scale: nat, unit: string)
    requires node.attributes == map["scale" := DecimalString(scale), "unit" := unit,
                                    "radix" := DecimalString(radix), "decimals" := DecimalString(decimals)]
    ensures ParsePresentation(node) == Ok(Presentation(radix, decimals, scale as real, Some(unit)))
  {
    var m := node.attributes;
    assert "scale" in m && m["scale"] == DecimalString(scale);
    assert "radix" in m && m["radix"] == DecimalString(radix);
    assert "decimals" in m && m["decimals"] == DecimalString(decimals);
    assert "unit" in m && m["unit"] == unit;
    ParseF32Integer(scale);
    DecimalRoundTrip(radix, 0x100);
    DecimalRoundTrip(decimals, 0x100);
    var r := ParsePresentation(node);
    assert r.Ok?;
    assert r.value == Presentation(radix, decimals, scale as real, Some(unit));
  }

  /** A byte or word order attribute: "little…" or "big…"; None when it is neither. */
  function OrderOf(s: string): (r: Option<bool>)
    ensures r == Some(true) <==> HasPrefix(s, "little")
    ensures r == Some(false) <==> !HasPrefix(s, "little") && HasPrefix(s, "big")
  {
    if HasPrefix(s, "little") then Some(true)
    else if HasPrefix(s, "big") then Some(false)
    else None
  }

  /** The `value-type` attribute and what goes with it. */
  function ValueTypeOf(node: Node): (r: Result<ValueType, TagError>)
    ensures IntegerNamed(node) && "sign" !in node.attributes ==> r == Ok(Integer(false))
    ensures IntegerNamed(node) && "sign" in node.attributes ==>
              && (node.attributes["sign"] == "signed" ==> r == Ok(Integer(true)))
              && (node.attributes["sign"] == "unsigned" ==> r == Ok(Integer(false)))
              && (node.attributes["sign"] !in {"signed", "unsigned"} ==> r == Err(NewError(node, InvalidSign)))
    ensures "value-type" in node.attributes && node.attributes["value-type"] == "float" ==> r == Ok(Float)
    ensures "value-type" in node.attributes && node.attributes["value-type"] == "string" ==>
              && ("fill" !in node.attributes ==> r == Ok(String(0)))
              && ("fill" in node.attributes ==>
                    match ReadU8(node.attributes["fill"])
                    case Ok(fill) => r == Ok(String(fill))
                    case Err(m) => r == Err(FromBase(XmlCommon.NewError(node, ParseAttribute("fill", m)))))
    ensures r == Err(NewError(node, InvalidValueType)) <==>
              "value-type" in node.attributes && node.attributes["value-type"] !in {"integer", "float", "string"}
    ensures r.Err? ==> r.error.pos == node.pos
  {
    var given := OptionalText(node, "value-type");
    var name := given.UnwrapOr("integer");
    if name == "integer" then
      var sign := OptionalText(node, "sign");
      match sign
      case Some("signed") => Ok(Integer(true))
      case Some("unsigned") => Ok(Integer(false))
      case Some(_) => Err(NewError(node, InvalidSign))
      case None => Ok(Integer(false))
    else if name == "float" then Ok(Float)
    else if name == "string" then
      var fill :- Lifted(OptionalAttribute(node, "fill", ReadU8));
      Ok(String(fill.UnwrapOr(0)))
    else Err(NewError(node, InvalidValueType))
  }

  /** The value type is an integer: named so, or not named at all. */
  predicate IntegerNamed(node: Node)
  {
    "value-type" !in node.attributes || node.attributes["value-type"] == "integer"
  }

  /** The attributes a configuration writes for a value type. */
  function ValueTypeAttributes(v: ValueType): (m: map<string, string>)
    ensures "value-type" in m
  {
    match v
    case Integer(signed) => map["value-type" := "integer", "sign" := if signed then "signed" else "unsigned"]
    case Float => map["value-type" := "float"]
    case String(fill) => map["value-type" := "string", "fill" := DecimalString(fill)]
  }

  /** Every value type written as attributes reads back as itself. */
  lemma ValueTypeReadBack(node: Node, v: ValueType)
    requires node.attributes == ValueTypeAttributes(v)
    ensures ValueTypeOf(node) == Ok(v)
  {
    if v.String? {
      DecimalRoundTrip(v.fill, 0x100);
    }
  }

  /**
   * `parse_encoding`: byte and word order default to big; an order that is
   * neither "little…" nor "big…" is an error, reported as an invalid byte
   * order for the word order too.
   */
  function ParseEncoding(node: Node): (r: Result<Encoding, TagError>)
    ensures "byte-order" in node.attributes && OrderOf(node.attributes["byte-order"]).None? ==>
              r == Err(NewError(node, InvalidByteOrder))
    ensures r.Ok? ==> (r.value.byteOrder == ByteOrder.LittleEndian <==>
                       "byte-order" in node.attributes && HasPrefix(node.attributes["byte-order"], "little"))
    ensures r.Ok? ==> (r.value.wordOrder == WordOrder.LittleEndian <==>
                       "word-order" in node.attributes && HasPrefix(node.attributes["word-order"], "little"))
    ensures r.Ok? ==> ValueTypeOf(node) == Ok(r.value.value)
    ensures r.Err? ==> r.error.pos == node.pos
  {
    var byteText := OptionalText(node, "byte-order");
    var byteOrder :- match byteText
      case None => Ok(ByteOrder.BigEndian)
      case Some(s) =>
        (match OrderOf(s)
         case Some(little) => Ok(if little then ByteOrder.LittleEndian else ByteOrder.BigEndian)
         case None => Err(NewError(node, InvalidByteOrder)));
    var wordText := OptionalText(node, "word-order");
    var wordOrder :- match wordText
      case None => Ok(WordOrder.BigEndian)
      case Some(s) =>
        (match OrderOf(s)
         case Some(little) => Ok(if little then WordOrder.LittleEndian else WordOrder.BigEndian)
         case None => Err(NewError(node, InvalidByteOrder)));
    var value :- ValueTypeOf(node);
    Ok(Encoding(value, byteOrder, wordOrder))
  }

  /** With no encoding attributes: an unsigned big-endian integer. */
  lemma EncodingDefaults(node: Node)
    requires forall a :: a in {"byte-order", "word-order", "value-type", "sign"} ==> a !in node.attributes
    ensures ParseEncoding(node) == Ok(Encoding(Integer(false), ByteOrder.BigEndian, WordOrder.BigEndian))
  {
  }

  /** A word order that is neither little nor big is reported as an invalid byte order. */
  lemma BadWordOrder(node: Node)
    requires "byte-order" !in node.attributes
    requires "word-order" in node.attributes && OrderOf(node.attributes["word-order"]).None?
    ensures ParseEncoding(node) == Err(NewError(node, InvalidByteOrder))
  {
  }

  // ---------------------------------------------------------------------------
  // Single elements

  /** `parse_enum`: a required label and a required `ParsedU16` value. */
  function ParseEnum(node: Node): (r: Result<IntegerEnum, TagError>)
    ensures r.Ok? <==> "label" in node.attributes && "value" in node.attributes && ReadU16(node.attributes["value"]).Ok?
    ensures r.Ok? ==> ReadU16(node.attributes["value"]) == Ok(r.value.value) && r.value.caption == node.attributes["label"]
  {
    var caption :- Lifted(RequiredAttribute(node, "label", ReadString));
    var value :- Lifted(RequiredAttribute(node, "value", ReadU16));
    Ok(IntegerEnum(value, caption))
  }

  /** `parse_bit`: a required address, an optional label and an optional initial value. */
  function ParseBit(node: Node): (r: Result<Bit, TagError>)
    ensures r.Ok? <==> && "addr" in node.attributes && ReadU16(node.attributes["addr"]).Ok?
                       && ("initial-value" in node.attributes ==> ParsedBit(node.attributes["initial-value"]).Ok?)
    ensures r.Ok? ==> ReadU16(node.attributes["addr"]) == Ok(r.value.address)
    ensures r.Ok? ==> (r.value.initialValue.Some? <==> "initial-value" in node.attributes)
  {
    var address :- Lifted(RequiredAttribute(node, "addr", ReadU16));
    var caption := OptionalText(node, "label");
    var initialValue :- Lifted(OptionalAttribute(node, "initial-value", ParsedBit));
    Ok(Bit(address, caption, initialValue))
  }

  /**
   * The attributes of a `field` element up to its bit range: `bit` alone
   * gives a one-bit field, `bit-low` with `bit-high` give the range, and any
   * other combination is an error.
   */
  function FieldHeader(node: Node): (r: Result<(Byte, Byte, Option<string>), TagError>)
    ensures r.Ok? && "bit" in node.attributes ==> r.value.0 == r.value.1 && ReadU8(node.attributes["bit"]) == Ok(r.value.0)
    ensures r.Ok? && "bit" !in node.attributes ==>
              && "bit-low" in node.attributes && ReadU8(node.attributes["bit-low"]) == Ok(r.value.0)
              && "bit-high" in node.attributes && ReadU8(node.attributes["bit-high"]) == Ok(r.value.1)
    ensures r == Err(NewError(node, BitRange)) <==>
              && (forall a | a in {"bit", "bit-low", "bit-high"} && a in node.attributes :: ReadU8(node.attributes[a]).Ok?)
              && !("bit" in node.attributes && "bit-low" !in node.attributes && "bit-high" !in node.attributes)
              && !("bit" !in node.attributes && "bit-low" in node.attributes && "bit-high" in node.attributes)
  {
    var bit :- Lifted(OptionalAttribute(node, "bit", ReadU8));
    var bitLow :- Lifted(OptionalAttribute(node, "bit-low", ReadU8));
    var bitHigh :- Lifted(OptionalAttribute(node, "bit-high", ReadU8));
    var caption := OptionalText(node, "label");
    match (bit, bitLow, bitHigh)
    case (Some(b), None, None) => Ok((b, b, caption))
    case (None, Some(low), Some(high)) => Ok((low, high, caption))
    case _ => Err(NewError(node, BitRange))
  }

  /** The attributes of a `register` or `register-range` element, with no fields or enums yet. */
  function RegisterHeader(node: Node): (r: Result<RegisterRange, TagError>)
    ensures r.Ok? && node.name == "register" ==>
              && r.value.addressLow == r.value.addressHigh
              && "addr" in node.attributes && ReadU16(node.attributes["addr"]) == Ok(r.value.addressLow)
    ensures r.Ok? && node.name != "register" ==>
              && "addr-low" in node.attributes && ReadU16(node.attributes["addr-low"]) == Ok(r.value.addressLow)
              && "addr-high" in node.attributes && ReadU16(node.attributes["addr-high"]) == Ok(r.value.addressHigh)
    ensures r.Ok? ==> r.value.fields == [] && r.value.enums == []
  {
    var addresses :-
      if node.name == "register" then
        var a :- Lifted(RequiredAttribute(node, "addr", ReadU16));
        Ok((a, a))
      else
        var low :- Lifted(RequiredAttribute(node, "addr-low", ReadU16));
        var high :- Lifted(RequiredAttribute(node, "addr-high", ReadU16));
        Ok((low, high));
    var caption := OptionalText(node, "label");
    var initialValue := OptionalText(node, "initial-value");
    var presentation :- ParsePresentation(node);
    var encoding :- ParseEncoding(node);
    Ok(RegisterRange(addresses.0, addresses.1, caption, [], initialValue, presentation, encoding, []))
  }

  // ---------------------------------------------------------------------------
  // What the loops over children return

  /** The error for an element that does not belong where it is. */
  function Unexpected(child: Node): (e: TagError)
    ensures e.pos == child.pos && e.kind == Base(UnexpectedElement)
  {
    NewError(child, Base(UnexpectedElement))
  }

  /** The enums of a `field` element from child i on, after acc. */
  function FieldEnums(node: Node, i: nat, acc: seq<IntegerEnum>): Result<seq<IntegerEnum>, TagError>
    decreases |node.children| - i
  {
    if i >= |node.children| then Ok(acc)
    else
      var child := node.children[i];
      var isElement :- Lifted(CheckElementNs(child));
      if !isElement then FieldEnums(node, i + 1, acc)
      else if child.name == "enum" then
        var e :- ParseEnum(child);
        FieldEnums(node, i + 1, acc + [e])
      else Err(Unexpected(child))
  }

  /** What `parse_register_field` returns. */
  function RegisterFieldOf(node: Node): Result<RegisterField, TagError>
  {
    var header :- FieldHeader(node);
    var presentation :- ParsePresentation(node);
    var enums :- FieldEnums(node, 0, []);
    Ok(RegisterField(header.0, header.1, header.2, presentation, enums))
  }

  /** The fields and enums of a register element from child i on. */
  function RegisterChildren(node: Node, i: nat, fields: seq<RegisterField>, enums: seq<IntegerEnum>)
    : Result<(seq<RegisterField>, seq<IntegerEnum>), TagError>
    decreases |node.children| - i
  {
    if i >= |node.children| then Ok((fields, enums))
    else
      var child := node.children[i];
      var isElement :- Lifted(CheckElementNs(child));
      if !isElement then RegisterChildren(node, i + 1, fields, enums)
      else if child.name == "field" then
        var field :- RegisterFieldOf(child);
        RegisterChildren(node, i + 1, fields + [field], enums)
      else if child.name == "enum" then
        var e :- ParseEnum(child);
        RegisterChildren(node, i + 1, fields, enums + [e])
      else Err(Unexpected(child))
  }

  /** What `parse_register` returns. */
  function RegisterOf(node: Node): Result<RegisterRange, TagError>
  {
    var register :- RegisterHeader(node);
    var children :- RegisterChildren(node, 0, [], []);
    Ok(register.(fields := children.0, enums := children.1))
  }

  /** The registers and groups among the children of parent from child i on, after acc. */
  function RegisterItems(parent: Node, i: nat, acc: seq<TagOrGroup<RegisterRange>>)
    : Result<seq<TagOrGroup<RegisterRange>>, TagError>
    decreases parent, |parent.children| - i
  {
    if i >= |parent.children| then Ok(acc)
    else
      var child := parent.children[i];
      var isElement :- Lifted(CheckElementNs(child));
      if !isElement then RegisterItems(parent, i + 1, acc)
      else if child.name == "register" || child.name == "register-range" then
        var register :- RegisterOf(child);
        RegisterItems(parent, i + 1, acc + [Tag(register)])
      else if child.name == "group" then
        var group :- RegisterGroupOf(child);
        RegisterItems(parent, i + 1, acc + [TagOrGroup.Group(group)])
      else Err(Unexpected(child))
  }

  /** A group's base address: `base-addr`, 0 when absent. */
  function GroupBase(node: Node): Result<Word, TagError>
  {
    var base :- Lifted(OptionalAttribute(node, "base-addr", ReadU16));
    Ok(base.UnwrapOr(0))
  }

  /** What `parse_reg_group` returns. */
  function RegisterGroupOf(node: Node): Result<Group<RegisterRange>, TagError>
    decreases node, |node.children| + 1
  {
    var base :- GroupBase(node);
    var caption := OptionalText(node, "label");
    var tags :- RegisterItems(node, 0, []);
    Ok(Group.Group(base, caption, tags))
  }

  /** The bits and groups among the children of parent from child i on, after acc. */
  function BitItems(parent: Node, i: nat, acc: seq<TagOrGroup<Bit>>): Result<seq<TagOrGroup<Bit>>, TagError>
    decreases parent, |parent.children| - i
  {
    if i >= |parent.children| then Ok(acc)
    else
      var child := parent.children[i];
      var isElement :- Lifted(CheckElementNs(child));
      if !isElement then BitItems(parent, i + 1, acc)
      else if child.name == "bit" then
        var bit :- ParseBit(child);
        BitItems(parent, i + 1, acc + [Tag(bit)])
      else if child.name == "group" then
        var group :- BitGroupOf(child);
        BitItems(parent, i + 1, acc + [TagOrGroup.Group(group)])
      else Err(Unexpected(child))
  }

  /** What `parse_bit_group` returns. */
  function BitGroupOf(node: Node): Result<Group<Bit>, TagError>
    decreases node, |node.children| + 1
  {
    var base :- GroupBase(node);
    var caption := OptionalText(node, "label");
    var tags :- BitItems(node, 0, []);
    Ok(Group.Group(base, caption, tags))
  }

  /** The four sections as far as child i: the last section of each name counts. */
  datatype Sections = Sections(holdingRegisters: Option<seq<TagOrGroup<RegisterRange>>>,
                               inputRegisters: Option<seq<TagOrGroup<RegisterRange>>>,
                               discreteInputs: Option<seq<TagOrGroup<Bit>>>,
                               coils: Option<seq<TagOrGroup<Bit>>>)

  /** What `parse_tag_list` returns, going on from child i with the sections found so far. */
  function TagListFrom(node: Node, i: nat, found: Sections): Result<TagDefList, TagError>
    decreases |node.children| - i
  {
    if i >= |node.children| then
      Ok(TagDefList(found.holdingRegisters.UnwrapOr([]), found.inputRegisters.UnwrapOr([]),
                    found.discreteInputs.UnwrapOr([]), found.coils.UnwrapOr([])))
    else
      var child := node.children[i];
      var isElement :- Lifted(CheckElementNs(child));
      if !isElement then TagListFrom(node, i + 1, found)
      else if child.name == "holding-registers" then
        var regs :- RegisterItems(child, 0, []);
        TagListFrom(node, i + 1, found.(holdingRegisters := Some(regs)))
      else if child.name == "input-registers" then
        var regs :- RegisterItems(child, 0, []);
        TagListFrom(node, i + 1, found.(inputRegisters := Some(regs)))
      else if child.name == "discrete-inputs" then
        var bits :- BitItems(child, 0, []);
        TagListFrom(node, i + 1, found.(discreteInputs := Some(bits)))
      else if child.name == "coils" then
        var bits :- BitItems(child, 0, []);
        TagListFrom(node, i + 1, found.(coils := Some(bits)))
      else Err(Unexpected(child))
  }

  function TagListOf(node: Node): Result<TagDefList, TagError>
  {
    TagListFrom(node, 0, Sections(None, None, None, None))
  }

  // ---------------------------------------------------------------------------
  // The parsers with loops

  /** `parse_register_field` */
  method ParseRegisterField(node: Node) returns (r: Result<RegisterField, TagError>)
    ensures r == RegisterFieldOf(node)
  {
    var header :- FieldHeader(node);
    var presentation :- ParsePresentation(node);
    var enums := [];
    for i := 0 to |node.children|
      invariant FieldEnums(node, 0, []) == FieldEnums(node, i, enums)
    {
      var child := node.children[i];
      var isElement :- Lifted(CheckElementNs(child));
      if isElement {
        if child.name == "enum" {
          var e :- ParseEnum(child);
          enums := enums + [e];
        } else {
          return Err(Unexpected(child));
        }
      }
    }
    return Ok(RegisterField(header.0, header.1, header.2, presentation, enums));
  }

  /** `parse_register` */
  method ParseRegister(node: Node) returns (r: Result<RegisterRange, TagError>)
    ensures r == RegisterOf(node)
  {
    var register :- RegisterHeader(node);
    var fields, enums := [], [];
    for i := 0 to |node.children|
      invariant RegisterChildren(node, 0, [], []) == RegisterChildren(node, i, fields, enums)
    {
      var child := node.children[i];
      var isElement :- Lifted(CheckElementNs(child));
      if isElement {
        if child.name == "field" {
          var field :- ParseRegisterField(child);
          fields := fields + [field];
        } else if child.name == "enum" {
          var e :- ParseEnum(child);
          enums := enums + [e];
        } else {
          return Err(Unexpected(child));
        }
      }
    }
    return Ok(register.(fields := fields, enums := enums));
  }

  /** `parse_registers_or_groups` */
  method ParseRegistersOrGroups(parent: Node) returns (r: Result<seq<TagOrGroup<RegisterRange>>, TagError>)
    ensures r == RegisterItems(parent, 0, [])
    decreases parent, |parent.children|
  {
    var regs := [];
    for i := 0 to |parent.children|
      invariant RegisterItems(parent, 0, []) == RegisterItems(parent, i, regs)
    {
      var child := parent.children[i];
      var isElement :- Lifted(CheckElementNs(child));
      if isElement {
        if child.name == "register" || child.name == "register-range" {
          var register :- ParseRegister(child);
          regs := regs + [Tag(register)];
        } else if child.name == "group" {
          var group :- ParseRegGroup(child);
          regs := regs + [TagOrGroup.Group(group)];
        } else {
          return Err(Unexpected(child));
        }
      }
    }
    return Ok(regs);
  }

  /** `parse_reg_group` */
  method ParseRegGroup(node: Node) returns (r: Result<Group<RegisterRange>, TagError>)
    ensures r == RegisterGroupOf(node)
    decreases node, |node.children| + 1
  {
    var base :- GroupBase(node);
    var caption := OptionalText(node, "label");
    var tags :- ParseRegistersOrGroups(node);
    return Ok(Group.Group(base, caption, tags));
  }

  /** `parse_bits_or_groups` */
  method ParseBitsOrGroups(parent: Node) returns (r: Result<seq<TagOrGroup<Bit>>, TagError>)
    ensures r == BitItems(parent, 0, [])
    decreases parent, |parent.children|
  {
    var bits := [];
    for i := 0 to |parent.children|
      invariant BitItems(parent, 0, []) == BitItems(parent, i, bits)
    {
      var child := parent.children[i];
      var isElement :- Lifted(CheckElementNs(child));
      if isElement {
        if child.name == "bit" {
          var bit :- ParseBit(child);
          bits := bits + [Tag(bit)];
        } else if child.name == "group" {
          var group :- ParseBitGroup(child);
          bits := bits + [TagOrGroup.Group(group)];
        } else {
          return Err(Unexpected(child));
        }
      }
    }
    return Ok(bits);
  }

  /** `parse_bit_group` */
  method ParseBitGroup(node: Node) returns (r: Result<Group<Bit>, TagError>)
    ensures r == BitGroupOf(node)
    decreases node, |node.children| + 1
  {
    var base :- GroupBase(node);
    var caption := OptionalText(node, "label");
    var tags :- ParseBitsOrGroups(node);
    return Ok(Group.Group(base, caption, tags));
  }

  /** `parse_tag_list` */
  method ParseTagList(node: Node) returns (r: Result<TagDefList, TagError>)
    ensures r == TagListOf(node)
  {
    var holdingRegisters, inputRegisters, discreteInputs, coils := None, None, None, None;
    for i := 0 to |node.children|
      invariant TagListOf(node) ==
                TagListFrom(node, i, Sections(holdingRegisters, inputRegisters, discreteInputs, coils))
    {
      var child := node.children[i];
      var isElement :- Lifted(CheckElementNs(child));
      if isElement {
        if child.name == "holding-registers" {
          var regs :- ParseRegistersOrGroups(child);
          holdingRegisters := Some(regs);
        } else if child.name == "input-registers" {
          var regs :- ParseRegistersOrGroups(child);
          inputRegisters := Some(regs);
        } else if child.name == "discrete-inputs" {
          var bits :- ParseBitsOrGroups(child);
          discreteInputs := Some(bits);
        } else if child.name == "coils" {
          var bits :- ParseBitsOrGroups(child);
          coils := Some(bits);
        } else {
          return Err(Unexpected(child));
        }
      }
    }
    return Ok(TagDefList(holdingRegisters.UnwrapOr([]), inputRegisters.UnwrapOr([]),
                         discreteInputs.UnwrapOr([]), coils.UnwrapOr([])));
  }

  // ---------------------------------------------------------------------------
  // What the list parsers promise

  /** The element children among cs, in document order. */
  function Elements(cs: seq<Node>): (r: seq<Node>)
    ensures |r| <= |cs|
    ensures forall i :: 0 <= i < |r| ==> r[i].kind == Element
    ensures forall n :: n in cs && n.kind == Element ==> n in r
  {
    if cs == [] then [] else (if cs[0].kind == Element then [cs[0]] else []) + Elements(cs[1..])
  }

  /** Whitespace, or an element of the configuration namespaces with one of the given names. */
  predicate AcceptedAmong(child: Node, names: set<string>)
  {
    CheckElementNs(child) == Ok(false) || (CheckElementNs(child) == Ok(true) && child.name in names)
  }

  /** One item per element child, each a group exactly when that element is a `group`. */
  predicate Matches<T>(items: seq<TagOrGroup<T>>, elements: seq<Node>)
  {
    |items| == |elements| && forall k | 0 <= k < |elements| :: items[k].Group? <==> elements[k].name == "group"
  }

  /** Putting the item of one more child in front keeps items and elements matched. */
  lemma ShapeStep<T>(items: seq<TagOrGroup<T>>, acc: seq<TagOrGroup<T>>, item: seq<TagOrGroup<T>>, child: Node, rest: seq<Node>)
    requires |item| <= 1 && (|item| == 1 <==> child.kind == Element)
    requires |item| == 1 ==> (item[0].Group? <==> child.name == "group")
    requires |acc| + |item| <= |items| && items[..|acc| + |item|] == acc + item
    requires Matches(items[|acc| + |item|..], Elements(rest))
    ensures items[..|acc|] == acc && Matches(items[|acc|..], Elements([child] + rest))
  {
    assert ([child] + rest)[0] == child && ([child] + rest)[1..] == rest;
    assert items[..|acc|] == (items[..|acc| + |item|])[..|acc|];
    if |item| == 1 {
      assert Elements([child] + rest) == [child] + Elements(rest);
      assert items[|acc|] == item[0];
      assert items[|acc|..] == [item[0]] + items[|acc| + 1..];
      MatchesCons(item[0], child, items[|acc| + 1..], Elements(rest));
    } else {
      assert Elements([child] + rest) == Elements(rest);
      assert items[|acc|..] == items[|acc| + |item|..];
    }
  }

  lemma MatchesCons<T>(item: TagOrGroup<T>, child: Node, items: seq<TagOrGroup<T>>, elements: seq<Node>)
    requires Matches(items, elements) && (item.Group? <==> child.name == "group")
    ensures Matches([item] + items, [child] + elements)
  {
    forall k | 0 < k < |elements| + 1
      ensures ([item] + items)[k].Group? <==> ([child] + elements)[k].name == "group"
    {
      assert ([item] + items)[k] == items[k - 1] && ([child] + elements)[k] == elements[k - 1];
    }
  }

  lemma RegisterItemsStep(parent: Node, i: nat, acc: seq<TagOrGroup<RegisterRange>>) returns (item: seq<TagOrGroup<RegisterRange>>)
    requires i < |parent.children| && RegisterItems(parent, i, acc).Ok?
    ensures var child := parent.children[i];
            && AcceptedAmong(child, RegisterChildNames)
            && |item| <= 1 && (|item| == 1 <==> child.kind == Element)
            && (|item| == 1 ==> (item[0].Group? <==> child.name == "group"))
            && RegisterItems(parent, i, acc) == RegisterItems(parent, i + 1, acc + item)
  {
    var child := parent.children[i];
    if CheckElementNs(child) != Ok(true) {
      item := [];
      assert acc + item == acc;
    } else if child.name == "group" {
      item := [TagOrGroup.Group(RegisterGroupOf(child).value)];
    } else {
      item := [Tag(RegisterOf(child).value)];
    }
  }


  /**
   * A register list that parses has only registers, register ranges, groups
   * and whitespace among its children, and holds one item per element child,
   * in document order, each a group exactly when that element is a `group`.
   */
  lemma RegisterItemsShape(parent: Node, i: nat, acc: seq<TagOrGroup<RegisterRange>>)
    requires i <= |parent.children|
    ensures RegisterItems(parent, i, acc).Ok? ==>
              && (forall j | i <= j < |parent.children| ::
                    AcceptedAmong(parent.children[j], {"register", "register-range", "group"}))
              && var items := RegisterItems(parent, i, acc).value;
                 |acc| <= |items| && items[..|acc|] == acc && Matches(items[|acc|..], Elements(parent.children[i..]))
  {
    RegisterItemsAccepted(parent, i, acc);
    RegisterItemsMatched(parent, i, acc);
  }

  const RegisterChildNames: set<string> := {"register", "register-range", "group"}

  lemma RegisterItemsAccepted(parent: Node, i: nat, acc: seq<TagOrGroup<RegisterRange>>)
    requires i <= |parent.children|
    ensures RegisterItems(parent, i, acc).Ok? ==>
              forall j | i <= j < |parent.children| :: AcceptedAmong(parent.children[j], RegisterChildNames)
  {
    if RegisterItems(parent, i, acc).Ok? {
      forall j | i <= j < |parent.children|
        ensures AcceptedAmong(parent.children[j], RegisterChildNames)
      {
        RegisterItemAccepted(parent, i, acc, j);
      }
    }
  }

  lemma {:induction false} RegisterItemAccepted(parent: Node, i: nat, acc: seq<TagOrGroup<RegisterRange>>, j: nat)
    requires i <= j < |parent.children| && RegisterItems(parent, i, acc).Ok?
    ensures AcceptedAmong(parent.children[j], RegisterChildNames)
    decreases j - i
  {
    var item := RegisterItemsStep(parent, i, acc);
    if i < j {
      RegisterItemAccepted(parent, i + 1, acc + item, j);
    }
  }


  lemma {:induction false} RegisterItemsMatched(parent: Node, i: nat, acc: seq<TagOrGroup<RegisterRange>>)
    requires i <= |parent.children|
    ensures RegisterItems(parent, i, acc).Ok? ==>
              var items := RegisterItems(parent, i, acc).value;
              |acc| <= |items| && items[..|acc|] == acc && Matches(items[|acc|..], Elements(parent.children[i..]))
    decreases |parent.children| - i
  {
    var children := parent.children;
    if i < |children| && RegisterItems(parent, i, acc).Ok? {
      var child := children[i];
      assert children[i..] == [child] + children[i + 1..];
      var item := RegisterItemsStep(parent, i, acc);
      RegisterItemsMatched(parent, i + 1, acc + item);
      ShapeStep(RegisterItems(parent, i, acc).value, acc, item, child, children[i + 1..]);
    }
  }

  lemma BitItemsStep(parent: Node, i: nat, acc: seq<TagOrGroup<Bit>>) returns (item: seq<TagOrGroup<Bit>>)
    requires i < |parent.children| && BitItems(parent, i, acc).Ok?
    ensures var child := parent.children[i];
            && AcceptedAmong(child, {"bit", "group"})
            && |item| <= 1 && (|item| == 1 <==> child.kind == Element)
            && (|item| == 1 ==> (item[0].Group? <==> child.name == "group"))
            && BitItems(parent, i, acc) == BitItems(parent, i + 1, acc + item)
  {
    var child := parent.children[i];
    if CheckElementNs(child) != Ok(true) {
      item := [];
      assert acc + item == acc;
    } else if child.name == "group" {
      item := [TagOrGroup.Group(BitGroupOf(child).value)];
    } else {
      item := [Tag(ParseBit(child).value)];
    }
  }


  /** The same for a list of bits and groups. */
  lemma BitItemsShape(parent: Node, i: nat, acc: seq<TagOrGroup<Bit>>)
    requires i <= |parent.children|
    ensures BitItems(parent, i, acc).Ok? ==>
              && (forall j | i <= j < |parent.children| :: AcceptedAmong(parent.children[j], {"bit", "group"}))
              && var items := BitItems(parent, i, acc).value;
                 |acc| <= |items| && items[..|acc|] == acc && Matches(items[|acc|..], Elements(parent.children[i..]))
  {
    BitItemsAccepted(parent, i, acc);
    BitItemsMatched(parent, i, acc);
  }

  lemma BitItemsAccepted(parent: Node, i: nat, acc: seq<TagOrGroup<Bit>>)
    requires i <= |parent.children|
    ensures BitItems(parent, i, acc).Ok? ==>
              forall j | i <= j < |parent.children| :: AcceptedAmong(parent.children[j], {"bit", "group"})
  {
    if BitItems(parent, i, acc).Ok? {
      forall j | i <= j < |parent.children|
        ensures AcceptedAmong(parent.children[j], {"bit", "group"})
      {
        BitItemAccepted(parent, i, acc, j);
      }
    }
  }

  lemma {:induction false} BitItemAccepted(parent: Node, i: nat, acc: seq<TagOrGroup<Bit>>, j: nat)
    requires i <= j < |parent.children| && BitItems(parent, i, acc).Ok?
    ensures AcceptedAmong(parent.children[j], {"bit", "group"})
    decreases j - i
  {
    var item := BitItemsStep(parent, i, acc);
    if i < j {
      BitItemAccepted(parent, i + 1, acc + item, j);
    }
  }


  lemma {:induction false} BitItemsMatched(parent: Node, i: nat, acc: seq<TagOrGroup<Bit>>)
    requires i <= |parent.children|
    ensures BitItems(parent, i, acc).Ok? ==>
              var items := BitItems(parent, i, acc).value;
              |acc| <= |items| && items[..|acc|] == acc && Matches(items[|acc|..], Elements(parent.children[i..]))
    decreases |parent.children| - i
  {
    var children := parent.children;
    if i < |children| && BitItems(parent, i, acc).Ok? {
      var child := children[i];
      assert children[i..] == [child] + children[i + 1..];
      var item := BitItemsStep(parent, i, acc);
      BitItemsMatched(parent, i + 1, acc + item);
      ShapeStep(BitItems(parent, i, acc).value, acc, item, child, children[i + 1..]);
    }
  }

  /** No element child from i on has this name. */
  predicate Absent(node: Node, i: nat, name: string)
  {
    forall j | i <= j < |node.children| :: node.children[j].kind != Element || node.children[j].name != name
  }

  const SectionNames: set<string> := {"holding-registers", "input-registers", "discrete-inputs", "coils"}

  /**
   * One step of a tag list that parses: a section child is stored under its
   * own name, whitespace skipped, and no other section changes.
   */
  lemma TagListStep(node: Node, i: nat, found: Sections) returns (next: Sections)
    requires i < |node.children| && TagListFrom(node, i, found).Ok?
    ensures var child := node.children[i];
            var element := child.kind == Element;
            && AcceptedAmong(child, SectionNames)
            && TagListFrom(node, i, found) == TagListFrom(node, i + 1, next)
            && (!element || child.name != "holding-registers" ==> next.holdingRegisters == found.holdingRegisters)
            && (!element || child.name != "input-registers" ==> next.inputRegisters == found.inputRegisters)
            && (!element || child.name != "discrete-inputs" ==> next.discreteInputs == found.discreteInputs)
            && (!element || child.name != "coils" ==> next.coils == found.coils)
  {
    var child := node.children[i];
    if CheckElementNs(child) != Ok(true) {
      next := found;
    } else if child.name == "holding-registers" {
      next := found.(holdingRegisters := Some(RegisterItems(child, 0, []).value));
    } else if child.name == "input-registers" {
      next := found.(inputRegisters := Some(RegisterItems(child, 0, []).value));
    } else if child.name == "discrete-inputs" {
      next := found.(discreteInputs := Some(BitItems(child, 0, []).value));
    } else {
      next := found.(coils := Some(BitItems(child, 0, []).value));
    }
  }

  /**
   * A tag list that parses has only the four sections and whitespace among
   * its children, and a section that does not appear is empty.
   */
  lemma TagListSections(node: Node, i: nat, found: Sections)
    requires i <= |node.children|
    ensures TagListFrom(node, i, found).Ok? ==>
              && (forall j | i <= j < |node.children| ::
                    AcceptedAmong(node.children[j], {"holding-registers", "input-registers", "discrete-inputs", "coils"}))
              && var list := TagListFrom(node, i, found).value;
                 && (Absent(node, i, "holding-registers") ==> list.holdingRegisters == found.holdingRegisters.UnwrapOr([]))
                 && (Absent(node, i, "input-registers") ==> list.inputRegisters == found.inputRegisters.UnwrapOr([]))
                 && (Absent(node, i, "discrete-inputs") ==> list.discreteInputs == found.discreteInputs.UnwrapOr([]))
                 && (Absent(node, i, "coils") ==> list.coils == found.coils.UnwrapOr([]))
  {
    if TagListFrom(node, i, found).Ok? {
      forall j | i <= j < |node.children|
        ensures AcceptedAmong(node.children[j], SectionNames)
      {
        TagListAccepted(node, i, found, j);
      }
    }
    TagListAbsent(node, i, found);
  }

  /** Every child of a tag list that parses is one of the four sections or whitespace. */
  lemma {:induction false} TagListAccepted(node: Node, i: nat, found: Sections, j: nat)
    requires i <= j < |node.children| && TagListFrom(node, i, found).Ok?
    ensures AcceptedAmong(node.children[j], SectionNames)
    decreases j - i
  {
    var next := TagListStep(node, i, found);
    if i < j {
      TagListAccepted(node, i + 1, next, j);
    }
  }

  /** A section that does not appear from i on keeps what was found before i. */
  lemma {:induction false} TagListAbsent(node: Node, i: nat, found: Sections)
    requires i <= |node.children|
    ensures TagListFrom(node, i, found).Ok? ==>
              var list := TagListFrom(node, i, found).value;
              && (Absent(node, i, "holding-registers") ==> list.holdingRegisters == found.holdingRegisters.UnwrapOr([]))
              && (Absent(node, i, "input-registers") ==> list.inputRegisters == found.inputRegisters.UnwrapOr([]))
              && (Absent(node, i, "discrete-inputs") ==> list.discreteInputs == found.discreteInputs.UnwrapOr([]))
              && (Absent(node, i, "coils") ==> list.coils == found.coils.UnwrapOr([]))
    decreases |node.children| - i
  {
    if i < |node.children| && TagListFrom(node, i, found).Ok? {
      var next := TagListStep(node, i, found);
      TagListAbsent(node, i + 1, next);
    }
  }
}
