/**
 * The configuration shapes: encodings (src/encoding.rs), presentation as
 * tag_list_xml.rs fills it, register ranges, bits, nested groups and the
 * tag definition list of one device, and the flat tag list that
 * src/tag_ranges.rs reads.
 */
module TagLists {
  import opened Wrappers
  import opened Numbers

  datatype ByteOrder = BigEndian | LittleEndian

  datatype WordOrder = BigEndian | LittleEndian

  /** How the words of a register range are read: an integer, a float, or text padded with `fill`. */
  datatype ValueType = Integer(signed: bool) | Float | String(fill: Byte)

  datatype Encoding = Encoding(value: ValueType, byteOrder: ByteOrder, wordOrder: WordOrder)

  /** Display settings; the `f32` scale is kept as a real number. */
  datatype Presentation = Presentation(radix: Byte, decimals: Byte, scale: real, unit: Option<string>)

  /** One named value of an enumerated register or field. */
  datatype IntegerEnum = IntegerEnum(value: Word, caption: string)

  /** A bit sub-field `bit_low..=bit_high` of a register. */
  datatype RegisterField = RegisterField(bitLow: Byte, bitHigh: Byte, caption: Option<string>,
                                         presentation: Presentation, enums: seq<IntegerEnum>)

  /** Registers `address_low..=address_high` holding one value. */
  datatype RegisterRange = RegisterRange(addressLow: Word, addressHigh: Word, caption: Option<string>,
                                         fields: seq<RegisterField>, initialValue: Option<string>,
                                         presentation: Presentation, encoding: Encoding,
                                         enums: seq<IntegerEnum>)

  /** A coil or discrete input. */
  datatype Bit = Bit(address: Word, caption: Option<string>, initialValue: Option<bool>)

  /** A group adds `base_address` to the addresses of everything inside it. */
  datatype Group<T> = Group(baseAddress: Word, caption: Option<string>, tags: seq<TagOrGroup<T>>)

  datatype TagOrGroup<T> = Tag(tag: T) | Group(group: Group<T>)

  /** The four register areas of one device, as configured. */
  datatype TagDefList = TagDefList(holdingRegisters: seq<TagOrGroup<RegisterRange>>,
                                   inputRegisters: seq<TagOrGroup<RegisterRange>>,
                                   discreteInputs: seq<TagOrGroup<Bit>>,
                                   coils: seq<TagOrGroup<Bit>>)

  /** The flat lists that `TagRanges::from` walks. */
  datatype TagList = TagList(inputRegisters: seq<RegisterRange>, holdingRegisters: seq<RegisterRange>,
                             discreteInputs: seq<Bit>, coils: seq<Bit>)

  /** A tag together with the base address its enclosing groups add up to. */
  datatype Placed<T> = Placed(tag: T, base: int)

  /**
   * The depth-first walk over tags and groups that `tag_iter` performs:
   * every tag in document order, each with the sum of the base addresses
   * of the groups around it added to `base`.
   */
  function TagIter<T>(list: seq<TagOrGroup<T>>, base: int): seq<Placed<T>>
    decreases list
  {
    if list == [] then [] else TagIterOne(list[0], base) + TagIter(list[1..], base)
  }

  function TagIterOne<T>(item: TagOrGroup<T>, base: int): seq<Placed<T>>
    decreases item
  {
    match item
    case Tag(t) => [Placed(t, base)]
    case Group(g) => TagIter(g.tags, base + g.baseAddress)
  }

  /** The walk over two lists one after the other is the walk over the first, then over the second. */
  lemma {:induction false} TagIterAppend<T>(a: seq<TagOrGroup<T>>, b: seq<TagOrGroup<T>>, base: int)
    ensures TagIter(a + b, base) == TagIter(a, base) + TagIter(b, base)
    decreases a
  {
    if a == [] {
      assert a + b == b;
    } else {
      assert (a + b)[0] == a[0] && (a + b)[1..] == a[1..] + b;
      TagIterAppend(a[1..], b, base);
    }
  }

  /** The register range, moved to its group base, still has 16-bit addresses. */
  predicate RegisterFits(p: Placed<RegisterRange>)
  {
    0 <= p.base && p.tag.addressLow + p.base < 0x1_0000 && p.tag.addressHigh + p.base < 0x1_0000
  }

  predicate BitFits(p: Placed<Bit>)
  {
    0 <= p.base && p.tag.address + p.base < 0x1_0000
  }

  /** Adding group bases to the addresses of a device's tags never leaves the 16-bit range. */
  predicate AddressesFit(defs: TagDefList)
  {
    && (forall p | p in TagIter(defs.holdingRegisters, 0) :: RegisterFits(p))
    && (forall p | p in TagIter(defs.inputRegisters, 0) :: RegisterFits(p))
    && (forall p | p in TagIter(defs.discreteInputs, 0) :: BitFits(p))
    && (forall p | p in TagIter(defs.coils, 0) :: BitFits(p))
  }

  function PlaceRegister(p: Placed<RegisterRange>): RegisterRange
    requires RegisterFits(p)
  {
    p.tag.(addressLow := p.tag.addressLow + p.base, addressHigh := p.tag.addressHigh + p.base)
  }

  function PlaceBit(p: Placed<Bit>): Bit
    requires BitFits(p)
  {
    p.tag.(address := p.tag.address + p.base)
  }

  /** The flat list of one device: every tag of every area at its absolute address. */
  function Flatten(defs: TagDefList): TagList
    requires AddressesFit(defs)
  {
    var hr, ir := TagIter(defs.holdingRegisters, 0), TagIter(defs.inputRegisters, 0);
    var di, co := TagIter(defs.discreteInputs, 0), TagIter(defs.coils, 0);
    TagList(seq(|ir|, i requires 0 <= i < |ir| => PlaceRegister(ir[i])),
            seq(|hr|, i requires 0 <= i < |hr| => PlaceRegister(hr[i])),
            seq(|di|, i requires 0 <= i < |di| => PlaceBit(di[i])),
            seq(|co|, i requires 0 <= i < |co| => PlaceBit(co[i])))
  }
}
