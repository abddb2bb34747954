/**
 * src/tag_list_json.rs: the tag lists of a device as JSON, for the web
 * page. A tag becomes an object of its addresses, label, presentation and
 * encoding; a group an object with its address, label and children; a list
 * an array of one-member objects, "tag" or "group". Addresses inside a
 * group are shown with the bases of the enclosing groups added, and, when
 * that sum is not zero, also as written ("rel").
 */
module TagListJson {
  import opened Wrappers
  import opened Numbers
  import opened TagLists

  /** A JSON value; an object's members are kept by name, as `serde_json::Map` keeps them. */
  datatype Value =
    | Null
    | Boolean(b: bool)
    | Number(n: int)
    | Real(r: real)
    | Text(s: string)
    | Array(items: seq<Value>)
    | Object(members: map<string, Value>)

  // ---------------------------------------------------------------------------
  // presentation_attributes, encoding_attributes

  /** The names `presentation_attributes` may insert. */
  const PresentationKeys: set<string> := {"scale", "unit", "radix", "decimals"}

  /** The names `encoding_attributes` may insert. */
  const EncodingKeys: set<string> := {"value_type", "sign", "fill", "byte-order", "word-order"}

  /** Reads a presentation back from the members of an object. */
  function PresentationOf(m: map<string, Value>): Option<Presentation>
  {
    if "scale" in m && "radix" in m && "decimals" in m && m["scale"].Real? && m["radix"].Number? &&
       m["decimals"].Number? && 0 <= m["radix"].n < 0x100 && 0 <= m["decimals"].n < 0x100 &&
       ("unit" in m ==> m["unit"].Text?)
    then Some(Presentation(m["radix"].n, m["decimals"].n, m["scale"].r,
                           if "unit" in m then Some(m["unit"].s) else None))
    else None
  }

  /** `presentation_attributes`: what it inserts, every setting of the presentation, readable back. */
  function PresentationMembers(m: map<string, Value>, p: Presentation): (r: map<string, Value>)
    ensures r.Keys == m.Keys + {"scale", "radix", "decimals"} + (if p.unit.Some? then {"unit"} else {})
    ensures forall k | k in m && k !in PresentationKeys :: r[k] == m[k]
    ensures "unit" !in m ==> PresentationOf(r) == Some(p)
  {
    var m1 := m["scale" := Real(p.scale)];
    var m2 := if p.unit.Some? then m1["unit" := Text(p.unit.value)] else m1;
    m2["radix" := Number(p.radix)]["decimals" := Number(p.decimals)]
  }

  function SignName(signed: bool): string
  {
    if signed then "signed" else "unsigned"
  }

  function OrderName(little: bool): string
  {
    if little then "little" else "big"
  }

  /** Reads a byte or word order back: true for "little". */
  function OrderOf(v: Value): Option<bool>
  {
    if v == Text("little") then Some(true) else if v == Text("big") then Some(false) else None
  }

  /** Reads a value type back from the members of an object. */
  function ValueTypeOf(m: map<string, Value>): Option<ValueType>
  {
    if "value_type" !in m then None
    else if m["value_type"] == Text("integer") && "sign" in m then
      if m["sign"] == Text("signed") then Some(Integer(true))
      else if m["sign"] == Text("unsigned") then Some(Integer(false))
      else None
    else if m["value_type"] == Text("float") then Some(Float)
    else if m["value_type"] == Text("string") && "fill" in m && m["fill"].Number? && 0 <= m["fill"].n < 0x100 then
      Some(ValueType.String(m["fill"].n))
    else None
  }

  /** Reads an encoding back from the members of an object. */
  function EncodingOf(m: map<string, Value>): Option<Encoding>
  {
    if "byte-order" !in m || "word-order" !in m then None
    else
      match (ValueTypeOf(m), OrderOf(m["byte-order"]), OrderOf(m["word-order"]))
      case (Some(v), Some(byteLittle), Some(wordLittle)) =>
        Some(Encoding(v, if byteLittle then ByteOrder.LittleEndian else ByteOrder.BigEndian,
                      if wordLittle then WordOrder.LittleEndian else WordOrder.BigEndian))
      case _ => None
  }

  /** The value type part of `encoding_attributes`: the type's name with its sign or fill. */
  function ValueTypeMembers(m: map<string, Value>, v: ValueType): (r: map<string, Value>)
    ensures r.Keys == m.Keys + {"value_type"} + (if v.Integer? then {"sign"} else {}) + (if v.String? then {"fill"} else {})
    ensures forall k | k in m && k !in {"value_type", "sign", "fill"} :: r[k] == m[k]
  {
    match v
    case Integer(signed) => m["value_type" := Text("integer")]["sign" := Text(SignName(signed))]
    case Float => m["value_type" := Text("float")]
    case String(fill) => m["value_type" := Text("string")]["fill" := Number(fill)]
  }

  /** The value type is read back from what `encoding_attributes` inserts. */
  lemma ValueTypeReadBack(m: map<string, Value>, v: ValueType)
    requires "sign" !in m && "fill" !in m
    ensures ValueTypeOf(ValueTypeMembers(m, v)) == Some(v)
  {
  }

  /** `encoding_attributes`: the value type with its sign or fill, and both orders. */
  function EncodingMembers(m: map<string, Value>, e: Encoding): (r: map<string, Value>)
    ensures r.Keys == m.Keys + {"value_type", "byte-order", "word-order"} +
                      (if e.value.Integer? then {"sign"} else {}) + (if e.value.String? then {"fill"} else {})
    ensures forall k | k in m && k !in EncodingKeys :: r[k] == m[k]
  {
    ValueTypeMembers(m, e.value)["byte-order" := Text(OrderName(e.byteOrder.LittleEndian?))]
      ["word-order" := Text(OrderName(e.wordOrder.LittleEndian?))]
  }

  /** The encoding is read back from what `encoding_attributes` inserts. */
  lemma EncodingReadBack(m: map<string, Value>, e: Encoding)
    requires "sign" !in m && "fill" !in m
    ensures EncodingOf(EncodingMembers(m, e)) == Some(e)
  {
    var m1 := ValueTypeMembers(m, e.value);
    var r := EncodingMembers(m, e);
    ValueTypeReadBack(m, e.value);
    assert ValueTypeOf(r) == ValueTypeOf(m1) by {
      assert forall k | k in {"value_type", "sign", "fill"} :: (k in r <==> k in m1) && (k in r ==> r[k] == m1[k]);
    }
  }

  // ---------------------------------------------------------------------------
  // build_tag

  /** The names of a register object besides its presentation and encoding. */
  const RegisterAddressKeys: set<string> := {"addr", "rel", "addr_low", "addr_high", "rel_low", "rel_high", "label"}

  /** The names a register object may have. */
  const RegisterKeys: set<string> := RegisterAddressKeys + PresentationKeys + EncodingKeys

  /** The three groups of names do not overlap. */
  lemma KeysDisjoint()
    ensures RegisterAddressKeys !! PresentationKeys && RegisterAddressKeys !! EncodingKeys
    ensures PresentationKeys !! EncodingKeys
  {
  }

  /** The presentation read back depends only on the presentation's names. */
  lemma PresentationOfLocal(a: map<string, Value>, b: map<string, Value>)
    requires forall k | k in PresentationKeys :: (k in a <==> k in b) && (k in a ==> a[k] == b[k])
    ensures PresentationOf(a) == PresentationOf(b)
  {
    assert "scale" in PresentationKeys && "unit" in PresentationKeys;
    assert "radix" in PresentationKeys && "decimals" in PresentationKeys;
  }

  /** The address and label members of a register object, in the order `build_tag` inserts them. */
  function RegisterAddressMembers(tag: RegisterRange, base: int): (r: map<string, Value>)
    ensures r.Keys <= RegisterAddressKeys
    ensures ("addr" in r <==> tag.addressLow == tag.addressHigh) &&
            ("addr" in r ==> r["addr"] == Number(tag.addressLow + base))
    ensures ("rel" in r <==> tag.addressLow == tag.addressHigh && base != 0) &&
            ("rel" in r ==> r["rel"] == Number(tag.addressLow))
    ensures "addr_low" in r && r["addr_low"] == Number(tag.addressLow + base)
    ensures "addr_high" in r && r["addr_high"] == Number(tag.addressHigh + base)
    ensures ("rel_low" in r <==> base != 0) && ("rel_high" in r <==> base != 0)
    ensures base != 0 ==> r["rel_low"] == Number(tag.addressLow) && r["rel_high"] == Number(tag.addressHigh)
    ensures ("label" in r <==> tag.caption.Some?) && ("label" in r ==> r["label"] == Text(tag.caption.value))
  {
    var m0: map<string, Value> := map[];
    var m1 := if tag.addressLow == tag.addressHigh then m0["addr" := Number(tag.addressLow + base)] else m0;
    var m2 := if tag.addressLow == tag.addressHigh && base != 0 then m1["rel" := Number(tag.addressLow)] else m1;
    var m3 := m2["addr_low" := Number(tag.addressLow + base)]["addr_high" := Number(tag.addressHigh + base)];
    var m4 := if base != 0 then m3["rel_low" := Number(tag.addressLow)]["rel_high" := Number(tag.addressHigh)] else m3;
    if tag.caption.Some? then m4["label" := Text(tag.caption.value)] else m4
  }

  /**
   * `build_tag` of a register range under groups adding up to `base`: the
   * absolute range, the range as written when `base` is not zero, a single
   * register's address as "addr", the label, and presentation and encoding
   * in full.
   */
  function RegisterTagValue(tag: RegisterRange, base: int): (r: Value)
    ensures r.Object? && r.members.Keys <= RegisterKeys
    ensures forall k | k in RegisterAddressKeys ::
              (k in r.members <==> k in RegisterAddressMembers(tag, base)) &&
              (k in r.members ==> r.members[k] == RegisterAddressMembers(tag, base)[k])
  {
    KeysDisjoint();
    Object(EncodingMembers(PresentationMembers(RegisterAddressMembers(tag, base), tag.presentation), tag.encoding))
  }

  /** The presentation and the encoding are read back from a register object. */
  lemma RegisterTagReadBack(tag: RegisterRange, base: int)
    ensures PresentationOf(RegisterTagValue(tag, base).members) == Some(tag.presentation)
    ensures EncodingOf(RegisterTagValue(tag, base).members) == Some(tag.encoding)
  {
    var m5 := RegisterAddressMembers(tag, base);
    KeysDisjoint();
    assert "unit" !in m5;
    var m6 := PresentationMembers(m5, tag.presentation);
    assert "sign" !in m6 && "fill" !in m6;
    var m7 := EncodingMembers(m6, tag.encoding);
    EncodingReadBack(m6, tag.encoding);
    PresentationOfLocal(m6, m7);
  }

  /** `build_tag` of a bit under groups adding up to `base`: its absolute address, as written when `base` is not zero, and its label. */
  function BitTagValue(tag: Bit, base: int): (r: Value)
    ensures r.Object? && r.members.Keys == {"addr"} + (if base != 0 then {"rel"} else {}) +
                                           (if tag.caption.Some? then {"label"} else {})
    ensures r.members["addr"] == Number(tag.address + base)
    ensures base != 0 ==> r.members["rel"] == Number(tag.address)
    ensures tag.caption.Some? ==> r.members["label"] == Text(tag.caption.value)
  {
    var m0: map<string, Value> := map["addr" := Number(tag.address + base)];
    var m1 := if base != 0 then m0["rel" := Number(tag.address)] else m0;
    Object(if tag.caption.Some? then m1["label" := Text(tag.caption.value)] else m1)
  }

  // ---------------------------------------------------------------------------
  // Reading the tags back out of a list

  /** The tag objects of a list value, depth first through the groups' children: how a reader of the JSON finds the tags. */
  function Walk(v: Value): seq<Value>
    decreases v
  {
    if v.Array? then WalkItems(v.items) else []
  }

  function WalkItems(items: seq<Value>): seq<Value>
    decreases items
  {
    if items == [] then [] else WalkItem(items[0]) + WalkItems(items[1..])
  }

  function WalkItem(item: Value): seq<Value>
    decreases item
  {
    if item.Object? && "tag" in item.members then [item.members["tag"]]
    else if item.Object? && "group" in item.members && item.members["group"].Object? &&
            "children" in item.members["group"].members
    then Walk(item.members["group"].members["children"])
    else []
  }

  lemma {:induction false} WalkItemsAppend(a: seq<Value>, b: seq<Value>)
    ensures WalkItems(a + b) == WalkItems(a) + WalkItems(b)
    decreases a
  {
    if a == [] {
      assert a + b == b;
    } else {
      assert (a + b)[0] == a[0] && (a + b)[1..] == a[1..] + b;
      WalkItemsAppend(a[1..], b);
    }
  }

  /** The value of every placed tag, in order. */
  function Values<T>(placed: seq<Placed<T>>, tagValue: (T, int) -> Value): (r: seq<Value>)
    ensures |r| == |placed| && forall k | 0 <= k < |r| :: r[k] == tagValue(placed[k].tag, placed[k].base)
  {
    seq(|placed|, k requires 0 <= k < |placed| => tagValue(placed[k].tag, placed[k].base))
  }

  lemma ValuesAppend<T>(a: seq<Placed<T>>, b: seq<Placed<T>>, tagValue: (T, int) -> Value)
    ensures Values(a + b, tagValue) == Values(a, tagValue) + Values(b, tagValue)
  {
  }

  /** Item k of a list value is a one-member object, "tag" for a tag and "group" for a group. */
  predicate ItemFor<T>(item: Value, t: TagOrGroup<T>)
  {
    item.Object? && item.members.Keys == {if t.Tag? then "tag" else "group"}
  }

  // ---------------------------------------------------------------------------
  // build_group, build_sub_list

  /**
   * `build_group`: the group's absolute address, as written when `base` is
   * not zero, its label, and its children listed with the group's base
   * added.
   */
  method BuildGroup<T>(g: Group<T>, base: int, tagValue: (T, int) -> Value) returns (r: Value)
    ensures r.Object? && r.members.Keys == {"addr", "children"} + (if base != 0 then {"rel"} else {}) +
                                           (if g.caption.Some? then {"label"} else {})
    ensures r.members["addr"] == Number(g.baseAddress + base)
    ensures base != 0 ==> r.members["rel"] == Number(g.baseAddress)
    ensures g.caption.Some? ==> r.members["label"] == Text(g.caption.value)
    ensures Walk(r.members["children"]) == Values(TagIter(g.tags, base + g.baseAddress), tagValue)
    decreases TagOrGroup<T>.Group(g), 0
  {
    var m: map<string, Value> := map["addr" := Number(g.baseAddress + base)];
    if base != 0 {
      m := m["rel" := Number(g.baseAddress)];
    }
    if g.caption.Some? {
      m := m["label" := Text(g.caption.value)];
    }
    var children := BuildSubList(g.tags, base + g.baseAddress, tagValue);
    m := m["children" := children];
    r := Object(m);
  }

  /**
   * `build_sub_list`: one item per tag or group, in order; reading the
   * tags back out of the result gives the walk of `tag_iter`, each tag's
   * value built with the bases of its groups.
   */
  method BuildSubList<T>(tags: seq<TagOrGroup<T>>, base: int, tagValue: (T, int) -> Value) returns (r: Value)
    ensures r.Array? && |r.items| == |tags|
    ensures forall k | 0 <= k < |tags| :: ItemFor(r.items[k], tags[k])
    ensures Walk(r) == Values(TagIter(tags, base), tagValue)
    decreases tags, 2
  {
    var items: seq<Value> := [];
    for i := 0 to |tags|
      invariant |items| == i
      invariant forall k | 0 <= k < i :: ItemFor(items[k], tags[k])
      invariant WalkItems(items) == Values(TagIter(tags[..i], base), tagValue)
    {
      var item := BuildItem(tags[i], base, tagValue);
      WalkItemsAppend(items, [item]);
      assert WalkItems([item]) == WalkItem(item) by {
        assert [item][1..] == [];
      }
      assert tags[..i + 1] == tags[..i] + [tags[i]];
      TagIterAppend(tags[..i], [tags[i]], base);
      ValuesAppend(TagIter(tags[..i], base), TagIter([tags[i]], base), tagValue);
      items := items + [item];
    }
    assert tags[..|tags|] == tags;
    r := Array(items);
  }

  /** One item of `build_sub_list`: a tag's value, or a group built at base. */
  method BuildItem<T>(t: TagOrGroup<T>, base: int, tagValue: (T, int) -> Value) returns (item: Value)
    ensures ItemFor(item, t)
    ensures WalkItem(item) == Values(TagIter([t], base), tagValue)
    decreases t, 1
  {
    assert [t][1..] == [];
    if t.Tag? {
      item := Object(map["tag" := tagValue(t.tag, base)]);
    } else {
      var v := BuildGroup(t.group, base, tagValue);
      item := Object(map["group" := v]);
    }
  }

  /**
   * `build_register_list`: the top-level register list; the k-th tag read
   * back is the k-th register of `tag_iter`, at its absolute addresses.
   */
  method BuildRegisterList(tags: seq<TagOrGroup<RegisterRange>>) returns (r: Value)
    ensures r.Array? && |r.items| == |tags|
    ensures forall k | 0 <= k < |tags| :: ItemFor(r.items[k], tags[k])
    ensures Walk(r) == Values(TagIter(tags, 0), RegisterTagValue)
    ensures |Walk(r)| == |TagIter(tags, 0)| &&
            forall k | 0 <= k < |Walk(r)| ::
              Walk(r)[k].members["addr_low"] == Number(TagIter(tags, 0)[k].tag.addressLow + TagIter(tags, 0)[k].base) &&
              Walk(r)[k].members["addr_high"] == Number(TagIter(tags, 0)[k].tag.addressHigh + TagIter(tags, 0)[k].base)
  {
    r := BuildSubList(tags, 0, RegisterTagValue);
  }

  /** `build_bit_list`: the top-level bit list; the k-th tag read back is the k-th bit of `tag_iter`, at its absolute address. */
  method BuildBitList(tags: seq<TagOrGroup<Bit>>) returns (r: Value)
    ensures r.Array? && |r.items| == |tags|
    ensures forall k | 0 <= k < |tags| :: ItemFor(r.items[k], tags[k])
    ensures Walk(r) == Values(TagIter(tags, 0), BitTagValue)
    ensures |Walk(r)| == |TagIter(tags, 0)| &&
            forall k | 0 <= k < |Walk(r)| ::
              Walk(r)[k].members["addr"] == Number(TagIter(tags, 0)[k].tag.address + TagIter(tags, 0)[k].base)
  {
    r := BuildSubList(tags, 0, BitTagValue);
  }
}
