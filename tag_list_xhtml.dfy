/**
 * src/tag_list_xhtml.rs: the tag lists of a device as XHTML markup for the
 * device page. Every builder writes to a sink step by step: nested lists
 * of tags and groups, each register with its address, label, input field,
 * enumeration select, unit and bit fields, each bit with its address,
 * label and checkbox. Addresses inside a group are shown with the bases of
 * the enclosing groups added.
 */
module TagListXhtml {
  import opened Wrappers
  import opened Numbers
  import opened TagLists

  /**
   * The attributes that bind an input to what it shows: the absolute
   * addresses of a register range, and for a field its bits as well.
   */
  datatype Binding = RegisterBinding(low: int, high: int) | FieldBinding(low: int, high: int, bitLow: int, bitHigh: int)

  /**
   * One `write!` call, by what it shows; `Render` gives its text. Text from
   * the configuration is held already escaped where the builder escapes it,
   * the scale already formatted.
   */
  datatype Chunk =
    | ListOpen | ListClose | TagItemOpen | GroupItemOpen | ItemClose
    | GroupBlockOpen | GroupHeaderOpen | GroupIndicator | GroupAddr(addr: int, base: int) | GroupLabel(text: string)
    | DivClose | GroupBodyOpen
    | RegisterAddr(low: int, high: int, base: int) | RegisterLabel(text: string) | Unit(text: string) | FieldListOpen
    | InputField(inputType: string, presentation: Presentation, scaleText: string, encoding: Option<Encoding>, binding: Binding)
    | SelectOpen(binding: Binding) | OptionItem(value: Word, text: string) | SelectClose
    | FieldItemOpen | FieldBits(bitLow: int, bitHigh: int) | FieldLabel(text: string) | FieldCheckbox(binding: Binding)
    | BitAddr(addr: int, base: int) | BitLabel(text: string) | BitCheckbox(addr: int)

  /** The markup each write produces. */
  function Render(c: Chunk): string
  {
    match c
    case ListOpen => "<ul class=\"tag_list\">"
    case ListClose => "</ul>"
    case TagItemOpen => "<li class=\"tag_item\">"
    case GroupItemOpen => "<li class=\"tag_group\">"
    case ItemClose => "</li>"
    case GroupBlockOpen => "<div class=\"group_block\">\n"
    case GroupHeaderOpen => "<div class=\"group_header\">\n"
    case GroupIndicator => "<img class=\"group_indicator\" />\n"
    case GroupAddr(addr, base) => "<span class=\"group_addr\">" + AddrToString(addr, base) + "</span>"
    case GroupLabel(text) => "<span class=\"group_label\">" + text + "</span>"
    case DivClose => "</div>\n"
    case GroupBodyOpen => "<div class=\"group_body\">\n"
    case RegisterAddr(low, high, base) => "<span class=\"register_addr\">" + RegisterAddrText(low, high, base) + "</span>"
    case RegisterLabel(text) => "<span class=\"register_label\">" + text + "</span>"
    case Unit(text) => "<span class=\"unit\">" + text + "</span>"
    case FieldListOpen => "<ul class=\"field_list\">"
    case InputField(inputType, p, scaleText, encoding, binding) =>
      "<input type=\"" + inputType + "\" class=\"mb_value\" " + BindingText(binding) + " " +
      PresentationAttributes(p, scaleText) + " " +
      (if encoding.Some? then EncodingAttributes(encoding.value) else "") + "/>\n"
    case SelectOpen(binding) => "<select class=\"mb_value mb_enum\" " + BindingText(binding) + ">\n"
    case OptionItem(value, text) => "<option value=\"" + NumberText(value) + "\">" + text + "</option>\n"
    case SelectClose => "</select>\n"
    case FieldItemOpen => "<li class=\"field_item\">"
    case FieldBits(bitLow, bitHigh) => "<span class=\"field_bits\">" + FieldBitsText(bitLow, bitHigh) + "</span>"
    case FieldLabel(text) => "<span class=\"field_label\">" + text + "</span>"
    case FieldCheckbox(binding) => "<input type=\"checkbox\" class=\"mb_value\" " + BindingText(binding) + "/>"
    case BitAddr(addr, base) => "<span class=\"bit_addr\">" + AddrToString(addr, base) + "</span>"
    case BitLabel(text) => "<span class=\"bit_label\">" + text + "</span>"
    case BitCheckbox(addr) => "<input type=\"checkbox\" class=\"mb_value\" mb:addr=\"" + NumberText(addr) + "\"/>"
  }

  /**
   * The input attributes of a register range (two spaces between them, as
   * written) and of a field.
   */
  function BindingText(b: Binding): string
  {
    match b
    case RegisterBinding(low, high) =>
      "mb:addr-low=\"" + NumberText(low) + "\"  mb:addr-high=\"" + NumberText(high) + "\""
    case FieldBinding(low, high, bitLow, bitHigh) =>
      "mb:addr-low=\"" + NumberText(low) + "\" mb:addr-high=\"" + NumberText(high) +
      "\" mb:bit-low=\"" + NumberText(bitLow) + "\" mb:bit-high=\"" + NumberText(bitHigh) + "\""
  }

  /** "@bit" for a single bit, "@high-low" otherwise. */
  function FieldBitsText(bitLow: int, bitHigh: int): string
  {
    if bitLow == bitHigh then "@" + NumberText(bitLow)
    else "@" + NumberText(bitHigh) + "-" + NumberText(bitLow)
  }

  /** The address text of a register: one address, or "low - high". */
  function RegisterAddrText(low: int, high: int, base: int): string
  {
    if low == high then AddrToString(low, base)
    else AddrToString(low, base) + " - " + AddrToString(high, base)
  }

  /** The text written: every chunk rendered, in order. */
  function Text(chunks: seq<Chunk>): string
  {
    if chunks == [] then "" else Text(chunks[..|chunks| - 1]) + Render(chunks[|chunks| - 1])
  }

  /** The `Write` sink: what has been written, one chunk per `write!` call. */
  class Sink {
    var chunks: seq<Chunk>

    constructor ()
      ensures chunks == []
    {
      chunks := [];
    }

    method Write(c: Chunk)
      modifies this
      ensures chunks == old(chunks) + [c]
    {
      chunks := chunks + [c];
    }
  }

  /**
   * `BuildContext`: the base address the enclosing groups add up to, with
   * the `f32` formatting of a scale and `escaper::encode_minimal`, both of
   * which lie outside the model.
   */
  datatype Context = Context(base: int, formatScale: real -> string, esc: string -> string)

  /** `{}` of an integer. */
  function NumberText(n: int): (s: string)
    ensures s != [] && (s[0] == '-' <==> n < 0)
    ensures var digits := if n < 0 then s[1..] else s;
      |digits| >= 1 && ParseUnsigned(digits, 10, if n < 0 then -n + 1 else n + 1) == Ok(if n < 0 then -n else n)
  {
    var m := if n < 0 then -n else n;
    DecimalRoundTrip(m, m + 1);
    if n < 0 then "-" + DecimalString(m) else DecimalString(m)
  }

  // ---------------------------------------------------------------------------
  // addr_to_string

  /** `addr_to_string`: the address alone at base 0, otherwise "absolute (as written)". */
  function AddrToString(addr: int, base: int): (s: string)
    ensures var a := NumberText(addr + base); |a| <= |s| && s[..|a|] == a
    ensures base == 0 <==> |s| == |NumberText(addr + base)|
    ensures base != 0 ==> s[|s| - 1] == ')'
  {
    if base == 0 then NumberText(addr) else NumberText(addr + base) + " (" + NumberText(addr) + ")"
  }

  /**
   * The text of an address reads back: at base 0 it is the address; under a
   * group the digits before " (" are the absolute address and those inside
   * the parentheses the address as written.
   */
  lemma AddrToStringReadBack(addr: Word, base: nat)
    ensures base == 0 ==> ParseUnsigned(AddrToString(addr, base), 10, addr + 1) == Ok(addr)
    ensures base != 0 ==>
              var s := AddrToString(addr, base);
              var i := |DecimalString(addr + base)|;
              && i + 3 <= |s| && s[i..i + 2] == " (" && s[|s| - 1] == ')'
              && ParseUnsigned(s[..i], 10, addr + base + 1) == Ok(addr + base)
              && ParseUnsigned(s[i + 2..|s| - 1], 10, addr + 1) == Ok(addr)
  {
    DecimalReadBack(addr);
    if base != 0 {
      GroupAddrReadBack(addr, base);
    }
  }

  /** The decimal digits of a number read back as that number. */
  lemma DecimalReadBack(n: nat)
    ensures NumberText(n) == DecimalString(n)
    ensures ParseUnsigned(DecimalString(n), 10, n + 1) == Ok(n)
  {
    DecimalRoundTrip(n, n + 1);
  }

  lemma GroupAddrReadBack(addr: nat, base: nat)
    requires base != 0
    ensures var s := AddrToString(addr, base);
            var i := |DecimalString(addr + base)|;
            && i + 3 <= |s| && s[i..i + 2] == " (" && s[|s| - 1] == ')'
            && ParseUnsigned(s[..i], 10, addr + base + 1) == Ok(addr + base)
            && ParseUnsigned(s[i + 2..|s| - 1], 10, addr + 1) == Ok(addr)
  {
    var a, r := DecimalString(addr + base), DecimalString(addr);
    DecimalReadBack(addr);
    DecimalReadBack(addr + base);
    var s := AddrToString(addr, base);
    assert s == a + " (" + r + ")";
    Parenthesised(a, r);
    assert s[..|a|] == a && s[|a| + 2..|s| - 1] == r;
  }

  /** Where the pieces of "a (r)" lie. */
  lemma Parenthesised(a: string, r: string)
    ensures var s := a + " (" + r + ")";
            && |s| == |a| + |r| + 3 && s[..|a|] == a && s[|a|..|a| + 2] == " ("
            && s[|a| + 2..|s| - 1] == r && s[|s| - 1] == ')'
  {
    var s := a + " (" + r + ")";
    assert s[..|a|] == a;
    assert s[|a| + 2..|s| - 1] == r;
  }

  // ---------------------------------------------------------------------------
  // presantation_attributes, encoding_attributes

  /** One ` mb:name="value"` attribute. */
  function Attr(name: string, value: string): string
  {
    " mb:" + name + "=\"" + value + "\""
  }

  /**
   * `presantation_attributes`: the scale first, radix and decimals last, and
   * between them the unit exactly when there is one.
   */
  function PresentationAttributes(p: Presentation, scaleText: string): (s: string)
    ensures var scale := Attr("scale", scaleText);
            var tail := Attr("radix", NumberText(p.radix)) + Attr("decimals", NumberText(p.decimals));
            && |scale| + |tail| <= |s| && s[..|scale|] == scale && s[|s| - |tail|..] == tail
            && (p.unit.None? <==> |s| == |scale| + |tail|)
            && (p.unit.Some? ==> s[|scale|..|s| - |tail|] == Attr("unit", p.unit.value))
  {
    var scale := Attr("scale", scaleText);
    var unit := if p.unit.Some? then Attr("unit", p.unit.value) else "";
    var tail := Attr("radix", NumberText(p.radix)) + Attr("decimals", NumberText(p.decimals));
    var s := scale + unit + tail;
    assert s[..|scale|] == scale && s[|s| - |tail|..] == tail && s[|scale|..|s| - |tail|] == unit;
    s
  }

  /** The `value-type` attribute value of each value type. */
  function TypeName(v: ValueType): string
  {
    match v
    case Integer(_) => "integer"
    case Float => "float"
    case String(_) => "string"
  }

  /** The value-type attribute, with the sign of an integer or the fill of a string. */
  function ValueTypeAttributes(v: ValueType): string
  {
    Attr("value-type", TypeName(v)) +
    match v
    case Integer(signed) => Attr("sign", if signed then "signed" else "unsigned")
    case Float => ""
    case String(fill) => Attr("fill", NumberText(fill))
  }

  function OrderText(little: bool): string
  {
    if little then "little" else "big"
  }

  /**
   * `encoding_attributes`: the value type first, the byte and word orders
   * last (each followed by a space), and between them the sign of an integer,
   * the fill of a string, or nothing for a float.
   */
  function EncodingAttributes(e: Encoding): (s: string)
    ensures var head := Attr("value-type", TypeName(e.value));
            var tail := Attr("byte-order", OrderText(e.byteOrder.LittleEndian?)) + " " +
                        Attr("word-order", OrderText(e.wordOrder.LittleEndian?)) + " ";
            && |head| + |tail| <= |s| && s[..|head|] == head && s[|s| - |tail|..] == tail
            && s[|head|..|s| - |tail|] == match e.value
                                          case Integer(signed) => Attr("sign", if signed then "signed" else "unsigned")
                                          case Float => ""
                                          case String(fill) => Attr("fill", NumberText(fill))
  {
    var head := Attr("value-type", TypeName(e.value));
    var tail := Attr("byte-order", OrderText(e.byteOrder.LittleEndian?)) + " " +
                Attr("word-order", OrderText(e.wordOrder.LittleEndian?)) + " ";
    var s := ValueTypeAttributes(e.value) + tail;
    assert s[..|head|] == head && s[|s| - |tail|..] == tail;
    s
  }

  // ---------------------------------------------------------------------------
  // build_input_field, build_enum_field

  /** The input type of `build_input_field`. */
  function InputType(encoding: Option<Encoding>, radix: Byte): (r: string)
    ensures r == "integer" <==> encoding.Some? && encoding.value.value.Integer? && radix == 10
    ensures r == "number" <==> (encoding.Some? && encoding.value.value.Float?) || (encoding.None? && radix == 10)
    ensures r == "text" <==> ((encoding.Some? && encoding.value.value.String?) ||
                            (radix != 10 && !(encoding.Some? && encoding.value.value.Float?)))
  {
    match encoding
    case Some(e) =>
      (match e.value
       case Integer(_) => if radix == 10 then "integer" else "text"
       case Float => "number"
       case String(_) => "text")
    case None => if radix == 10 then "number" else "text"
  }

  /** What `build_input_field` writes. */
  function InputFieldChunk(p: Presentation, encoding: Option<Encoding>, binding: Binding, formatScale: real -> string): Chunk
  {
    InputField(InputType(encoding, p.radix), p, formatScale(p.scale), encoding, binding)
  }

  method BuildInputField(w: Sink, p: Presentation, encoding: Option<Encoding>, binding: Binding, ctx: Context)
    modifies w
    ensures w.chunks == old(w.chunks) + [InputFieldChunk(p, encoding, binding, ctx.formatScale)]
  {
    var inputType: string;
    if encoding.Some? {
      match encoding.value.value {
        case Integer(_) => inputType := if p.radix == 10 then "integer" else "text";
        case Float => inputType := "number";
        case String(_) => inputType := "text";
      }
    } else {
      inputType := if p.radix == 10 then "number" else "text";
    }
    w.Write(InputField(inputType, p, ctx.formatScale(p.scale), encoding, binding));
  }

  // Each of the following functions gives what the sink holds after a
  // builder has written to it, from what it held before (`out`).

  /** The options written for enums after out. */
  function OptionsOut(out: seq<Chunk>, enums: seq<IntegerEnum>, esc: string -> string): seq<Chunk>
  {
    if enums == [] then out
    else OptionsOut(out, enums[..|enums| - 1], esc) + [OptionItem(enums[|enums| - 1].value, esc(enums[|enums| - 1].caption))]
  }

  /** `build_enum_field`: the select, the options, the end of the select. */
  function EnumOut(out: seq<Chunk>, enums: seq<IntegerEnum>, binding: Binding, esc: string -> string): seq<Chunk>
  {
    OptionsOut(out + [SelectOpen(binding)], enums, esc) + [SelectClose]
  }

  /** Only options are written between the select and its end: one per enum, in order. */
  lemma {:induction false} OptionsInOrder(out: seq<Chunk>, enums: seq<IntegerEnum>, esc: string -> string)
    ensures |OptionsOut(out, enums, esc)| == |out| + |enums|
    ensures OptionsOut(out, enums, esc)[..|out|] == out
    ensures forall k | 0 <= k < |enums| ::
              OptionsOut(out, enums, esc)[|out| + k] == OptionItem(enums[k].value, esc(enums[k].caption))
  {
    if enums != [] {
      var init := enums[..|enums| - 1];
      OptionsInOrder(out, init, esc);
      var r := OptionsOut(out, enums, esc);
      assert r[..|out|] == OptionsOut(out, init, esc)[..|out|];
      forall k | 0 <= k < |enums|
        ensures r[|out| + k] == OptionItem(enums[k].value, esc(enums[k].caption))
      {
        if k < |init| {
          assert init[k] == enums[k];
        }
      }
    }
  }

  method BuildEnumField(w: Sink, enums: seq<IntegerEnum>, binding: Binding, esc: string -> string)
    modifies w
    ensures w.chunks == EnumOut(old(w.chunks), enums, binding, esc)
  {
    w.Write(SelectOpen(binding));
    ghost var start := w.chunks;
    for i := 0 to |enums|
      invariant w.chunks == OptionsOut(start, enums[..i], esc)
    {
      assert enums[..i + 1][..i] == enums[..i];
      w.Write(OptionItem(enums[i].value, esc(enums[i].caption)));
    }
    assert enums[..|enums|] == enums;
    w.Write(SelectClose);
  }

  // ---------------------------------------------------------------------------
  // What the markup holds
  //
  // The chunks that carry the addresses the page script reads back are the
  // marks; `Picked` selects some kind of them from what was written.

  predicate IsMark(c: Chunk)
  {
    c.FieldCheckbox? || c.RegisterAddr? || c.BitCheckbox? || (c.InputField? && c.binding.RegisterBinding?)
  }

  /** The kinds of marks; a register input is the input bound to a whole register range. */
  datatype Mark = FieldBox | RegisterSpan | BitBox | RegisterInput

  predicate Keeps(mark: Mark, c: Chunk)
  {
    match mark
    case FieldBox => c.FieldCheckbox?
    case RegisterSpan => c.RegisterAddr?
    case BitBox => c.BitCheckbox?
    case RegisterInput => c.InputField? && c.binding.RegisterBinding?
  }

  /** The marks of one kind, in the order they were written. */
  function Picked(cs: seq<Chunk>, mark: Mark): seq<Chunk>
  {
    PickedPrefix(cs, mark, |cs|)
  }

  /** The marks among the first n chunks. */
  function PickedPrefix(cs: seq<Chunk>, mark: Mark, n: nat): seq<Chunk>
    requires n <= |cs|
  {
    if n == 0 then [] else PickedPrefix(cs, mark, n - 1) + (if Keeps(mark, cs[n - 1]) then [cs[n - 1]] else [])
  }

  /** Writing more leaves the marks of what was written before. */
  lemma {:induction false} PickedPrefixExtend(cs: seq<Chunk>, more: seq<Chunk>, mark: Mark, n: nat)
    requires n <= |cs|
    ensures PickedPrefix(cs + more, mark, n) == PickedPrefix(cs, mark, n)
  {
    if n > 0 {
      PickedPrefixExtend(cs, more, mark, n - 1);
      assert (cs + more)[n - 1] == cs[n - 1];
    }
  }

  lemma NotPicked(out: seq<Chunk>, c: Chunk, mark: Mark)
    requires !IsMark(c)
    ensures Picked(out + [c], mark) == Picked(out, mark)
  {
    PickedPrefixExtend(out, [c], mark, |out|);
  }

  lemma OnePicked(out: seq<Chunk>, c: Chunk, mark: Mark)
    ensures Picked(out + [c], mark) == Picked(out, mark) + (if Keeps(mark, c) then [c] else [])
  {
    PickedPrefixExtend(out, [c], mark, |out|);
  }

  lemma {:induction false} OptionsNotPicked(out: seq<Chunk>, enums: seq<IntegerEnum>, esc: string -> string, mark: Mark)
    ensures Picked(OptionsOut(out, enums, esc), mark) == Picked(out, mark)
  {
    if enums != [] {
      var o := OptionsOut(out, enums[..|enums| - 1], esc);
      OptionsNotPicked(out, enums[..|enums| - 1], esc, mark);
      NotPicked(o, OptionItem(enums[|enums| - 1].value, esc(enums[|enums| - 1].caption)), mark);
    }
  }

  lemma EnumNotPicked(out: seq<Chunk>, enums: seq<IntegerEnum>, binding: Binding, esc: string -> string, mark: Mark)
    ensures Picked(EnumOut(out, enums, binding, esc), mark) == Picked(out, mark)
  {
    NotPicked(out, SelectOpen(binding), mark);
    OptionsNotPicked(out + [SelectOpen(binding)], enums, esc, mark);
    NotPicked(OptionsOut(out + [SelectOpen(binding)], enums, esc), SelectClose, mark);
  }

  // ---------------------------------------------------------------------------
  // build_field

  /** The binding of a field's input: its register's absolute addresses and its bits. */
  function FieldAttrs(field: RegisterField, register: RegisterRange, base: int): Binding
  {
    FieldBinding(register.addressLow + base, register.addressHigh + base, field.bitLow, field.bitHigh)
  }

  /** The first part of `build_field`: bits, label and input field. */
  function FieldHeadOut(out: seq<Chunk>, field: RegisterField, register: RegisterRange, ctx: Context): seq<Chunk>
  {
    var o1 := out + [FieldItemOpen] + [FieldBits(field.bitLow, field.bitHigh)];
    var o2 := if field.caption.Some? then o1 + [FieldLabel(ctx.esc(field.caption.value))] else o1;
    o2 + [InputFieldChunk(field.presentation, None, FieldAttrs(field, register, ctx.base), ctx.formatScale)]
  }

  /** `build_field` */
  function FieldOut(out: seq<Chunk>, field: RegisterField, register: RegisterRange, ctx: Context): seq<Chunk>
  {
    var attrs := FieldAttrs(field, register, ctx.base);
    var o3 := FieldHeadOut(out, field, register, ctx);
    var o4 := if field.bitLow == field.bitHigh then o3 + [FieldCheckbox(attrs)] else o3;
    var o5 := if |field.enums| > 0 then EnumOut(o4, field.enums, attrs, ctx.esc) else o4;
    o5 + [ItemClose]
  }

  method BuildField(w: Sink, ctx: Context, field: RegisterField, register: RegisterRange)
    modifies w
    ensures w.chunks == FieldOut(old(w.chunks), field, register, ctx)
  {
    w.Write(FieldItemOpen);
    w.Write(FieldBits(field.bitLow, field.bitHigh));
    if field.caption.Some? {
      w.Write(FieldLabel(ctx.esc(field.caption.value)));
    }
    var attrs := FieldAttrs(field, register, ctx.base);
    BuildInputField(w, field.presentation, None, attrs, ctx);
    assert w.chunks == FieldHeadOut(old(w.chunks), field, register, ctx);
    if field.bitLow == field.bitHigh {
      w.Write(FieldCheckbox(attrs));
    }
    if |field.enums| > 0 {
      BuildEnumField(w, field.enums, attrs, ctx.esc);
    }
    w.Write(ItemClose);
  }

  lemma FieldHeadNotPicked(out: seq<Chunk>, field: RegisterField, register: RegisterRange, ctx: Context, mark: Mark)
    ensures Picked(FieldHeadOut(out, field, register, ctx), mark) == Picked(out, mark)
  {
    var o1 := out + [FieldItemOpen] + [FieldBits(field.bitLow, field.bitHigh)];
    NotPicked(out, FieldItemOpen, mark);
    NotPicked(out + [FieldItemOpen], FieldBits(field.bitLow, field.bitHigh), mark);
    var input := InputFieldChunk(field.presentation, None, FieldAttrs(field, register, ctx.base), ctx.formatScale);
    if field.caption.Some? {
      var o2 := o1 + [FieldLabel(ctx.esc(field.caption.value))];
      NotPicked(o1, FieldLabel(ctx.esc(field.caption.value)), mark);
      NotPicked(o2, input, mark);
    } else {
      NotPicked(o1, input, mark);
    }
  }

  /** The only mark of a field is the checkbox of a single-bit field. */
  lemma FieldPicked(out: seq<Chunk>, field: RegisterField, register: RegisterRange, ctx: Context, mark: Mark)
    ensures var box := FieldCheckbox(FieldAttrs(field, register, ctx.base));
            Picked(FieldOut(out, field, register, ctx), mark) ==
            Picked(out, mark) + (if field.bitLow == field.bitHigh && Keeps(mark, box) then [box] else [])
  {
    var attrs := FieldAttrs(field, register, ctx.base);
    var o3 := FieldHeadOut(out, field, register, ctx);
    FieldHeadNotPicked(out, field, register, ctx, mark);
    var o4 := if field.bitLow == field.bitHigh then o3 + [FieldCheckbox(attrs)] else o3;
    OnePicked(o3, FieldCheckbox(attrs), mark);
    var o5 := if |field.enums| > 0 then EnumOut(o4, field.enums, attrs, ctx.esc) else o4;
    EnumNotPicked(o4, field.enums, attrs, ctx.esc, mark);
    NotPicked(o5, ItemClose, mark);
  }

  /** A single-bit field gets a checkbox bound to the same register and bit as its input field. */
  lemma FieldCheckboxes(out: seq<Chunk>, field: RegisterField, register: RegisterRange, ctx: Context)
    ensures Picked(FieldOut(out, field, register, ctx), FieldBox) ==
            Picked(out, FieldBox) + (if field.bitLow == field.bitHigh then [FieldCheckbox(FieldAttrs(field, register, ctx.base))] else [])
  {
    FieldPicked(out, field, register, ctx, FieldBox);
  }

  // ---------------------------------------------------------------------------
  // build_tag

  /** The binding of a register range's input: its absolute addresses. */
  function RegisterAttrs(tag: RegisterRange, base: int): Binding
  {
    RegisterBinding(tag.addressLow + base, tag.addressHigh + base)
  }

  /** The `build_field` loop over fields. */
  function FieldsOut(out: seq<Chunk>, fields: seq<RegisterField>, register: RegisterRange, ctx: Context): seq<Chunk>
  {
    if fields == [] then out
    else FieldOut(FieldsOut(out, fields[..|fields| - 1], register, ctx), fields[|fields| - 1], register, ctx)
  }

  /** The first part of `build_tag` of a register range: address, label and input field. */
  function RegisterHeadOut(out: seq<Chunk>, tag: RegisterRange, ctx: Context): seq<Chunk>
  {
    var o1 := out + [RegisterAddr(tag.addressLow, tag.addressHigh, ctx.base)];
    var o2 := if tag.caption.Some? then o1 + [RegisterLabel(ctx.esc(tag.caption.value))] else o1;
    o2 + [InputFieldChunk(tag.presentation, Some(tag.encoding), RegisterAttrs(tag, ctx.base), ctx.formatScale)]
  }

  /** The second part: the enumeration select and the unit. */
  function RegisterMiddleOut(out: seq<Chunk>, tag: RegisterRange, ctx: Context): seq<Chunk>
  {
    var o4 := if |tag.enums| > 0 then EnumOut(out, tag.enums, RegisterAttrs(tag, ctx.base), ctx.esc) else out;
    if tag.presentation.unit.Some? then o4 + [Unit(tag.presentation.unit.value)] else o4
  }

  /** `build_tag` of a register range. */
  function RegisterOut(out: seq<Chunk>, tag: RegisterRange, ctx: Context): seq<Chunk>
  {
    var o5 := RegisterMiddleOut(RegisterHeadOut(out, tag, ctx), tag, ctx);
    if |tag.fields| > 0 then FieldsOut(o5 + [FieldListOpen], tag.fields, tag, ctx) + [ListClose] else o5
  }

  method BuildRegisterTag(w: Sink, tag: RegisterRange, ctx: Context)
    modifies w
    ensures w.chunks == RegisterOut(old(w.chunks), tag, ctx)
  {
    w.Write(RegisterAddr(tag.addressLow, tag.addressHigh, ctx.base));
    if tag.caption.Some? {
      w.Write(RegisterLabel(ctx.esc(tag.caption.value)));
    }
    var attrs := RegisterAttrs(tag, ctx.base);
    BuildInputField(w, tag.presentation, Some(tag.encoding), attrs, ctx);
    ghost var head := w.chunks;
    assert head == RegisterHeadOut(old(w.chunks), tag, ctx);
    if |tag.enums| > 0 {
      BuildEnumField(w, tag.enums, attrs, ctx.esc);
    }
    if tag.presentation.unit.Some? {
      w.Write(Unit(tag.presentation.unit.value));
    }
    assert w.chunks == RegisterMiddleOut(head, tag, ctx);
    if |tag.fields| > 0 {
      w.Write(FieldListOpen);
      BuildFields(w, tag, ctx);
      w.Write(ListClose);
    }
  }

  /** The loop of `build_tag` over the fields of a register range. */
  method BuildFields(w: Sink, tag: RegisterRange, ctx: Context)
    modifies w
    ensures w.chunks == FieldsOut(old(w.chunks), tag.fields, tag, ctx)
  {
    ghost var start := w.chunks;
    for i := 0 to |tag.fields|
      invariant w.chunks == FieldsOut(start, tag.fields[..i], tag, ctx)
    {
      assert tag.fields[..i + 1][..i] == tag.fields[..i];
      BuildField(w, ctx, tag.fields[i], tag);
    }
    assert tag.fields[..|tag.fields|] == tag.fields;
  }

  /** `build_tag` of a bit. */
  function BitOut(out: seq<Chunk>, tag: Bit, ctx: Context): seq<Chunk>
  {
    var o1 := out + [BitAddr(tag.address, ctx.base)];
    var o2 := if tag.caption.Some? then o1 + [BitLabel(ctx.esc(tag.caption.value))] else o1;
    o2 + [BitCheckbox(tag.address + ctx.base)]
  }

  method BuildBitTag(w: Sink, tag: Bit, ctx: Context)
    modifies w
    ensures w.chunks == BitOut(old(w.chunks), tag, ctx)
  {
    w.Write(BitAddr(tag.address, ctx.base));
    if tag.caption.Some? {
      w.Write(BitLabel(ctx.esc(tag.caption.value)));
    }
    w.Write(BitCheckbox(tag.address + ctx.base));
  }

  // ---------------------------------------------------------------------------
  // build_group, build_sub_list

  /** The header of `build_group`, with its address and label, and the start of its body. */
  function GroupHeadOut<T>(out: seq<Chunk>, g: Group<T>, ctx: Context): seq<Chunk>
  {
    var o1 := out + [GroupBlockOpen] + [GroupHeaderOpen] + [GroupIndicator] + [GroupAddr(g.baseAddress, ctx.base)];
    var o2 := if g.caption.Some? then o1 + [GroupLabel(ctx.esc(g.caption.value))] else o1;
    o2 + [DivClose] + [GroupBodyOpen]
  }

  /** `build_group`: the header, then the tags with the group's base added. */
  function GroupOut<T>(out: seq<Chunk>, g: Group<T>, ctx: Context, tagOut: (seq<Chunk>, T, Context) -> seq<Chunk>): seq<Chunk>
    decreases TagOrGroup<T>.Group(g), 0
  {
    SubListOut(GroupHeadOut(out, g, ctx), g.tags, ctx.(base := ctx.base + g.baseAddress), tagOut) + [DivClose] + [DivClose]
  }

  /** `build_sub_list`: the list, its items, the end of the list. */
  function SubListOut<T>(out: seq<Chunk>, tags: seq<TagOrGroup<T>>, ctx: Context, tagOut: (seq<Chunk>, T, Context) -> seq<Chunk>): seq<Chunk>
    decreases tags, 2
  {
    ItemsOut(out + [ListOpen], tags, ctx, tagOut) + [ListClose]
  }

  /** The items of the `build_sub_list` loop. */
  function ItemsOut<T>(out: seq<Chunk>, tags: seq<TagOrGroup<T>>, ctx: Context, tagOut: (seq<Chunk>, T, Context) -> seq<Chunk>): seq<Chunk>
    decreases tags, 1
  {
    if tags == [] then out
    else ItemOut(ItemsOut(out, tags[..|tags| - 1], ctx, tagOut), tags[|tags| - 1], ctx, tagOut)
  }

  function ItemOut<T>(out: seq<Chunk>, item: TagOrGroup<T>, ctx: Context, tagOut: (seq<Chunk>, T, Context) -> seq<Chunk>): seq<Chunk>
    decreases item, 1
  {
    match item
    case Tag(t) => tagOut(out + [TagItemOpen], t, ctx) + [ItemClose]
    case Group(g) => GroupOut(out + [GroupItemOpen], g, ctx, tagOut) + [ItemClose]
  }

  /** The first writes of `build_group`, the same for registers and bits. */
  method BuildGroupHead<T>(w: Sink, g: Group<T>, ctx: Context)
    modifies w
    ensures w.chunks == GroupHeadOut(old(w.chunks), g, ctx)
  {
    w.Write(GroupBlockOpen);
    w.Write(GroupHeaderOpen);
    w.Write(GroupIndicator);
    w.Write(GroupAddr(g.baseAddress, ctx.base));
    if g.caption.Some? {
      w.Write(GroupLabel(ctx.esc(g.caption.value)));
    }
    w.Write(DivClose);
    w.Write(GroupBodyOpen);
  }

  method BuildRegisterGroup(w: Sink, g: Group<RegisterRange>, ctx: Context)
    modifies w
    ensures w.chunks == GroupOut(old(w.chunks), g, ctx, RegisterOut)
    decreases TagOrGroup<RegisterRange>.Group(g), 0
  {
    BuildGroupHead(w, g, ctx);
    BuildRegisterSubList(w, g.tags, ctx.(base := ctx.base + g.baseAddress));
    w.Write(DivClose);
    w.Write(DivClose);
  }

  method BuildRegisterSubList(w: Sink, tags: seq<TagOrGroup<RegisterRange>>, ctx: Context)
    modifies w
    ensures w.chunks == SubListOut(old(w.chunks), tags, ctx, RegisterOut)
    decreases tags, 2
  {
    w.Write(ListOpen);
    ghost var start := w.chunks;
    for i := 0 to |tags|
      invariant w.chunks == ItemsOut(start, tags[..i], ctx, RegisterOut)
    {
      assert tags[..i + 1][..i] == tags[..i] && tags[..i + 1][i] == tags[i];
      if tags[i].Tag? {
        w.Write(TagItemOpen);
        BuildRegisterTag(w, tags[i].tag, ctx);
        w.Write(ItemClose);
      } else {
        var g := tags[i].group;
        assert tags[i] == TagOrGroup.Group(g);
        w.Write(GroupItemOpen);
        BuildRegisterGroup(w, g, ctx);
        w.Write(ItemClose);
      }
    }
    assert tags[..|tags|] == tags;
    w.Write(ListClose);
  }

  method BuildBitGroup(w: Sink, g: Group<Bit>, ctx: Context)
    modifies w
    ensures w.chunks == GroupOut(old(w.chunks), g, ctx, BitOut)
    decreases TagOrGroup<Bit>.Group(g), 0
  {
    BuildGroupHead(w, g, ctx);
    BuildBitSubList(w, g.tags, ctx.(base := ctx.base + g.baseAddress));
    w.Write(DivClose);
    w.Write(DivClose);
  }

  method BuildBitSubList(w: Sink, tags: seq<TagOrGroup<Bit>>, ctx: Context)
    modifies w
    ensures w.chunks == SubListOut(old(w.chunks), tags, ctx, BitOut)
    decreases tags, 2
  {
    w.Write(ListOpen);
    ghost var start := w.chunks;
    for i := 0 to |tags|
      invariant w.chunks == ItemsOut(start, tags[..i], ctx, BitOut)
    {
      assert tags[..i + 1][..i] == tags[..i] && tags[..i + 1][i] == tags[i];
      if tags[i].Tag? {
        w.Write(TagItemOpen);
        BuildBitTag(w, tags[i].tag, ctx);
        w.Write(ItemClose);
      } else {
        var g := tags[i].group;
        assert tags[i] == TagOrGroup.Group(g);
        w.Write(GroupItemOpen);
        BuildBitGroup(w, g, ctx);
        w.Write(ItemClose);
      }
    }
    assert tags[..|tags|] == tags;
    w.Write(ListClose);
  }

  /** `build_register_list`: the top-level list, with no base address. */
  method BuildRegisterList(w: Sink, tags: seq<TagOrGroup<RegisterRange>>, formatScale: real -> string, esc: string -> string)
    modifies w
    ensures w.chunks == SubListOut(old(w.chunks), tags, Context(0, formatScale, esc), RegisterOut)
  {
    BuildRegisterSubList(w, tags, Context(0, formatScale, esc));
  }

  /** `build_bit_list`: the top-level list, with no base address. */
  method BuildBitList(w: Sink, tags: seq<TagOrGroup<Bit>>, formatScale: real -> string, esc: string -> string)
    modifies w
    ensures w.chunks == SubListOut(old(w.chunks), tags, Context(0, formatScale, esc), BitOut)
  {
    BuildBitSubList(w, tags, Context(0, formatScale, esc));
  }

  // ---------------------------------------------------------------------------
  // The marks of whole lists

  /** f of every placed tag, in order. */
  function PlacedMap<T>(ps: seq<Placed<T>>, f: Placed<T> -> Chunk): seq<Chunk>
  {
    if ps == [] then [] else [f(ps[0])] + PlacedMap(ps[1..], f)
  }

  lemma {:induction false} PlacedMapPointwise<T>(ps: seq<Placed<T>>, f: Placed<T> -> Chunk)
    ensures |PlacedMap(ps, f)| == |ps|
    ensures forall k | 0 <= k < |ps| :: PlacedMap(ps, f)[k] == f(ps[k])
  {
    if ps != [] {
      PlacedMapPointwise(ps[1..], f);
    }
  }

  lemma PlacedMapAppend<T>(a: seq<Placed<T>>, b: seq<Placed<T>>, f: Placed<T> -> Chunk)
    ensures PlacedMap(a + b, f) == PlacedMap(a, f) + PlacedMap(b, f)
  {
    PlacedMapPointwise(a + b, f);
    PlacedMapPointwise(a, f);
    PlacedMapPointwise(b, f);
    var l, r := PlacedMap(a + b, f), PlacedMap(a, f) + PlacedMap(b, f);
    forall k | 0 <= k < |l|
      ensures l[k] == r[k]
    {
      if k >= |a| {
        assert (a + b)[k] == b[k - |a|];
      }
    }
  }

  /**
   * Each tag written by tagOut, with the scale formatted by formatScale, adds
   * the one mark f gives for it where it is placed.
   */
  ghost predicate TagPicks<T(!new)>(tagOut: (seq<Chunk>, T, Context) -> seq<Chunk>, mark: Mark, f: Placed<T> -> Chunk,
                                    formatScale: real -> string)
  {
    forall out, t, ctx: Context | ctx.formatScale == formatScale ::
      Picked(tagOut(out, t, ctx), mark) == Picked(out, mark) + [f(Placed(t, ctx.base))]
  }

  /**
   * The marks of a list of tags and groups are those of its tags in
   * depth-first order, each with the bases of its enclosing groups added:
   * the frame of the lists and the group headers carries none.
   */
  lemma {:induction false} SubListPicked<T(!new)>(out: seq<Chunk>, tags: seq<TagOrGroup<T>>, ctx: Context,
                                            tagOut: (seq<Chunk>, T, Context) -> seq<Chunk>, mark: Mark, f: Placed<T> -> Chunk,
                                            fs: real -> string)
    requires ctx.formatScale == fs && TagPicks(tagOut, mark, f, fs)
    ensures Picked(SubListOut(out, tags, ctx, tagOut), mark) == Picked(out, mark) + PlacedMap(TagIter(tags, ctx.base), f)
    decreases tags, 2
  {
    NotPicked(out, ListOpen, mark);
    ItemsPicked(out + [ListOpen], tags, ctx, tagOut, mark, f, fs);
    NotPicked(ItemsOut(out + [ListOpen], tags, ctx, tagOut), ListClose, mark);
  }

  lemma {:induction false} ItemsPicked<T(!new)>(out: seq<Chunk>, tags: seq<TagOrGroup<T>>, ctx: Context,
                                          tagOut: (seq<Chunk>, T, Context) -> seq<Chunk>, mark: Mark, f: Placed<T> -> Chunk,
                                          fs: real -> string)
    requires ctx.formatScale == fs && TagPicks(tagOut, mark, f, fs)
    ensures Picked(ItemsOut(out, tags, ctx, tagOut), mark) == Picked(out, mark) + PlacedMap(TagIter(tags, ctx.base), f)
    decreases tags, 1
  {
    if tags == [] {
      assert TagIter(tags, ctx.base) == [];
    } else {
      var init, last := tags[..|tags| - 1], tags[|tags| - 1];
      var before := ItemsOut(out, init, ctx, tagOut);
      assert ItemsOut(out, tags, ctx, tagOut) == ItemOut(before, last, ctx, tagOut);
      ItemsPicked(out, init, ctx, tagOut, mark, f, fs);
      ItemPicked(before, last, ctx, tagOut, mark, f, fs);
      TagIterSnoc(tags, ctx.base);
      PlacedMapAppend(TagIter(init, ctx.base), TagIterOne(last, ctx.base), f);
      Reassociate(Picked(out, mark), PlacedMap(TagIter(init, ctx.base), f), PlacedMap(TagIterOne(last, ctx.base), f));
    }
  }

  lemma Reassociate(p: seq<Chunk>, a: seq<Chunk>, b: seq<Chunk>)
    ensures p + a + b == p + (a + b)
  {
  }

  /** The tags of a list are those of all items but the last, then those of the last. */
  lemma TagIterSnoc<T>(tags: seq<TagOrGroup<T>>, base: int)
    requires tags != []
    ensures TagIter(tags, base) == TagIter(tags[..|tags| - 1], base) + TagIterOne(tags[|tags| - 1], base)
  {
    var init, last := tags[..|tags| - 1], tags[|tags| - 1];
    assert tags == init + [last];
    TagIterAppend(init, [last], base);
    assert TagIter([last], base) == TagIterOne(last, base) + TagIter([last][1..], base);
    assert [last][1..] == [];
  }

  lemma {:induction false} ItemPicked<T(!new)>(out: seq<Chunk>, item: TagOrGroup<T>, ctx: Context,
                                         tagOut: (seq<Chunk>, T, Context) -> seq<Chunk>, mark: Mark, f: Placed<T> -> Chunk,
                                         fs: real -> string)
    requires ctx.formatScale == fs && TagPicks(tagOut, mark, f, fs)
    ensures Picked(ItemOut(out, item, ctx, tagOut), mark) == Picked(out, mark) + PlacedMap(TagIterOne(item, ctx.base), f)
    decreases item, 2
  {
    match item
    case Tag(t) =>
      TagItemPicked(out, t, ctx, tagOut, mark, f, fs);
    case Group(g) =>
      GroupItemPicked(out, g, ctx, tagOut, mark, f, fs);
  }

  /** A tag's list item adds the tag's own mark. */
  lemma TagItemPicked<T(!new)>(out: seq<Chunk>, t: T, ctx: Context,
                               tagOut: (seq<Chunk>, T, Context) -> seq<Chunk>, mark: Mark, f: Placed<T> -> Chunk,
                               fs: real -> string)
    requires ctx.formatScale == fs && TagPicks(tagOut, mark, f, fs)
    ensures Picked(ItemOut(out, TagOrGroup<T>.Tag(t), ctx, tagOut), mark) == Picked(out, mark) + PlacedMap(TagIterOne(TagOrGroup<T>.Tag(t), ctx.base), f)
  {
    NotPicked(out, TagItemOpen, mark);
    NotPicked(tagOut(out + [TagItemOpen], t, ctx), ItemClose, mark);
    assert TagIterOne(TagOrGroup<T>.Tag(t), ctx.base) == [Placed(t, ctx.base)];
  }

  /** A group's list item adds the marks of the group. */
  lemma {:induction false} GroupItemPicked<T(!new)>(out: seq<Chunk>, g: Group<T>, ctx: Context,
                                              tagOut: (seq<Chunk>, T, Context) -> seq<Chunk>, mark: Mark, f: Placed<T> -> Chunk,
                                              fs: real -> string)
    requires ctx.formatScale == fs && TagPicks(tagOut, mark, f, fs)
    ensures Picked(ItemOut(out, TagOrGroup<T>.Group(g), ctx, tagOut), mark) == Picked(out, mark) + PlacedMap(TagIterOne(TagOrGroup<T>.Group(g), ctx.base), f)
    decreases TagOrGroup<T>.Group(g), 1
  {
    NotPicked(out, GroupItemOpen, mark);
    GroupPicked(out + [GroupItemOpen], g, ctx, tagOut, mark, f, fs);
    NotPicked(GroupOut(out + [GroupItemOpen], g, ctx, tagOut), ItemClose, mark);
  }

  lemma {:induction false} GroupPicked<T(!new)>(out: seq<Chunk>, g: Group<T>, ctx: Context,
                                          tagOut: (seq<Chunk>, T, Context) -> seq<Chunk>, mark: Mark, f: Placed<T> -> Chunk,
                                          fs: real -> string)
    requires ctx.formatScale == fs && TagPicks(tagOut, mark, f, fs)
    ensures Picked(GroupOut(out, g, ctx, tagOut), mark) == Picked(out, mark) + PlacedMap(TagIter(g.tags, ctx.base + g.baseAddress), f)
    decreases TagOrGroup<T>.Group(g), 0
  {
    var head := GroupHeadOut(out, g, ctx);
    GroupHeadNotPicked(out, g, ctx, mark);
    var inner := ctx.(base := ctx.base + g.baseAddress);
    SubListPicked(head, g.tags, inner, tagOut, mark, f, fs);
    DivsClosedNotPicked(SubListOut(head, g.tags, inner, tagOut), mark);
  }

  /** The two closing tags of a group carry no marks. */
  lemma DivsClosedNotPicked(out: seq<Chunk>, mark: Mark)
    ensures Picked(out + [DivClose] + [DivClose], mark) == Picked(out, mark)
  {
    NotPicked(out, DivClose, mark);
    NotPicked(out + [DivClose], DivClose, mark);
  }

  lemma GroupHeadNotPicked<T>(out: seq<Chunk>, g: Group<T>, ctx: Context, mark: Mark)
    ensures Picked(GroupHeadOut(out, g, ctx), mark) == Picked(out, mark)
  {
    var o0 := out + [GroupBlockOpen] + [GroupHeaderOpen] + [GroupIndicator];
    NotPicked(out, GroupBlockOpen, mark);
    NotPicked(out + [GroupBlockOpen], GroupHeaderOpen, mark);
    NotPicked(out + [GroupBlockOpen] + [GroupHeaderOpen], GroupIndicator, mark);
    var o1 := o0 + [GroupAddr(g.baseAddress, ctx.base)];
    NotPicked(o0, GroupAddr(g.baseAddress, ctx.base), mark);
    var o2 := if g.caption.Some? then o1 + [GroupLabel(ctx.esc(g.caption.value))] else o1;
    if g.caption.Some? {
      NotPicked(o1, GroupLabel(ctx.esc(g.caption.value)), mark);
    }
    NotPicked(o2, DivClose, mark);
    NotPicked(o2 + [DivClose], GroupBodyOpen, mark);
  }

  /** The checkbox of a bit, at its absolute address. */
  function BitCheckboxAt(p: Placed<Bit>): Chunk
  {
    BitCheckbox(p.tag.address + p.base)
  }

  /** The address span of a register range, as shown where it is placed. */
  function RegisterAddrAt(p: Placed<RegisterRange>): Chunk
  {
    RegisterAddr(p.tag.addressLow, p.tag.addressHigh, p.base)
  }

  /**
   * The input of a register range where it is placed: bound to its absolute
   * addresses, with its presentation and encoding.
   */
  function RegisterInputAt(p: Placed<RegisterRange>, formatScale: real -> string): Chunk
  {
    InputFieldChunk(p.tag.presentation, Some(p.tag.encoding), RegisterAttrs(p.tag, p.base), formatScale)
  }

  /** A bit adds one checkbox, with its absolute address. */
  lemma BitPicks(formatScale: real -> string)
    ensures TagPicks(BitOut, BitBox, BitCheckboxAt, formatScale)
  {
    forall out, t, ctx: Context | ctx.formatScale == formatScale
      ensures Picked(BitOut(out, t, ctx), BitBox) == Picked(out, BitBox) + [BitCheckboxAt(Placed(t, ctx.base))]
    {
      var o1 := out + [BitAddr(t.address, ctx.base)];
      OnePicked(out, BitAddr(t.address, ctx.base), BitBox);
      var o2 := if t.caption.Some? then o1 + [BitLabel(ctx.esc(t.caption.value))] else o1;
      if t.caption.Some? {
        OnePicked(o1, BitLabel(ctx.esc(t.caption.value)), BitBox);
      }
      OnePicked(o2, BitCheckbox(t.address + ctx.base), BitBox);
    }
  }

  /** A register range adds one address span: its input, enumeration, unit and fields show none. */
  lemma RegisterPicks(formatScale: real -> string)
    ensures TagPicks(RegisterOut, RegisterSpan, RegisterAddrAt, formatScale)
  {
    forall out, t, ctx: Context | ctx.formatScale == formatScale
      ensures Picked(RegisterOut(out, t, ctx), RegisterSpan) == Picked(out, RegisterSpan) + [RegisterAddrAt(Placed(t, ctx.base))]
    {
      RegisterPicked(out, t, ctx);
    }
  }

  lemma RegisterPicked(out: seq<Chunk>, t: RegisterRange, ctx: Context)
    ensures Picked(RegisterOut(out, t, ctx), RegisterSpan) == Picked(out, RegisterSpan) + [RegisterAddrAt(Placed(t, ctx.base))]
  {
    var head := RegisterHeadOut(out, t, ctx);
    RegisterHeadPicked(out, t, ctx);
    RegisterMiddleNotPicked(head, t, ctx, RegisterSpan);
    RegisterTailNotPicked(RegisterMiddleOut(head, t, ctx), t, ctx, RegisterSpan);
  }

  /**
   * A register range adds one input bound to the whole range: the inputs of
   * its fields are bound to bits and are not among them.
   */
  lemma RegisterInputPicks(formatScale: real -> string)
    ensures TagPicks(RegisterOut, RegisterInput, p => RegisterInputAt(p, formatScale), formatScale)
  {
    forall out, t, ctx: Context | ctx.formatScale == formatScale
      ensures Picked(RegisterOut(out, t, ctx), RegisterInput) == Picked(out, RegisterInput) + [RegisterInputAt(Placed(t, ctx.base), formatScale)]
    {
      RegisterInputPicked(out, t, ctx);
    }
  }

  lemma RegisterInputPicked(out: seq<Chunk>, t: RegisterRange, ctx: Context)
    ensures Picked(RegisterOut(out, t, ctx), RegisterInput) ==
            Picked(out, RegisterInput) + [RegisterInputAt(Placed(t, ctx.base), ctx.formatScale)]
  {
    var head := RegisterHeadOut(out, t, ctx);
    var o1 := out + [RegisterAddr(t.addressLow, t.addressHigh, ctx.base)];
    OnePicked(out, RegisterAddr(t.addressLow, t.addressHigh, ctx.base), RegisterInput);
    var input := InputFieldChunk(t.presentation, Some(t.encoding), RegisterAttrs(t, ctx.base), ctx.formatScale);
    if t.caption.Some? {
      NotPicked(o1, RegisterLabel(ctx.esc(t.caption.value)), RegisterInput);
      OnePicked(o1 + [RegisterLabel(ctx.esc(t.caption.value))], input, RegisterInput);
    } else {
      OnePicked(o1, input, RegisterInput);
    }
    RegisterMiddleNotPicked(head, t, ctx, RegisterInput);
    RegisterTailNotPicked(RegisterMiddleOut(head, t, ctx), t, ctx, RegisterInput);
  }

  /** The enumeration select and the unit carry no marks. */
  lemma RegisterMiddleNotPicked(out: seq<Chunk>, t: RegisterRange, ctx: Context, mark: Mark)
    ensures Picked(RegisterMiddleOut(out, t, ctx), mark) == Picked(out, mark)
  {
    EnumNotPicked(out, t.enums, RegisterAttrs(t, ctx.base), ctx.esc, mark);
    var o4 := if |t.enums| > 0 then EnumOut(out, t.enums, RegisterAttrs(t, ctx.base), ctx.esc) else out;
    if t.presentation.unit.Some? {
      NotPicked(o4, Unit(t.presentation.unit.value), mark);
    }
  }

  /** The field list after the unit carries no marks but its checkboxes. */
  lemma RegisterTailNotPicked(o5: seq<Chunk>, t: RegisterRange, ctx: Context, mark: Mark)
    requires mark != FieldBox
    ensures Picked(if |t.fields| > 0 then FieldsOut(o5 + [FieldListOpen], t.fields, t, ctx) + [ListClose] else o5, mark)
            == Picked(o5, mark)
  {
    if |t.fields| > 0 {
      NotPicked(o5, FieldListOpen, mark);
      FieldsNotPicked(o5 + [FieldListOpen], t.fields, t, ctx, mark);
      NotPicked(FieldsOut(o5 + [FieldListOpen], t.fields, t, ctx), ListClose, mark);
    }
  }

  lemma RegisterHeadPicked(out: seq<Chunk>, t: RegisterRange, ctx: Context)
    ensures Picked(RegisterHeadOut(out, t, ctx), RegisterSpan) == Picked(out, RegisterSpan) + [RegisterAddrAt(Placed(t, ctx.base))]
  {
    var o1 := out + [RegisterAddr(t.addressLow, t.addressHigh, ctx.base)];
    OnePicked(out, RegisterAddr(t.addressLow, t.addressHigh, ctx.base), RegisterSpan);
    var input := InputFieldChunk(t.presentation, Some(t.encoding), RegisterAttrs(t, ctx.base), ctx.formatScale);
    if t.caption.Some? {
      OnePicked(o1, RegisterLabel(ctx.esc(t.caption.value)), RegisterSpan);
      OnePicked(o1 + [RegisterLabel(ctx.esc(t.caption.value))], input, RegisterSpan);
    } else {
      OnePicked(o1, input, RegisterSpan);
    }
  }

  lemma {:induction false} FieldsNotPicked(out: seq<Chunk>, fields: seq<RegisterField>, register: RegisterRange, ctx: Context, mark: Mark)
    requires mark != FieldBox
    ensures Picked(FieldsOut(out, fields, register, ctx), mark) == Picked(out, mark)
  {
    if fields != [] {
      var init := fields[..|fields| - 1];
      FieldsNotPicked(out, init, register, ctx, mark);
      FieldPicked(FieldsOut(out, init, register, ctx), fields[|fields| - 1], register, ctx, mark);
    }
  }

  /**
   * The bit list shows one checkbox per bit, in the order the tags are
   * flattened, each bound to the bit's absolute address.
   */
  lemma BitListCheckboxes(tags: seq<TagOrGroup<Bit>>, formatScale: real -> string, esc: string -> string)
    ensures var r := Picked(SubListOut([], tags, Context(0, formatScale, esc), BitOut), BitBox);
            && |r| == |TagIter(tags, 0)|
            && forall k | 0 <= k < |r| :: r[k] == BitCheckbox(TagIter(tags, 0)[k].tag.address + TagIter(tags, 0)[k].base)
  {
    var ctx, it := Context(0, formatScale, esc), TagIter(tags, 0);
    BitPicks(formatScale);
    SubListPicked([], tags, ctx, BitOut, BitBox, BitCheckboxAt, formatScale);
    assert Picked([], BitBox) == [];
    PlacedMapPointwise(it, BitCheckboxAt);
    assert Picked(SubListOut([], tags, ctx, BitOut), BitBox) == PlacedMap(it, BitCheckboxAt);
  }

  /**
   * The register list shows one address span per register range, in the
   * order the tags are flattened, each at its absolute addresses.
   */
  lemma RegisterListAddresses(tags: seq<TagOrGroup<RegisterRange>>, formatScale: real -> string, esc: string -> string)
    ensures var r := Picked(SubListOut([], tags, Context(0, formatScale, esc), RegisterOut), RegisterSpan);
            && |r| == |TagIter(tags, 0)|
            && forall k | 0 <= k < |r| :: r[k] == RegisterAddr(TagIter(tags, 0)[k].tag.addressLow, TagIter(tags, 0)[k].tag.addressHigh, TagIter(tags, 0)[k].base)
  {
    var ctx, it := Context(0, formatScale, esc), TagIter(tags, 0);
    RegisterPicks(formatScale);
    SubListPicked([], tags, ctx, RegisterOut, RegisterSpan, RegisterAddrAt, formatScale);
    assert Picked([], RegisterSpan) == [];
    PlacedMapPointwise(it, RegisterAddrAt);
    assert Picked(SubListOut([], tags, ctx, RegisterOut), RegisterSpan) == PlacedMap(it, RegisterAddrAt);
  }

  /**
   * The register list shows one input per register range, in the order the
   * tags are flattened, each bound to the range's absolute addresses
   * (`mb:addr-low`, `mb:addr-high`) and carrying its presentation and
   * encoding; the inputs of fields are bound to bits as well and are not
   * among them.
   */
  lemma RegisterListBindings(tags: seq<TagOrGroup<RegisterRange>>, formatScale: real -> string, esc: string -> string)
    ensures var r := Picked(SubListOut([], tags, Context(0, formatScale, esc), RegisterOut), RegisterInput);
            && |r| == |TagIter(tags, 0)|
            && forall k | 0 <= k < |r| ::
                 && r[k].InputField?
                 && r[k].binding == RegisterBinding(TagIter(tags, 0)[k].tag.addressLow + TagIter(tags, 0)[k].base,
                                                    TagIter(tags, 0)[k].tag.addressHigh + TagIter(tags, 0)[k].base)
                 && r[k].presentation == TagIter(tags, 0)[k].tag.presentation
                 && r[k].encoding == Some(TagIter(tags, 0)[k].tag.encoding)
  {
    var ctx, it := Context(0, formatScale, esc), TagIter(tags, 0);
    var f := p => RegisterInputAt(p, formatScale);
    RegisterInputPicks(formatScale);
    SubListPicked([], tags, ctx, RegisterOut, RegisterInput, f, formatScale);
    assert Picked([], RegisterInput) == [];
    PlacedMapPointwise(it, f);
    assert Picked(SubListOut([], tags, ctx, RegisterOut), RegisterInput) == PlacedMap(it, f);
  }
}
