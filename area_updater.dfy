/**
 * The browser side of the register pages (web/modbus.js): an `AreaUpdater`
 * keeps, for one register area, the inputs of the page grouped by register
 * address and the last word known for each address. A change of an input
 * sends the new word to the server and shows it on every other input of
 * that address; a word from the server is shown on every input of its
 * address except the one that has focus.
 *
 * JavaScript numbers are modelled as integers. The bitwise operators work
 * on the 32 bits of a number's `ToInt32` image, modelled here as a
 * sequence of 32 booleans, least significant first; their results are
 * 32-bit two's complement numbers again.
 */
module AreaUpdaters {
  import opened Wrappers
  import opened Numbers

  // ---------------------------------------------------------------------------
  // JavaScript's 32-bit bitwise operators

  /** The 32 bits of a bitwise operand or result, least significant first. */
  type Bits = s: seq<bool> | |s| == 32 witness seq(32, _ => false)

  /** The k low bits of n, least significant first. */
  function BitsOf(n: int, k: nat): (r: seq<bool>)
    ensures |r| == k
    decreases k
  {
    if k == 0 then [] else [n % 2 == 1] + BitsOf(n / 2, k - 1)
  }

  /** The number bits stand for when read unsigned. */
  function Unsigned(b: seq<bool>): nat
  {
    if b == [] then 0 else (if b[0] then 1 else 0) + 2 * Unsigned(b[1..])
  }

  lemma {:induction false} UnsignedBound(b: seq<bool>)
    ensures Unsigned(b) < Pow(2, |b|)
  {
    if b != [] {
      UnsignedBound(b[1..]);
    }
  }

  lemma {:induction false} BitsOfUnsigned(b: seq<bool>)
    ensures BitsOf(Unsigned(b), |b|) == b
  {
    if b != [] {
      BitsOfUnsigned(b[1..]);
      var n := Unsigned(b);
      assert n % 2 == 1 <==> b[0];
      assert n / 2 == Unsigned(b[1..]);
    }
  }

  /** `ToInt32`: the bits of x modulo 2^32. */
  function ToBits(x: int): Bits
  {
    BitsOf(x % 0x1_0000_0000, 32)
  }

  /** The 32-bit two's complement number the bits of a bitwise result stand for. */
  function FromBits(b: Bits): int
  {
    if b[31] then Unsigned(b) - 0x1_0000_0000 else Unsigned(b)
  }

  lemma TwoToThe32()
    ensures Pow(2, 32) == 0x1_0000_0000
  {
    assert Pow(2, 8) == 256;
    assert Pow(2, 16) == 0x1_0000;
    assert Pow(2, 24) == 0x100_0000;
  }

  /** A bitwise result used as an operand again has the same bits. */
  lemma ToBitsFromBits(b: Bits)
    ensures ToBits(FromBits(b)) == b
  {
    var n := Unsigned(b);
    UnsignedBound(b);
    TwoToThe32();
    Reduce(FromBits(b), n);
    BitsOfUnsigned(b);
  }

  lemma Reduce(m: int, n: int)
    requires 0 <= n < 0x1_0000_0000
    requires m == n || m == n - 0x1_0000_0000
    ensures m % 0x1_0000_0000 == n
  {
  }

  function And(a: Bits, b: Bits): Bits
  {
    seq(32, i requires 0 <= i < 32 => a[i] && b[i])
  }

  function Or(a: Bits, b: Bits): Bits
  {
    seq(32, i requires 0 <= i < 32 => a[i] || b[i])
  }

  /** `~` */
  function Not(a: Bits): Bits
  {
    seq(32, i requires 0 <= i < 32 => !a[i])
  }

  /** `b << n`: JavaScript takes the count modulo 32. */
  function Shl(b: Bits, n: int): Bits
  {
    var k := n % 32;
    seq(32, i requires 0 <= i < 32 => i >= k && b[i - k])
  }

  /** `b >> n`: the arithmetic shift, which copies the sign bit in. */
  function Sar(b: Bits, n: int): Bits
  {
    var k := n % 32;
    seq(32, i requires 0 <= i < 32 => if i + k < 32 then b[i + k] else b[31])
  }

  /** The bits of `(1 << w) - 1`: the low `w % 32` bits. */
  function LowBits(w: int): Bits
  {
    var k := w % 32;
    seq(32, i requires 0 <= i < 32 => i < k)
  }

  /** `((1 << (high - low + 1)) - 1) << low`: the bits of the field `low..=high`. */
  function FieldMask(low: int, high: int): Bits
  {
    Shl(LowBits(high - low + 1), low)
  }

  /** A field of at most 31 bits inside the 32 bits of a number. */
  predicate ValidField(low: int, high: int)
  {
    0 <= low <= high < 32 && high - low < 31
  }

  /**
   * The change handler's merge, `(prior & ~mask) | (value << low) & mask`:
   * the field `low..=high` of prior replaced by the low bits of value.
   */
  function MergeBits(prior: Bits, value: Bits, low: int, high: int): Bits
  {
    var mask := FieldMask(low, high);
    Or(And(prior, Not(mask)), And(Shl(value, low), mask))
  }

  /** `update_value`'s extraction: `(v >> low) & ((1 << (high - low + 1)) - 1)`. */
  function ExtractBits(v: Bits, low: int, high: int): Bits
  {
    And(Sar(v, low), LowBits(high - low + 1))
  }

  /**
   * The merge on numbers: operands converted by `ToInt32`, the result a
   * signed 32-bit number whose bits under the field mask are those of the
   * value shifted into place, and whose other bits are the known word's.
   */
  function Merge(prior: int, value: int, low: int, high: int): (r: int)
    ensures forall i :: 0 <= i < 32 ==>
              ToBits(r)[i] == if FieldMask(low, high)[i] then Shl(ToBits(value), low)[i] else ToBits(prior)[i]
  {
    var merged := MergeBits(ToBits(prior), ToBits(value), low, high);
    ToBitsFromBits(merged);
    FromBits(merged)
  }

  /** The extraction on numbers. */
  function Extract(v: int, low: int, high: int): int
  {
    FromBits(ExtractBits(ToBits(v), low, high))
  }

  /** `value & ((1 << w) - 1)`: the low w bits of value, as a number. */
  function LowPart(value: int, w: int): int
  {
    FromBits(And(ToBits(value), LowBits(w)))
  }

  /** On bits: the field of a merge, shifted down, holds the low bits of the value. */
  lemma FieldRoundTrip(prior: Bits, value: Bits, low: int, high: int)
    requires ValidField(low, high)
    ensures ExtractBits(MergeBits(prior, value, low, high), low, high) == And(value, LowBits(high - low + 1))
  {
    var w := high - low + 1;
    var merged := MergeBits(prior, value, low, high);
    var mask := FieldMask(low, high);
    forall i | 0 <= i < 32
      ensures ExtractBits(merged, low, high)[i] == And(value, LowBits(w))[i]
    {
      if i < w {
        assert i + low < 32;
        assert mask[i + low];
      }
    }
  }

  /** Reading the field back after a merge gives the low bits of the value written. */
  lemma MergeExtract(prior: int, value: int, low: int, high: int)
    requires ValidField(low, high)
    ensures Extract(Merge(prior, value, low, high), low, high) == LowPart(value, high - low + 1)
  {
    var merged := MergeBits(ToBits(prior), ToBits(value), low, high);
    ToBitsFromBits(merged);
    FieldRoundTrip(ToBits(prior), ToBits(value), low, high);
  }

  // ---------------------------------------------------------------------------
  // The page

  /** The document's focus: the element that has it, if any. */
  class Document {
    var activeElement: Input?

    constructor (focused: Input?)
      ensures activeElement == focused
    {
      activeElement := focused;
    }
  }

  /**
   * An element of class `mb_value`: its register address, its optional
   * `bit_low`/`bit_high` field, whether it is an `input` element and a
   * checkbox, and what it shows.
   */
  class Input {
    const addr: int
    const bitLow: Option<int>
    const bitHigh: Option<int>
    const isInput: bool
    const isCheckbox: bool
    var checked: bool
    var value: int

    constructor (addr: int, bitLow: Option<int>, bitHigh: Option<int>, isInput: bool, isCheckbox: bool)
      ensures this.addr == addr && this.bitLow == bitLow && this.bitHigh == bitHigh
      ensures this.isInput == isInput && this.isCheckbox == isCheckbox
      ensures !checked && value == 0
    {
      this.addr, this.bitLow, this.bitHigh := addr, bitLow, bitHigh;
      this.isInput, this.isCheckbox := isInput, isCheckbox;
      checked, value := false, 0;
    }

    /** Both `bit_low` and `bit_high` are present. */
    predicate IsField()
    {
      bitLow.Some? && bitHigh.Some?
    }

    /** What the input shows for the register word v: its field, or the whole word. */
    function Shown(v: int): int
    {
      if IsField() then Extract(v, bitLow.value, bitHigh.value) else v
    }

    /** The word the change handler makes of the input's value and the word known before. */
    function Changed(prior: int): int
      reads this
    {
      var value := if isCheckbox then (if checked then 1 else 0) else this.value;
      if IsField() then Merge(prior, value, bitLow.value, bitHigh.value) else value
    }

    /** The input shows the word v: a checkbox is checked when its part is nonzero. */
    predicate Shows(v: int)
      reads this
    {
      if isCheckbox then checked == (Shown(v) != 0) else value == Shown(v)
    }
  }

  /** The inputs of addr, in page order. */
  function Filter(inputs: seq<Input>, addr: int): (r: seq<Input>)
    ensures forall i :: 0 <= i < |r| ==> r[i] in inputs && r[i].addr == addr
    ensures forall x :: x in inputs && x.addr == addr ==> x in r
  {
    if inputs == [] then []
    else
      var last := inputs[|inputs| - 1];
      Filter(inputs[..|inputs| - 1], addr) + (if last.addr == addr then [last] else [])
  }

  /** The constructor's `value_map`: each address that some input has, with its inputs. */
  function ByAddress(inputs: seq<Input>): map<int, seq<Input>>
  {
    if inputs == [] then map[]
    else
      var m := ByAddress(inputs[..|inputs| - 1]);
      var last := inputs[|inputs| - 1];
      m[last.addr := (if last.addr in m then m[last.addr] else []) + [last]]
  }

  /** `value_map` holds exactly the addresses of the inputs, each with its inputs in page order. */
  lemma {:induction false} ByAddressFilter(inputs: seq<Input>, a: int)
    ensures a in ByAddress(inputs) <==> exists x :: x in inputs && x.addr == a
    ensures a in ByAddress(inputs) ==> ByAddress(inputs)[a] == Filter(inputs, a)
    decreases |inputs|
  {
    if inputs != [] {
      var init := inputs[..|inputs| - 1];
      var last := inputs[|inputs| - 1];
      ByAddressFilter(init, a);
      assert inputs == init + [last];
      if a !in ByAddress(init) {
        NoneFiltered(init, a);
      }
    }
  }

  /** No input of addr a: nothing to filter. */
  lemma {:induction false} NoneFiltered(inputs: seq<Input>, a: int)
    requires forall x :: x in inputs ==> x.addr != a
    ensures Filter(inputs, a) == []
    decreases |inputs|
  {
    if inputs != [] {
      NoneFiltered(inputs[..|inputs| - 1], a);
    }
  }

  /** The value of `mb_values` after words[i] was recorded for address start + i. */
  function Applied(m: map<int, int>, start: int, words: seq<int>): (r: map<int, int>)
    ensures forall a :: a in r <==> a in m || start <= a < start + |words|
    ensures forall a :: a in r ==> r[a] == if start <= a < start + |words| then words[a - start] else m[a]
    decreases |words|
  {
    if words == [] then m
    else Applied(m[start := words[0]], start + 1, words[1..])
  }

  /** Writing one more word after a run extends the run's result by that one address. */
  lemma {:induction false} AppliedSnoc(m: map<int, int>, start: int, words: seq<int>, w: int)
    ensures Applied(m, start, words + [w]) == Applied(m, start, words)[start + |words| := w]
    decreases |words|
  {
    if words == [] {
      assert ([] + [w])[1..] == [];
    } else {
      assert (words + [w])[1..] == words[1..] + [w];
      AppliedSnoc(m[start := words[0]], start + 1, words[1..], w);
    }
  }

  /** One message to the server: `{start, regs}`. */
  datatype Message = Message(start: int, regs: seq<int>)

  class AreaUpdater {
    /** The page's `mb_value` elements of this area, in page order. */
    const inputs: seq<Input>
    /** The document whose focus `update_value` respects. */
    const doc: Document
    /** `value_map`: the inputs of each address. */
    var valueMap: map<int, seq<Input>>
    /** `mb_values`: the last word known for each address. */
    var mbValues: map<int, int>
    /** What `send` has been given, in order. */
    var sent: seq<Message>

    ghost predicate Valid()
      reads this
    {
      valueMap == ByAddress(inputs)
    }

    /** The inputs `update_value(a, _)` writes to: those of address a, but not the focused one. */
    predicate Writable(x: Input, a: int)
      reads this, doc
    {
      x.addr == a && x != doc.activeElement && x.isInput
    }

    /** The constructor: groups the elements by address; nothing known, nothing sent. */
    constructor (elements: seq<Input>, doc: Document)
      ensures Valid() && inputs == elements && this.doc == doc
      ensures mbValues == map[] && sent == []
    {
      inputs, this.doc := elements, doc;
      mbValues, sent := map[], [];
      var m: map<int, seq<Input>> := map[];
      for i := 0 to |elements|
        invariant m == ByAddress(elements[..i])
      {
        var v := elements[i];
        var e := elements[..i + 1];
        assert e[..|e| - 1] == elements[..i] && e[|e| - 1] == v;
        if v.addr in m {
          m := m[v.addr := m[v.addr] + [v]];
        } else {
          m := m[v.addr := [v]];
          assert [] + [v] == [v];
        }
        assert m == ByAddress(e);
      }
      assert elements[..|elements|] == elements;
      valueMap := m;
    }

    /**
     * `update_value(a, v)`: records v for a, and shows it on every input of
     * a except the focused one; no other element changes.
     */
    method UpdateValue(a: int, v: int)
      requires Valid()
      modifies this, inputs
      ensures Valid() && sent == old(sent)
      ensures mbValues == old(mbValues)[a := v]
      ensures forall x :: x in inputs && Writable(x, a) ==> x.Shows(v)
      ensures forall x :: x in inputs && !Writable(x, a) ==> x.checked == old(x.checked) && x.value == old(x.value)
    {
      ByAddressFilter(inputs, a);
      mbValues := mbValues[a := v];
      if a in valueMap {
        var inps := valueMap[a];
        for j := 0 to |inps|
          invariant valueMap == old(valueMap) && sent == old(sent) && mbValues == old(mbValues)[a := v]
          invariant forall x :: x in inps[..j] && Writable(x, a) ==> x.Shows(v)
          invariant forall x :: x in inputs && !(x in inps[..j] && Writable(x, a)) ==>
                      x.checked == old(x.checked) && x.value == old(x.value)
        {
          var inp := inps[j];
          if inp != doc.activeElement && inp.isInput {
            if inp.isCheckbox {
              inp.checked := inp.Shown(v) != 0;
            } else {
              inp.value := inp.Shown(v);
            }
          }
          assert inps[..j + 1] == inps[..j] + [inp];
        }
        assert inps[..|inps|] == inps;
      }
    }

    /**
     * The `change` handler of inp: the word made from the input's value and
     * the word known for its address (0 when none), sent to the server as
     * `{start: addr, regs: [word]}` and then shown as by `update_value`.
     */
    method Change(inp: Input)
      requires Valid() && inp in inputs
      modifies this, inputs
      ensures Valid()
      ensures var word := old(inp.Changed(if inp.addr in mbValues then mbValues[inp.addr] else 0));
              && sent == old(sent) + [Message(inp.addr, [word])]
              && mbValues == old(mbValues)[inp.addr := word]
              && forall x :: x in inputs && Writable(x, inp.addr) ==> x.Shows(word)
      ensures forall x :: x in inputs && !Writable(x, inp.addr) ==> x.checked == old(x.checked) && x.value == old(x.value)
    {
      var known := if inp.addr in mbValues then mbValues[inp.addr] else 0;
      var value := if inp.isCheckbox then (if inp.checked then 1 else 0) else inp.value;
      if inp.IsField() {
        value := Merge(known, value, inp.bitLow.value, inp.bitHigh.value);
      }
      sent := sent + [Message(inp.addr, [value])];
      UpdateValue(inp.addr, value);
    }

    /** The `blur` handler of inp: shows the known word again, if there is one. */
    method Blur(inp: Input)
      requires Valid() && inp in inputs
      modifies this, inputs
      ensures Valid() && sent == old(sent) && mbValues == old(mbValues)
      ensures inp.addr in mbValues ==> forall x :: x in inputs && Writable(x, inp.addr) ==> x.Shows(mbValues[inp.addr])
      ensures forall x :: x in inputs && (inp.addr !in mbValues || !Writable(x, inp.addr)) ==>
                x.checked == old(x.checked) && x.value == old(x.value)
    {
      if inp.addr in mbValues {
        UpdateValue(inp.addr, mbValues[inp.addr]);
      }
    }

    /**
     * The address loop of `onmessage`: words[i] is applied to address
     * start + i, in order. Each input of those addresses, except the
     * focused one, ends up showing its address's word.
     */
    method ApplyWords(start: int, words: seq<int>)
      requires Valid()
      modifies this, inputs
      ensures Valid() && sent == old(sent)
      ensures mbValues == Applied(old(mbValues), start, words)
      ensures forall x :: x in inputs && Covers(start, words, x.addr) && Writable(x, x.addr) ==>
                x.Shows(WordIn(start, words, x.addr))
      ensures forall x :: x in inputs && !(Covers(start, words, x.addr) && Writable(x, x.addr)) ==>
                x.checked == old(x.checked) && x.value == old(x.value)
    {
      var a := start;
      for i := 0 to |words|
        invariant a == start + i && Valid() && sent == old(sent)
        invariant mbValues == Applied(old(mbValues), start, words[..i])
        invariant forall x :: x in inputs && start <= x.addr < a && Writable(x, x.addr) ==>
                    x.Shows(words[x.addr - start])
        invariant forall x :: x in inputs && !(start <= x.addr < a && Writable(x, x.addr)) ==>
                    x.checked == old(x.checked) && x.value == old(x.value)
      {
        AppliedSnoc(old(mbValues), start, words[..i], words[i]);
        assert words[..i] + [words[i]] == words[..i + 1];
        UpdateValue(a, words[i]);
        a := a + 1;
      }
      assert words[..|words|] == words;
    }
  }

  /** An `UpdateHoldingRegs` or `UpdateInputRegs` payload. */
  datatype Update = Update(start: int, regs: seq<int>)

  /** A message from the server: either payload may be present. */
  datatype Command = Command(updateHoldingRegs: Option<Update>, updateInputRegs: Option<Update>)

  /** The first address of a payload; an absent payload covers nothing from 0. */
  function Start(u: Option<Update>): int
  {
    match u
    case None => 0
    case Some(p) => p.start
  }

  /** The words of a payload; none when it is absent. */
  function Regs(u: Option<Update>): seq<int>
  {
    match u
    case None => []
    case Some(p) => p.regs
  }

  /** The words laid out from address start cover address a. */
  predicate Covers(start: int, words: seq<int>, a: int)
  {
    start <= a < start + |words|
  }

  /** The word laid out at an address the words cover. */
  function WordIn(start: int, words: seq<int>, a: int): int
    requires Covers(start, words, a)
  {
    words[a - start]
  }

  /** One payload of `onmessage`, if present, applied by its updater. */
  method ApplyPayload(w: AreaUpdater, u: Option<Update>)
    requires w.Valid()
    modifies w, w.inputs
    ensures w.Valid() && w.sent == old(w.sent)
    ensures w.mbValues == Applied(old(w.mbValues), Start(u), Regs(u))
    ensures forall x :: x in w.inputs && Covers(Start(u), Regs(u), x.addr) && w.Writable(x, x.addr) ==>
              x.Shows(WordIn(Start(u), Regs(u), x.addr))
    ensures forall x :: x in w.inputs && !(Covers(Start(u), Regs(u), x.addr) && w.Writable(x, x.addr)) ==>
              x.checked == old(x.checked) && x.value == old(x.value)
  {
    if u.Some? {
      w.ApplyWords(Start(u), Regs(u));
    }
  }

  /**
   * `onmessage`: the holding-register payload goes to the holding-register
   * updater, then the input-register payload to the input-register updater.
   * The two updaters watch different containers of the page, so no element
   * belongs to both.
   */
  method OnMessage(holding: AreaUpdater, input: AreaUpdater, cmd: Command)
    requires holding != input && holding.Valid() && input.Valid()
    requires forall x :: x in holding.inputs ==> x !in input.inputs
    modifies holding, holding.inputs, input, input.inputs
    ensures holding.Valid() && input.Valid()
    ensures holding.sent == old(holding.sent) && input.sent == old(input.sent)
    ensures var (start, regs) := (Start(cmd.updateHoldingRegs), Regs(cmd.updateHoldingRegs));
            && holding.mbValues == Applied(old(holding.mbValues), start, regs)
            && (forall x :: x in holding.inputs && Covers(start, regs, x.addr) && holding.Writable(x, x.addr) ==>
                  x.Shows(WordIn(start, regs, x.addr)))
            && (forall x :: x in holding.inputs && !(Covers(start, regs, x.addr) && holding.Writable(x, x.addr)) ==>
                  x.checked == old(x.checked) && x.value == old(x.value))
    ensures var (start, regs) := (Start(cmd.updateInputRegs), Regs(cmd.updateInputRegs));
            && input.mbValues == Applied(old(input.mbValues), start, regs)
            && (forall x :: x in input.inputs && Covers(start, regs, x.addr) && input.Writable(x, x.addr) ==>
                  x.Shows(WordIn(start, regs, x.addr)))
            && (forall x :: x in input.inputs && !(Covers(start, regs, x.addr) && input.Writable(x, x.addr)) ==>
                  x.checked == old(x.checked) && x.value == old(x.value))
  {
    ApplyPayload(holding, cmd.updateHoldingRegs);
    ApplyPayload(input, cmd.updateInputRegs);
  }
}
