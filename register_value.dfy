/**
 * Turning the text of a configured value into register words
 * (src/register_value.rs): arbitrary-width integers in decimal, `0x` hex or
 * `0b` binary with an optional minus sign, two's complement negation byte
 * by byte, the four byte-order / word-order packings, fixed-width strings
 * padded with a fill byte, and the width check of floats.
 */
module RegisterValue {
  import opened Wrappers
  import opened Numbers
  import opened TagLists

  datatype ParseError = InvalidFloatValue | InvalidIntegerValue | TooBig | Negative | InvalidFloatLength

  /** The `Display` text of each error. */
  function ErrorMessage(e: ParseError): (s: string)
    ensures |s| > 0
  {
    match e
    case InvalidFloatValue => "Invalid floating point value"
    case InvalidIntegerValue => "Invalid integer value"
    case TooBig => "Value does not fit in register range"
    case Negative => "Negative values not allowed"
    case InvalidFloatLength => "Floating point values must be 2 or 4 registers long."
  }

  // ---------------------------------------------------------------------------
  // Little-endian byte strings and the numbers they hold

  /** The number held by little-endian bytes. */
  function LeValue(b: seq<Byte>): nat
  {
    if b == [] then 0 else b[0] + 256 * LeValue(b[1..])
  }

  /** The `n` low-order bytes of `v`, least significant first. */
  function LeBytes(v: nat, n: nat): (b: seq<Byte>)
    ensures |b| == n
  {
    if n == 0 then [] else [v % 256] + LeBytes(v / 256, n - 1)
  }

  function Zeros(n: nat): (z: seq<Byte>)
    ensures |z| == n && forall i :: 0 <= i < n ==> z[i] == 0
  {
    seq(n, _ => 0)
  }

  lemma {:induction false} LeValueBound(b: seq<Byte>)
    ensures LeValue(b) < Pow(256, |b|)
    decreases |b|
  {
    if b != [] {
      LeValueBound(b[1..]);
    }
  }

  /** Fixed-width bytes hold the number back whenever it fits. */
  lemma {:induction false} LeBytesValue(v: nat, n: nat)
    requires v < Pow(256, n)
    ensures LeValue(LeBytes(v, n)) == v
    decreases n
  {
    if n > 0 {
      assert v / 256 < Pow(256, n - 1);
      LeBytesValue(v / 256, n - 1);
      assert LeBytes(v, n)[1..] == LeBytes(v / 256, n - 1);
    }
  }

  /** Bytes are the fixed-width bytes of the number they hold. */
  lemma {:induction false} LeValueBytes(b: seq<Byte>)
    ensures LeBytes(LeValue(b), |b|) == b
    decreases |b|
  {
    if b != [] {
      LeValueBytes(b[1..]);
      assert (b[0] + 256 * LeValue(b[1..])) / 256 == LeValue(b[1..]);
    }
  }

  /** Appending a byte adds it at the next power of 256. */
  lemma {:induction false} LeValueSnoc(b: seq<Byte>, x: Byte)
    ensures LeValue(b + [x]) == LeValue(b) + x * Pow(256, |b|)
    decreases |b|
  {
    if b == [] {
      assert [x][1..] == [];
    } else {
      assert (b + [x])[1..] == b[1..] + [x];
      LeValueSnoc(b[1..], x);
    }
  }

  lemma {:induction false} LeValueZeros(b: seq<Byte>, n: nat)
    ensures LeValue(b + Zeros(n)) == LeValue(b)
    decreases n
  {
    if n == 0 {
      assert b + Zeros(0) == b;
    } else {
      assert Zeros(n) == Zeros(n - 1) + [0];
      assert b + Zeros(n) == (b + Zeros(n - 1)) + [0];
      LeValueSnoc(b + Zeros(n - 1), 0);
      assert LeValue(b + Zeros(n)) == LeValue(b + Zeros(n - 1));
      LeValueZeros(b, n - 1);
    }
  }

  /**
   * `BigUint::to_bytes_le`: the shortest little-endian bytes of `v`, a single
   * zero byte for zero.
   */
  function ToBytesLe(v: nat): (b: seq<Byte>)
    ensures LeValue(b) == v
    ensures |b| >= 1 && (|b| > 1 ==> b[|b| - 1] != 0)
    decreases v
  {
    if v < 256 then [v] else [v % 256] + ToBytesLe(v / 256)
  }

  /** The minimal bytes fit in `n >= 1` bytes exactly when the number is below 256^n. */
  lemma {:induction false} ToBytesLeFits(v: nat, n: nat)
    requires n >= 1
    ensures |ToBytesLe(v)| <= n <==> v < Pow(256, n)
    decreases v
  {
    if v < 256 {
      FitsSmall(v, n);
    } else if n == 1 {
      FitsOne(v);
    } else {
      QuotientSmaller(v, 256);
      ToBytesLeFits(v / 256, n - 1);
      FitsStep(v, n);
    }
  }

  lemma FitsSmall(v: nat, n: nat)
    requires n >= 1 && v < 256
    ensures |ToBytesLe(v)| <= n && v < Pow(256, n)
  {
    assert |ToBytesLe(v)| == 1;
    PowAtLeast(n);
  }

  lemma FitsOne(v: nat)
    requires v >= 256
    ensures |ToBytesLe(v)| > 1 && v >= Pow(256, 1)
  {
    ToBytesLeLong(v);
    assert Pow(256, 1) == 256;
  }

  lemma FitsStep(v: nat, n: nat)
    requires v >= 256 && n >= 2
    requires |ToBytesLe(v / 256)| <= n - 1 <==> v / 256 < Pow(256, n - 1)
    ensures |ToBytesLe(v)| <= n <==> v < Pow(256, n)
  {
    ToBytesLeLong(v);
    BelowPowStep(v, n);
  }

  /** A number from 256 on takes one byte more than its quotient by 256. */
  lemma ToBytesLeLong(v: nat)
    requires v >= 256
    ensures |ToBytesLe(v)| == 1 + |ToBytesLe(v / 256)| >= 2
  {
  }

  /** Dropping the lowest byte divides the bound by 256. */
  lemma BelowPowStep(v: nat, n: nat)
    requires n >= 1
    ensures v < Pow(256, n) <==> v / 256 < Pow(256, n - 1)
  {
    var p, q, r := Pow(256, n - 1), v / 256, v % 256;
    assert v == 256 * q + r && 0 <= r < 256;
    assert Pow(256, n) == 256 * p;
    if q < p {
      assert 256 * q <= 256 * (p - 1);
    } else {
      assert 256 * q >= 256 * p;
    }
  }

  lemma {:induction false} PowAtLeast(n: nat)
    requires n >= 1
    ensures Pow(256, n) >= 256
    decreases n
  {
    if n > 1 {
      PowAtLeast(n - 1);
    }
  }

  /** Padding the minimal bytes with zeros gives the fixed-width bytes. */
  lemma PadToWidth(v: nat, n: nat)
    requires |ToBytesLe(v)| <= n
    ensures ToBytesLe(v) + Zeros(n - |ToBytesLe(v)|) == LeBytes(v, n)
  {
    var b := ToBytesLe(v);
    var p := b + Zeros(n - |b|);
    LeValueZeros(b, n - |b|);
    LeValueBytes(p);
  }

  // ---------------------------------------------------------------------------
  // Packing little-endian bytes into words

  /** `a` as the high byte, `b` as the low byte. */
  function Pack(a: Byte, b: Byte): Word
  {
    a * 256 + b
  }

  /**
   * Word `k` of the packing: the word order picks which byte pair, counted
   * from the least significant end, goes to position `k` (big: the most
   * significant pair first); the byte order says whether the pair's higher
   * byte goes in the high half.
   */
  function WordAt(bytes: seq<Byte>, encoding: Encoding, k: nat): Word
    requires |bytes| % 2 == 0 && k < |bytes| / 2
  {
    var n := |bytes| / 2;
    var j := if encoding.wordOrder.BigEndian? then n - 1 - k else k;
    var low, high := bytes[2 * j], bytes[2 * j + 1];
    if encoding.byteOrder.BigEndian? then Pack(high, low) else Pack(low, high)
  }

  function WordsFromLe(bytes: seq<Byte>, encoding: Encoding): (w: seq<Word>)
    requires |bytes| % 2 == 0
    ensures |w| == |bytes| / 2
  {
    seq(|bytes| / 2, k requires 0 <= k < |bytes| / 2 => WordAt(bytes, encoding, k))
  }

  /** The inverse of the packing: byte `m` of the little-endian value. */
  function ByteAt(words: seq<Word>, encoding: Encoding, m: nat): Byte
    requires m < 2 * |words|
  {
    var n := |words|;
    var j := m / 2;
    var w := words[if encoding.wordOrder.BigEndian? then n - 1 - j else j];
    if (m % 2 == 0) == encoding.byteOrder.BigEndian? then w % 256 else w / 256
  }

  function LeFromWords(words: seq<Word>, encoding: Encoding): (b: seq<Byte>)
    ensures |b| == 2 * |words|
  {
    seq(2 * |words|, m requires 0 <= m < 2 * |words| => ByteAt(words, encoding, m))
  }

  /** Unpacking the words gives the bytes back, for every byte and word order. */
  lemma BytesRoundTrip(bytes: seq<Byte>, encoding: Encoding)
    requires |bytes| % 2 == 0
    ensures LeFromWords(WordsFromLe(bytes, encoding), encoding) == bytes
  {
    var w := WordsFromLe(bytes, encoding);
    var b := LeFromWords(w, encoding);
    forall m | 0 <= m < |bytes|
      ensures b[m] == bytes[m]
    {
      ByteRoundTrip(bytes, encoding, m);
    }
  }

  lemma ByteRoundTrip(bytes: seq<Byte>, encoding: Encoding, m: nat)
    requires |bytes| % 2 == 0 && m < |bytes|
    ensures ByteAt(WordsFromLe(bytes, encoding), encoding, m) == bytes[m]
  {
    var n := |bytes| / 2;
    var j := m / 2;
    var k := if encoding.wordOrder.BigEndian? then n - 1 - j else j;
    assert (if encoding.wordOrder.BigEndian? then n - 1 - k else k) == j;
    var w := WordsFromLe(bytes, encoding)[k];
    assert w == WordAt(bytes, encoding, k);
    var low, high := bytes[2 * j], bytes[2 * j + 1];
    assert w == if encoding.byteOrder.BigEndian? then Pack(high, low) else Pack(low, high);
    if m % 2 == 0 {
      assert m == 2 * j;
    } else {
      assert m == 2 * j + 1;
    }
  }

  /** Packing the unpacked bytes gives the words back. */
  lemma WordsRoundTrip(words: seq<Word>, encoding: Encoding)
    ensures WordsFromLe(LeFromWords(words, encoding), encoding) == words
  {
    var b := LeFromWords(words, encoding);
    var w := WordsFromLe(b, encoding);
    forall k | 0 <= k < |words|
      ensures w[k] == words[k]
    {
      var n := |words|;
      var j := if encoding.wordOrder.BigEndian? then n - 1 - k else k;
      assert (2 * j) / 2 == j && (2 * j + 1) / 2 == j;
    }
  }

  function Reverse(s: seq<Byte>): (r: seq<Byte>)
    ensures |r| == |s|
  {
    seq(|s|, i requires 0 <= i < |s| => s[|s| - 1 - i])
  }

  /**
   * `build_words_from_le`: walks the bytes two at a time, from the most
   * significant end when the word order is big and from the least
   * significant end otherwise.
   */
  method BuildWordsFromLe(bytes: seq<Byte>, encoding: Encoding) returns (words: seq<Word>)
    requires |bytes| % 2 == 0
    ensures words == WordsFromLe(bytes, encoding)
  {
    var highFirst := encoding.byteOrder.BigEndian?;
    var stream := bytes;
    if encoding.wordOrder.BigEndian? {
      stream := Reverse(bytes);
    } else {
      highFirst := !highFirst;
    }
    words := [];
    var i := 0;
    while i < |stream|
      invariant i % 2 == 0 && 0 <= i <= |stream|
      invariant |words| == i / 2
      invariant forall k :: 0 <= k < |words| ==> words[k] == WordAt(bytes, encoding, k)
    {
      var first, second := stream[i], stream[i + 1];
      var w := if highFirst then Pack(first, second) else Pack(second, first);
      words := words + [w];
      i := i + 2;
    }
  }

  // ---------------------------------------------------------------------------
  // Integer text

  /**
   * The digits of a `BigUint::from_str_radix` text, left to right: `_` is
   * skipped, anything that is not a digit below the radix fails.
   */
  function DigitsValue(s: string, radix: nat): Option<nat>
    decreases |s|
  {
    if s == [] then Some(0)
    else match DigitsValue(s[..|s| - 1], radix)
      case None => None
      case Some(v) =>
        if s[|s| - 1] == '_' then Some(v)
        else match DigitOf(s[|s| - 1], radix)
          case None => None
          case Some(d) => Some(v * radix + d)
  }

  /**
   * `BigUint::from_str_radix`: one leading `+` is dropped unless another
   * follows it; the rest must be non-empty and must not start with `_`.
   */
  function BigUintFromStrRadix(s: string, radix: nat): Option<nat>
  {
    var t := if |s| >= 1 && s[0] == '+' && !(|s| >= 2 && s[1] == '+') then s[1..] else s;
    if t == [] || t[0] == '_' then None else DigitsValue(t, radix)
  }

  lemma {:induction false} DigitsRadixString(n: nat, radix: nat)
    requires 2 <= radix <= 36
    ensures DigitsValue(RadixString(n, radix), radix) == Some(n)
    decreases n
  {
    var s := RadixString(n, radix);
    if n < radix {
      DigitOfChar(n, radix);
      assert s[..|s| - 1] == [];
    } else {
      var q, d := n / radix, n % radix;
      DivShrinks(n, radix);
      assert s == RadixString(q, radix) + [DigitChar(d)];
      assert s[..|s| - 1] == RadixString(q, radix);
      assert s[|s| - 1] == DigitChar(d) != '_';
      DigitsRadixString(q, radix);
      DigitOfChar(d, radix);
      DivMod(n, radix);
    }
  }

  /** The library reads back every number written in its radix. */
  lemma BigUintRoundTrip(n: nat, radix: nat)
    requires 2 <= radix <= 36
    ensures BigUintFromStrRadix(RadixString(n, radix), radix) == Some(n)
  {
    DigitsRadixString(n, radix);
  }

  /** Leading zeros do not change the value of digit text. */
  lemma {:induction false} DigitsLeadingZero(s: string, radix: nat)
    requires radix >= 2
    ensures DigitsValue("0" + s, radix) == DigitsValue(s, radix)
    decreases |s|
  {
    var t := "0" + s;
    if s == [] {
      assert t[..|t| - 1] == [];
    } else {
      assert t[..|t| - 1] == "0" + s[..|s| - 1];
      assert t[|t| - 1] == s[|s| - 1];
      DigitsLeadingZero(s[..|s| - 1], radix);
    }
  }

  function HasPrefix(s: string, p: string): bool
  {
    |p| <= |s| && s[..|p|] == p
  }

  /**
   * The text of an unscaled integer: an optional `-`, then `0x` for hex,
   * `0b` for binary, or decimal; the sign and the magnitude, if it parses.
   */
  function ParseMagnitude(text: string): (bool, Option<nat>)
  {
    var neg := HasPrefix(text, "-");
    var pos := if neg then text[1..] else text;
    var (radix, digits) := SplitRadix(pos);
    (neg, BigUintFromStrRadix(digits, radix))
  }

  /** `0x` selects hex, `0b` binary, anything else decimal. */
  function SplitRadix(pos: string): (nat, string)
  {
    if HasPrefix(pos, "0x") then (16, pos[2..])
    else if HasPrefix(pos, "0b") then (2, pos[2..])
    else (10, pos)
  }

  /** Text written as sign, radix prefix and digits reads back as that sign and number. */
  lemma MagnitudeRoundTrip(neg: bool, n: nat, radix: nat)
    requires radix == 2 || radix == 10 || radix == 16
    ensures var sign := if neg then "-" else "";
            var prefix := if radix == 16 then "0x" else if radix == 2 then "0b" else "";
            ParseMagnitude(sign + prefix + RadixString(n, radix)) == (neg, Some(n))
  {
    var sign := if neg then "-" else "";
    var prefix := if radix == 16 then "0x" else if radix == 2 then "0b" else "";
    var digits := RadixString(n, radix);
    var pos := prefix + digits;
    assert SplitRadix(pos) == (radix, digits) by { SplitRadixString(n, radix); }
    assert pos[0] != '-';
    assert sign + prefix + digits == sign + pos;
    SignSplit(neg, pos);
    BigUintRoundTrip(n, radix);
  }

  /** An optional `-` in front of text that does not start with one is read back as the sign. */
  lemma SignSplit(neg: bool, pos: string)
    requires pos != [] && pos[0] != '-'
    ensures var text := (if neg then "-" else "") + pos;
            HasPrefix(text, "-") == neg && (if neg then text[1..] else text) == pos
  {
    var text := (if neg then "-" else "") + pos;
    assert text[0] == if neg then '-' else pos[0];
    assert text[..1] == [text[0]];
  }

  lemma SplitRadixString(n: nat, radix: nat)
    requires radix == 2 || radix == 10 || radix == 16
    ensures var prefix := if radix == 16 then "0x" else if radix == 2 then "0b" else "";
            SplitRadix(prefix + RadixString(n, radix)) == (radix, RadixString(n, radix))
  {
    var prefix := if radix == 16 then "0x" else if radix == 2 then "0b" else "";
    var digits := RadixString(n, radix);
    var pos := prefix + digits;
    if radix == 10 {
      assert pos == digits;
      assert !HasPrefix(pos, "0x") && !HasPrefix(pos, "0b") by {
        if |digits| >= 2 && digits[0] == '0' {
          assert n == 0 by { RadixStringLeadingZero(n, radix); }
        }
      }
    } else if radix == 16 {
      assert pos[..2] == "0x" && pos[2..] == digits;
    } else {
      assert pos[..2] == "0b" && pos[2..] == digits;
      assert !HasPrefix(pos, "0x");
    }
  }

  /** Radix text starts with `0` only for zero, which is the single digit `0`. */
  lemma {:induction false} RadixStringLeadingZero(n: nat, radix: nat)
    requires 2 <= radix <= 36
    requires RadixString(n, radix)[0] == '0'
    ensures n == 0
    decreases n
  {
    if n >= radix {
      DivShrinks(n, radix);
      var s := RadixString(n / radix, radix);
      assert RadixString(n, radix)[0] == s[0];
      RadixStringLeadingZero(n / radix, radix);
    }
  }

  // ---------------------------------------------------------------------------
  // Text bytes

  /** The UTF-8 bytes of one character. */
  function Utf8Char(c: char): (b: seq<Byte>)
    ensures 1 <= |b| <= 4
  {
    var n := c as int;
    if n < 0x80 then [n]
    else if n < 0x800 then [0xC0 + n / 64, 0x80 + n % 64]
    else if n < 0x1_0000 then [0xE0 + n / 4096, 0x80 + (n / 64) % 64, 0x80 + n % 64]
    else [0xF0 + n / 262144, 0x80 + (n / 4096) % 64, 0x80 + (n / 64) % 64, 0x80 + n % 64]
  }

  /** `str::bytes`: the UTF-8 encoding of the text. */
  function Utf8(s: string): (b: seq<Byte>)
    ensures |b| >= |s|
  {
    if s == [] then [] else Utf8Char(s[0]) + Utf8(s[1..])
  }

  predicate IsAscii(s: string)
  {
    forall i :: 0 <= i < |s| ==> s[i] as int < 0x80
  }

  /** ASCII text is its own character codes, one byte each. */
  lemma {:induction false} Utf8Ascii(s: string)
    requires IsAscii(s)
    ensures |Utf8(s)| == |s| && forall i :: 0 <= i < |s| ==> Utf8(s)[i] == s[i] as int
    decreases |s|
  {
    if s != [] {
      Utf8Ascii(s[1..]);
    }
  }

  /** Byte `m` of the text followed by the fill byte repeated. */
  function FilledByte(text: seq<Byte>, fill: Byte, m: nat): Byte
  {
    if m < |text| then text[m] else fill
  }

  /**
   * A string value on `count` words: the bytes of the text followed by the
   * fill byte, cut at `2 * count` bytes, two per word; with big byte order
   * the first byte of each pair is the high half.
   */
  function StringWords(text: seq<Byte>, fill: Byte, byteOrder: ByteOrder, count: nat): (w: seq<Word>)
    ensures |w| == count
  {
    seq(count, k requires 0 <= k < count =>
      var first, second := FilledByte(text, fill, 2 * k), FilledByte(text, fill, 2 * k + 1);
      if byteOrder.BigEndian? then Pack(first, second) else Pack(second, first))
  }

  /** The bytes stored in string words, in text order. */
  function StringBytes(words: seq<Word>, byteOrder: ByteOrder): (b: seq<Byte>)
    ensures |b| == 2 * |words|
  {
    seq(2 * |words|, m requires 0 <= m < 2 * |words| =>
      var w := words[m / 2];
      if (m % 2 == 0) == byteOrder.BigEndian? then w / 256 else w % 256)
  }

  /** Reading the words back gives the text, then the fill, for exactly `2 * count` bytes. */
  lemma StringRoundTrip(text: seq<Byte>, fill: Byte, byteOrder: ByteOrder, count: nat)
    ensures forall m :: 0 <= m < 2 * count ==>
      StringBytes(StringWords(text, fill, byteOrder, count), byteOrder)[m] == FilledByte(text, fill, m)
  {
    var w := StringWords(text, fill, byteOrder, count);
    forall m | 0 <= m < 2 * count
      ensures StringBytes(w, byteOrder)[m] == FilledByte(text, fill, m)
    {
      var k := m / 2;
      assert m == 2 * k || m == 2 * k + 1;
    }
  }

  // ---------------------------------------------------------------------------
  // parse

  /**
   * What the floating-point library makes of a value's text, which the
   * model takes as given: the sign and rounded magnitude of the text times
   * the scale, and the little-endian bytes of the text as `f32` and `f64`;
   * `None` where the library fails.
   */
  datatype FloatReading = FloatReading(scaled: Option<(bool, nat)>,
                                       single: Option<seq<Byte>>,
                                       double: Option<seq<Byte>>)

  predicate ValidReading(f: FloatReading)
  {
    (f.single.Some? ==> |f.single.value| == 4) && (f.double.Some? ==> |f.double.value| == 8)
  }

  function WordCount(regs: RegisterRange): int
  {
    regs.addressHigh - regs.addressLow + 1
  }

  /**
   * The `u16` arithmetic of `parse` does not overflow: the word count
   * `address_high - address_low + 1`, and for integers twice that.
   */
  predicate WellSized(regs: RegisterRange)
  {
    && regs.addressLow <= regs.addressHigh
    && regs.addressHigh - regs.addressLow < 0xFFFF
    && (regs.encoding.value.Integer? ==> 2 * WordCount(regs) < 0x1_0000)
  }

  /** The sign and magnitude of an integer value, from the scaled float or from the text. */
  function IntegerReading(regs: RegisterRange, text: string, floats: FloatReading): Result<(bool, nat), ParseError>
  {
    if regs.presentation.scale != 1.0 then
      (match floats.scaled
       case None => Err(InvalidFloatValue)
       case Some(p) => Ok(p))
    else
      var (neg, magnitude) := ParseMagnitude(text);
      match magnitude
      case None => Err(InvalidIntegerValue)
      case Some(v) => Ok((neg, v))
  }

  /** `(2^(8n) - v) mod 2^(8n)`: minus `v` in `n` bytes of two's complement. */
  function Negated(v: nat, n: nat): nat
  {
    (Pow(256, n) - v) % Pow(256, n)
  }

  /**
   * What `parse` returns: an integer is checked for sign, then for width,
   * and stored in `2 * word_count` bytes of two's complement; a float needs
   * 2 or 4 registers; a string is stored with its fill.
   */
  /**
   * The integer branch of `parse`: the value read, refused when negative for
   * an unsigned range or too wide for its registers, else its two's
   * complement bytes in the range's width.
   */
  function IntegerSpec(regs: RegisterRange, text: string, floats: FloatReading, signed: bool): Result<seq<Word>, ParseError>
    requires WellSized(regs) && ValidReading(floats)
  {
    var width := 2 * WordCount(regs);
    match IntegerReading(regs, text, floats)
    case Err(e) => Err(e)
    case Ok((neg, v)) =>
      if neg && !signed then Err(Negative)
      else if v >= Pow(256, width) then Err(TooBig)
      else Ok(WordsFromLe(LeBytes(if neg then Negated(v, width) else v, width), regs.encoding))
  }

  function ParseSpec(regs: RegisterRange, text: string, floats: FloatReading): (r: Result<seq<Word>, ParseError>)
    requires WellSized(regs) && ValidReading(floats)
    ensures r.Ok? ==> |r.value| == WordCount(regs)
    ensures regs.encoding.value.String? ==> r.Ok?
    ensures r == Err(Negative) ==> regs.encoding.value == Integer(false)
    ensures r == Err(TooBig) ==> regs.encoding.value.Integer?
    ensures r == Err(InvalidFloatLength) <==> regs.encoding.value.Float? && WordCount(regs) != 2 && WordCount(regs) != 4
  {
    var count := WordCount(regs);
    var width := 2 * count;
    match regs.encoding.value
    case Integer(signed) => IntegerSpec(regs, text, floats, signed)
    case Float =>
      if count == 2 then
        (match floats.single
         case None => Err(InvalidFloatValue)
         case Some(b) => Ok(WordsFromLe(b, regs.encoding)))
      else if count == 4 then
        (match floats.double
         case None => Err(InvalidFloatValue)
         case Some(b) => Ok(WordsFromLe(b, regs.encoding)))
      else Err(InvalidFloatLength)
    case String(fill) => Ok(StringWords(Utf8(text), fill, regs.encoding.byteOrder, count))
  }

  /**
   * The negation loop: bytes that are zero while the carry is still set
   * stay zero; the first non-zero byte and every later one is inverted, the
   * first of them plus one.
   */
  method TwosComplement(bytes: seq<Byte>) returns (out: seq<Byte>)
    ensures |out| == |bytes|
    ensures LeValue(out) == Negated(LeValue(bytes), |bytes|)
  {
    out := bytes;
    var carry := 1;
    var i := 0;
    while i < |out|
      invariant 0 <= i <= |out| == |bytes|
      invariant forall k :: i <= k < |out| ==> out[k] == bytes[k]
      invariant carry == 1 || carry == 0
      invariant carry == 1 ==> LeValue(bytes[..i]) == 0 && LeValue(out[..i]) == 0
      invariant carry == 0 ==> LeValue(bytes[..i]) > 0 && LeValue(bytes[..i]) + LeValue(out[..i]) == Pow(256, i)
    {
      var b := out[i];
      var y := if b == 0 && carry == 1 then 0 else 255 - b + carry;
      NegateStep(bytes[..i], out[..i], b, y, carry);
      assert bytes[..i + 1] == bytes[..i] + [b];
      out := out[i := y];
      carry := if b == 0 && carry == 1 then 1 else 0;
      assert out[..i + 1] == out[..i] + [y];
      i := i + 1;
    }
    assert out[..i] == out && bytes[..i] == bytes;
    LeValueBound(bytes);
    NegatedCases(LeValue(bytes), |bytes|);
  }

  /** Minus zero is zero; minus any other `v` below 256^n is 256^n - v. */
  lemma NegatedCases(v: nat, n: nat)
    requires v < Pow(256, n)
    ensures v == 0 ==> Negated(v, n) == 0
    ensures v > 0 ==> Negated(v, n) == Pow(256, n) - v
  {
    var p := Pow(256, n);
    if v == 0 {
      ModSelf(p);
    } else {
      ModSmall(p - v, p);
    }
  }

  /**
   * One step of the negation loop: while the carry is set, input and output
   * both hold zero; after it, they add up to the next power of 256.
   */
  lemma NegateStep(a: seq<Byte>, o: seq<Byte>, b: Byte, y: int, carry: int)
    requires |a| == |o|
    requires carry == 1 || carry == 0
    requires carry == 1 ==> LeValue(a) == 0 && LeValue(o) == 0
    requires carry == 0 ==> LeValue(a) > 0 && LeValue(a) + LeValue(o) == Pow(256, |a|)
    requires y == if b == 0 && carry == 1 then 0 else 255 - b + carry
    ensures 0 <= y < 256
    ensures b == 0 && carry == 1 ==> LeValue(a + [b]) == 0 && LeValue(o + [y]) == 0
    ensures !(b == 0 && carry == 1) ==>
      LeValue(a + [b]) > 0 && LeValue(a + [b]) + LeValue(o + [y]) == Pow(256, |a| + 1)
  {
    var p := Pow(256, |a|);
    LeValueSnoc(a, b);
    LeValueSnoc(o, y);
    assert Pow(256, |a| + 1) == 256 * p;
    StepArith(p, LeValue(a), LeValue(o), b, y, carry);
  }

  lemma StepArith(p: nat, va: nat, vo: nat, b: Byte, y: int, carry: int)
    requires p > 0
    requires carry == 1 || carry == 0
    requires carry == 1 ==> va == 0 && vo == 0
    requires carry == 0 ==> va > 0 && va + vo == p
    requires y == if b == 0 && carry == 1 then 0 else 255 - b + carry
    ensures 0 <= y < 256
    ensures b == 0 && carry == 1 ==> va + b * p == 0 && vo + y * p == 0
    ensures !(b == 0 && carry == 1) ==> va + b * p > 0 && (va + b * p) + (vo + y * p) == 256 * p
  {
    if !(b == 0 && carry == 1) {
      assert b * p + y * p == (b + y) * p;
      if carry == 1 {
        assert b * p >= p by { MulAtLeast(b, p); }
      }
    }
  }

  lemma MulAtLeast(b: int, p: nat)
    requires b >= 1
    ensures b * p >= p
  {
    assert b * p == (b - 1) * p + p;
  }

  lemma ModSelf(p: nat)
    requires p > 0
    ensures p % p == 0
  {
  }

  lemma ModSmall(x: int, m: int)
    requires 0 <= x < m
    ensures x % m == x
  {
  }

  /** `parse`, step by step as the source does it. */
  method Parse(regs: RegisterRange, text: string, floats: FloatReading) returns (r: Result<seq<Word>, ParseError>)
    requires WellSized(regs) && ValidReading(floats)
    ensures r == ParseSpec(regs, text, floats)
  {
    var count := regs.addressHigh - regs.addressLow + 1;
    match regs.encoding.value {
      case Integer(signed) =>
        r := ParseInteger(regs, text, floats);
      case Float =>
        if count == 2 {
          if floats.single.None? {
            return Err(InvalidFloatValue);
          }
          var words := BuildWordsFromLe(floats.single.value, regs.encoding);
          return Ok(words);
        } else if count == 4 {
          if floats.double.None? {
            return Err(InvalidFloatValue);
          }
          var words := BuildWordsFromLe(floats.double.value, regs.encoding);
          return Ok(words);
        } else {
          return Err(InvalidFloatLength);
        }
      case String(fill) =>
        r := ParseString(regs, text, floats);
    }
  }

  /** The integer branch of `parse`: read, check sign and size, pad, negate, order. */
  method ParseInteger(regs: RegisterRange, text: string, floats: FloatReading) returns (r: Result<seq<Word>, ParseError>)
    requires WellSized(regs) && ValidReading(floats) && regs.encoding.value.Integer?
    ensures r == ParseSpec(regs, text, floats)
  {
    var count := regs.addressHigh - regs.addressLow + 1;
    var signed := regs.encoding.value.signed;
    assert ParseSpec(regs, text, floats) == IntegerSpec(regs, text, floats, signed);
    var reading := IntegerReading(regs, text, floats);
    if reading.Err? {
      return Err(reading.error);
    }
    var (neg, value) := reading.value;
    if neg && !signed {
      return Err(Negative);
    }
    var bytes := ToBytesLe(value);
    ToBytesLeFits(value, count * 2);
    if |bytes| > count * 2 {
      return Err(TooBig);
    }
    bytes := IntegerBytes(bytes, value, neg, count * 2);
    var words := BuildWordsFromLe(bytes, regs.encoding);
    return Ok(words);
  }

  /**
   * The bytes of `value` in `width` bytes of two's complement: the minimal
   * bytes padded with zeros, then negated when the text had a `-`.
   */
  method IntegerBytes(minimal: seq<Byte>, value: nat, neg: bool, width: nat) returns (bytes: seq<Byte>)
    requires minimal == ToBytesLe(value) && |minimal| <= width
    ensures bytes == LeBytes(if neg then Negated(value, width) else value, width)
  {
    bytes := minimal;
    while |bytes| < width
      invariant |minimal| <= |bytes| <= width
      invariant bytes == minimal + Zeros(|bytes| - |minimal|)
      decreases width - |bytes|
    {
      bytes := bytes + [0];
    }
    PadToWidth(value, width);
    assert bytes == LeBytes(value, width);
    if neg {
      ToBytesLeFits(value, width);
      LeBytesValue(value, width);
      var negated := TwosComplement(bytes);
      LeValueBytes(negated);
      bytes := negated;
    }
  }

  /** The string branch of `parse`: the text's bytes, two to a register, filled. */
  method ParseString(regs: RegisterRange, text: string, floats: FloatReading) returns (r: Result<seq<Word>, ParseError>)
    requires WellSized(regs) && ValidReading(floats) && regs.encoding.value.String?
    ensures r == ParseSpec(regs, text, floats)
  {
    var count := regs.addressHigh - regs.addressLow + 1;
    var fill := regs.encoding.value.fill;
    var highFirst := regs.encoding.byteOrder.BigEndian?;
    var bytes := Utf8(text);
    var words: seq<Word> := [];
    var i := 0;
    while i < count * 2
      invariant i % 2 == 0 && 0 <= i <= count * 2
      invariant |words| == i / 2
      invariant forall k :: 0 <= k < |words| ==>
        words[k] == StringWords(bytes, fill, regs.encoding.byteOrder, count)[k]
    {
      var first, second := FilledByte(bytes, fill, i), FilledByte(bytes, fill, i + 1);
      var w := if highFirst then Pack(first, second) else Pack(second, first);
      words := words + [w];
      i := i + 2;
    }
    assert words == StringWords(bytes, fill, regs.encoding.byteOrder, count);
    return Ok(words);
  }

  // ---------------------------------------------------------------------------
  // Properties of parse

  /** A float that is not 2 or 4 registers wide fails, whatever its text. */
  lemma FloatLength(regs: RegisterRange, text: string, floats: FloatReading)
    requires WellSized(regs) && ValidReading(floats)
    requires regs.encoding.value.Float?
    ensures ParseSpec(regs, text, floats) == Err(InvalidFloatLength) <==> WordCount(regs) != 2 && WordCount(regs) != 4
  {
  }

  /**
   * An unscaled integer written as sign, radix prefix and digits is stored
   * as that number (minus it in two's complement when negative) in exactly
   * the configured registers, unless it is negative for an unsigned range
   * or does not fit.
   */
  lemma IntegerRoundTrip(regs: RegisterRange, neg: bool, n: nat, radix: nat, floats: FloatReading)
    requires WellSized(regs) && ValidReading(floats)
    requires regs.encoding.value.Integer? && regs.presentation.scale == 1.0
    requires radix == 2 || radix == 10 || radix == 16
    ensures var sign := if neg then "-" else "";
            var prefix := if radix == 16 then "0x" else if radix == 2 then "0b" else "";
            var r := ParseSpec(regs, sign + prefix + RadixString(n, radix), floats);
            var width := 2 * WordCount(regs);
            && (neg && !regs.encoding.value.signed ==> r == Err(Negative))
            && (!(neg && !regs.encoding.value.signed) && n >= Pow(256, width) ==> r == Err(TooBig))
            && (!(neg && !regs.encoding.value.signed) && n < Pow(256, width) ==>
                  r.Ok? && LeValue(LeFromWords(r.value, regs.encoding)) == (if neg then Negated(n, width) else n))
  {
    var sign := if neg then "-" else "";
    var prefix := if radix == 16 then "0x" else if radix == 2 then "0b" else "";
    var text := sign + prefix + RadixString(n, radix);
    assert IntegerReading(regs, text, floats) == Ok((neg, n)) by {
      MagnitudeRoundTrip(neg, n, radix);
    }
    IntegerStored(regs, text, floats, neg, n);
  }

  /**
   * Once the sign and magnitude are read, an integer is refused when it is
   * negative for an unsigned range or does not fit, and is otherwise stored
   * so that unpacking the words gives it back.
   */
  lemma IntegerStored(regs: RegisterRange, text: string, floats: FloatReading, neg: bool, n: nat)
    requires WellSized(regs) && ValidReading(floats)
    requires regs.encoding.value.Integer?
    requires IntegerReading(regs, text, floats) == Ok((neg, n))
    ensures var r := ParseSpec(regs, text, floats);
            var width := 2 * WordCount(regs);
            && (neg && !regs.encoding.value.signed ==> r == Err(Negative))
            && (!(neg && !regs.encoding.value.signed) && n >= Pow(256, width) ==> r == Err(TooBig))
            && (!(neg && !regs.encoding.value.signed) && n < Pow(256, width) ==>
                  r.Ok? && LeValue(LeFromWords(r.value, regs.encoding)) == (if neg then Negated(n, width) else n))
  {
    var width := 2 * WordCount(regs);
    if !(neg && !regs.encoding.value.signed) && n < Pow(256, width) {
      var stored := if neg then Negated(n, width) else n;
      assert stored < Pow(256, width);
      var bytes := LeBytes(stored, width);
      assert ParseSpec(regs, text, floats) == Ok(WordsFromLe(bytes, regs.encoding));
      BytesRoundTrip(bytes, regs.encoding);
      LeBytesValue(stored, width);
    }
  }

  // ---------------------------------------------------------------------------
  // The worked examples of the source's unit test

  /** An unscaled integer register range `low..=high` with the given orders. */
  function IntegerRegs(low: Word, high: Word, signed: bool, byteOrder: ByteOrder, wordOrder: WordOrder): RegisterRange
  {
    RegisterRange(low, high, None, [], None, Presentation(10, 0, 1.0, None),
                  Encoding(Integer(signed), byteOrder, wordOrder), [])
  }

  /** 8933224 (0x884F68) on two registers, in the four byte-order / word-order combinations. */
  lemma Example8933224(floats: FloatReading)
    requires ValidReading(floats)
    ensures ParseSpec(IntegerRegs(2, 3, false, ByteOrder.BigEndian, WordOrder.BigEndian), "8933224", floats)
            == Ok([0x0088, 0x4f68])
    ensures ParseSpec(IntegerRegs(2, 3, false, ByteOrder.LittleEndian, WordOrder.BigEndian), "8933224", floats)
            == Ok([0x8800, 0x684f])
    ensures ParseSpec(IntegerRegs(2, 3, false, ByteOrder.LittleEndian, WordOrder.LittleEndian), "8933224", floats)
            == Ok([0x684f, 0x8800])
    ensures ParseSpec(IntegerRegs(2, 3, false, ByteOrder.BigEndian, WordOrder.LittleEndian), "8933224", floats)
            == Ok([0x4f68, 0x0088])
  {
    var bytes := [0x68, 0x4f, 0x88, 0x00];
    ExampleOrder(ByteOrder.BigEndian, WordOrder.BigEndian, floats);
    TwoWords(bytes, Encoding(Integer(false), ByteOrder.BigEndian, WordOrder.BigEndian));
    ExampleOrder(ByteOrder.LittleEndian, WordOrder.BigEndian, floats);
    TwoWords(bytes, Encoding(Integer(false), ByteOrder.LittleEndian, WordOrder.BigEndian));
    ExampleOrder(ByteOrder.LittleEndian, WordOrder.LittleEndian, floats);
    TwoWords(bytes, Encoding(Integer(false), ByteOrder.LittleEndian, WordOrder.LittleEndian));
    ExampleOrder(ByteOrder.BigEndian, WordOrder.LittleEndian, floats);
    TwoWords(bytes, Encoding(Integer(false), ByteOrder.BigEndian, WordOrder.LittleEndian));
  }

  lemma TwoWords(bytes: seq<Byte>, encoding: Encoding)
    requires |bytes| == 4
    ensures WordsFromLe(bytes, encoding) == [WordAt(bytes, encoding, 0), WordAt(bytes, encoding, 1)]
  {
  }

  lemma ExampleOrder(byteOrder: ByteOrder, wordOrder: WordOrder, floats: FloatReading)
    requires ValidReading(floats)
    ensures var regs := IntegerRegs(2, 3, false, byteOrder, wordOrder);
            var bytes := [0x68, 0x4f, 0x88, 0x00];
            ParseSpec(regs, "8933224", floats) == Ok(WordsFromLe(bytes, regs.encoding))
  {
    var regs := IntegerRegs(2, 3, false, byteOrder, wordOrder);
    DecimalText();
    assert IntegerReading(regs, "8933224", floats) == Ok((false, 8933224));
    ExampleBytes();
  }

  lemma ExampleBytes()
    ensures 8933224 < Pow(256, 4) && LeBytes(8933224, 4) == [0x68, 0x4f, 0x88, 0x00]
  {
    assert Pow(256, 4) == 0x1_0000_0000;
  }

  lemma DecimalText()
    ensures ParseMagnitude("8933224") == (false, Some(8933224))
  {
    assert RadixString(8933224, 10) == "8933224";
    MagnitudeRoundTrip(false, 8933224, 10);
    assert "" + "" + RadixString(8933224, 10) == "8933224";
  }

  /** The test's binary text, with its three leading zeros, reads back as 0x14E6. */
  lemma BinaryText()
    ensures ParseMagnitude("-0b0001010011100110") == (true, Some(0x14E6))
  {
    var padded := "0001010011100110";
    var text := "-0b0001010011100110";
    assert text == "-" + ("0b" + padded);
    assert HasPrefix(text, "-") && text[1..] == "0b" + padded;
    assert SplitRadix("0b" + padded) == (2, padded) by {
      assert ("0b" + padded)[..2] == "0b" && ("0b" + padded)[2..] == padded;
    }
    PaddedBinaryDigits();
  }

  /** Leading zeros do not change the value of the test's binary digits. */
  lemma PaddedBinaryDigits()
    ensures DigitsValue("0001010011100110", 2) == Some(0x14E6)
  {
    var digits := "1010011100110";
    BinaryRadixString();
    DigitsRadixString(0x14E6, 2);
    ThreeLeadingZeros(digits, 2);
    assert "000" + digits == "0001010011100110";
  }

  lemma ThreeLeadingZeros(s: string, radix: nat)
    requires radix >= 2
    ensures DigitsValue("000" + s, radix) == DigitsValue(s, radix)
  {
    DigitsLeadingZero(s, radix);
    DigitsLeadingZero("0" + s, radix);
    DigitsLeadingZero("0" + ("0" + s), radix);
    assert "0" + ("0" + ("0" + s)) == "000" + s;
  }

  lemma BinaryRadixString()
    ensures RadixString(0x14E6, 2) == "1010011100110"
  {
  }

  /** A negative binary value on one signed register is stored in two's complement. */
  lemma ExampleNegativeBinary(floats: FloatReading)
    requires ValidReading(floats)
    ensures ParseSpec(IntegerRegs(2, 2, true, ByteOrder.BigEndian, WordOrder.BigEndian),
                      "-0b0001010011100110", floats) == Ok([0xEB1A])
  {
    var regs := IntegerRegs(2, 2, true, ByteOrder.BigEndian, WordOrder.BigEndian);
    var text := "-0b0001010011100110";
    assert ParseMagnitude(text) == (true, Some(0x14E6)) by { BinaryText(); }
    assert IntegerReading(regs, text, floats) == Ok((true, 0x14E6));
    assert Pow(256, 2) == 0x1_0000;
    assert Negated(0x14E6, 2) == 0xEB1A;
    assert LeBytes(0xEB1A, 2) == [0x1A, 0xEB];
    assert WordsFromLe([0x1A, 0xEB], regs.encoding) == [WordAt([0x1A, 0xEB], regs.encoding, 0)];
  }

  /** Minus zero on five signed registers is all zeros. */
  lemma ExampleMinusZero(floats: FloatReading)
    requires ValidReading(floats)
    ensures ParseSpec(IntegerRegs(2, 6, true, ByteOrder.BigEndian, WordOrder.BigEndian), "-0b0", floats)
            == Ok([0, 0, 0, 0, 0])
  {
    var regs := IntegerRegs(2, 6, true, ByteOrder.BigEndian, WordOrder.BigEndian);
    assert ParseMagnitude("-0b0") == (true, Some(0)) by { MinusZeroText(); }
    assert Negated(0, 10) == 0 by { ModSelf(Pow(256, 10)); }
    assert WordsFromLe(LeBytes(0, 10), regs.encoding) == [0, 0, 0, 0, 0] by { ZeroWords(regs.encoding); }
  }

  lemma MinusZeroText()
    ensures ParseMagnitude("-0b0") == (true, Some(0))
  {
    assert "-" + "0b" + RadixString(0, 2) == "-0b0";
    MagnitudeRoundTrip(true, 0, 2);
  }

  lemma ZeroWords(encoding: Encoding)
    ensures WordsFromLe(LeBytes(0, 10), encoding) == [0, 0, 0, 0, 0]
  {
    var bytes := LeBytes(0, 10);
    assert forall m :: 0 <= m < 10 ==> bytes[m] == 0 by {
      LeValueBytes(Zeros(10));
      assert LeValue(Zeros(10)) == 0 by { LeValueZeros([], 10); assert [] + Zeros(10) == Zeros(10); }
    }
  }
}
