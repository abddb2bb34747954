/**
 * Fixed-width machine integers, powers, decimal text and the integer
 * parsing of Rust's standard library (`u8::from_str_radix`,
 * `u16::from_str_radix`, `str::parse`), shared by the other modules.
 */
module Numbers {
  import opened Wrappers

  /** `u8` */
  type Byte = x: int | 0 <= x < 0x100
  /** `u16`: one Modbus register word, or one register address */
  type Word = x: int | 0 <= x < 0x1_0000

  function Pow(b: nat, e: nat): (r: nat)
    ensures b > 0 ==> r > 0
    decreases e
  {
    if e == 0 then 1 else b * Pow(b, e - 1)
  }

  function Min(a: int, b: int): int { if a <= b then a else b }

  // ---------------------------------------------------------------------------
  // Digits and number text, as Rust's `Display` / `{:x}` write unsigned integers

  /** The character for a digit below 36: 0-9, then lower-case a-z. */
  function DigitChar(d: nat): (c: char)
    requires d < 36
  {
    if d < 10 then (48 + d) as char else (97 + d - 10) as char
  }

  /** `n` written in base `radix`, most significant digit first, without leading zeros. */
  function RadixString(n: nat, radix: nat): (s: string)
    requires 2 <= radix <= 36
    ensures |s| >= 1
    ensures forall i :: 0 <= i < |s| ==> s[i] != '+' && s[i] != '-' && s[i] != '_'
    decreases n
  {
    if n < radix then [DigitChar(n)]
    else
      QuotientSmaller(n, radix);
      RadixString(n / radix, radix) + [DigitChar(n % radix)]
  }

  lemma QuotientSmaller(n: nat, d: nat)
    requires 2 <= d <= n
    ensures n / d < n
  {
    assert n / d * d <= n;
    assert n / d * 2 <= n / d * d;
  }

  /** `format!("{}", n)` */
  function DecimalString(n: nat): (s: string)
    ensures |s| >= 1
    ensures forall i :: 0 <= i < |s| ==> '0' <= s[i] <= '9'
    decreases n
  {
    if n < 10 then [DigitChar(n)] else DecimalString(n / 10) + [DigitChar(n % 10)]
  }

  /** Decimal text is base-10 radix text. */
  lemma {:induction false} DecimalIsRadix10(n: nat)
    ensures DecimalString(n) == RadixString(n, 10)
    decreases n
  {
    if n >= 10 {
      DecimalIsRadix10(n / 10);
    }
  }

  // ---------------------------------------------------------------------------
  // Rust's integer parsing (`from_str_radix` for an unsigned type)

  /** The kinds of `ParseIntError` that unsigned parsing produces. */
  datatype IntErrorKind = Empty | InvalidDigit | PosOverflow

  /** The text `ParseIntError` displays for each kind. */
  function IntErrorMessage(k: IntErrorKind): string
  {
    match k
    case Empty => "cannot parse integer from empty string"
    case InvalidDigit => "invalid digit found in string"
    case PosOverflow => "number too large to fit in target type"
  }

  /** `char::to_digit(radix)`: 0-9, then a-z / A-Z as 10-35. */
  function DigitOf(c: char, radix: nat): (r: Option<nat>)
    ensures r.Some? ==> r.value < radix
  {
    var v :=
      if '0' <= c <= '9' then c as int - 48
      else if 'a' <= c <= 'z' then c as int - 97 + 10
      else if 'A' <= c <= 'Z' then c as int - 65 + 10
      else 36;
    if 0 <= v < radix then Some(v) else None
  }

  /**
   * The digit loop of `from_str_radix`, scanning left to right: the first
   * character that is not a digit gives InvalidDigit, the first digit that
   * makes the value reach `limit` (the type's size) gives PosOverflow.
   * Written on the prefix, so the last character is examined last.
   */
  function ScanDigits(s: string, radix: nat, limit: nat): (r: Result<nat, IntErrorKind>)
    ensures r.Ok? ==> r.value < limit
    ensures r.Err? ==> r.error != Empty
    decreases |s|
  {
    if s == [] then (if 0 < limit then Ok(0) else Err(PosOverflow))
    else match ScanDigits(s[..|s| - 1], radix, limit)
      case Err(e) => Err(e)
      case Ok(v) =>
        match DigitOf(s[|s| - 1], radix)
        case None => Err(InvalidDigit)
        case Some(d) =>
          ProductIsNat(v, radix);
          var w := v * radix + d;
          if w < limit then Ok(w) else Err(PosOverflow)
  }

  lemma ProductIsNat(a: nat, b: nat)
    ensures a * b >= 0
  {
  }

  /**
   * `from_str_radix` for an unsigned type with `limit` values: empty text is
   * Empty, a lone sign is InvalidDigit, one leading '+' is accepted.
   */
  function ParseUnsigned(s: string, radix: nat, limit: nat): (r: Result<nat, IntErrorKind>)
    ensures r.Ok? ==> r.value < limit
    ensures r == Err(Empty) <==> s == []
    ensures r.Ok? ==> s != [] && s != "+"
  {
    if s == [] then Err(Empty)
    else if s == "+" || s == "-" then Err(InvalidDigit)
    else if s[0] == '+' then ScanDigits(s[1..], radix, limit)
    else ScanDigits(s, radix, limit)
  }

  /**
   * The digit loop under two limits: a text that fits the smaller limit reads
   * the same under the larger, and a value read under the larger limit that
   * lies below the smaller one reads the same under the smaller.
   */
  lemma {:induction false} ScanLimits(s: string, radix: nat, small: nat, large: nat)
    requires 0 < small <= large
    ensures ScanDigits(s, radix, small).Ok? ==> ScanDigits(s, radix, large) == ScanDigits(s, radix, small)
    ensures ScanDigits(s, radix, large).Ok? && ScanDigits(s, radix, large).value < small ==>
              ScanDigits(s, radix, small) == ScanDigits(s, radix, large)
    decreases |s|
  {
    if s != [] {
      var init := s[..|s| - 1];
      ScanLimits(init, radix, small, large);
      var d := DigitOf(s[|s| - 1], radix);
      var rl := ScanDigits(init, radix, large);
      if d.Some? && rl.Ok? {
        ScanStepGrows(rl.value, radix, d.value);
      }
    }
  }

  /** One digit step never makes the value smaller. */
  lemma ScanStepGrows(v: nat, radix: nat, d: nat)
    requires d < radix
    ensures v <= v * radix + d
  {
    var k := radix - 1;
    assert v * radix == v * k + v;
    ProductIsNat(v, k);
  }

  /** A successful digit loop read nothing but digits of its radix. */
  lemma {:induction false} ScanAllDigits(s: string, radix: nat, limit: nat)
    requires ScanDigits(s, radix, limit).Ok?
    ensures forall i :: 0 <= i < |s| ==> DigitOf(s[i], radix).Some?
    decreases |s|
  {
    if s != [] {
      var init := s[..|s| - 1];
      ScanAllDigits(init, radix, limit);
      assert forall i :: 0 <= i < |s| - 1 ==> s[i] == init[i];
    }
  }

  /** `from_str_radix` under two limits, as ScanLimits. */
  lemma ParseLimits(s: string, radix: nat, small: nat, large: nat)
    requires 0 < small <= large
    ensures ParseUnsigned(s, radix, small).Ok? ==> ParseUnsigned(s, radix, large) == ParseUnsigned(s, radix, small)
    ensures ParseUnsigned(s, radix, large).Ok? && ParseUnsigned(s, radix, large).value < small ==>
              ParseUnsigned(s, radix, small) == ParseUnsigned(s, radix, large)
  {
    if s != [] && s[0] == '+' {
      ScanLimits(s[1..], radix, small, large);
    } else {
      ScanLimits(s, radix, small, large);
    }
  }

  /** A text `from_str_radix` accepts is '+' and digits, or digits of its radix only. */
  lemma ParseDigits(s: string, radix: nat, limit: nat)
    ensures ParseUnsigned(s, radix, limit).Ok? ==>
              s[0] == '+' || forall i :: 0 <= i < |s| ==> DigitOf(s[i], radix).Some?
  {
    if ParseUnsigned(s, radix, limit).Ok? && s[0] != '+' {
      ScanAllDigits(s, radix, limit);
    }
  }

  /** Digit text read back by the digit loop gives the number again. */
  lemma {:induction false} ScanRadixString(n: nat, radix: nat, limit: nat)
    requires 2 <= radix <= 36
    requires n < limit
    ensures ScanDigits(RadixString(n, radix), radix, limit) == Ok(n)
    decreases n
  {
    var s := RadixString(n, radix);
    if n < radix {
      DigitOfChar(n, radix);
      assert s[..|s| - 1] == [];
    } else {
      var q, d := n / radix, n % radix;
      DivShrinks(n, radix);
      DivMod(n, radix);
      assert s == RadixString(q, radix) + [DigitChar(d)];
      assert s[..|s| - 1] == RadixString(q, radix);
      assert s[|s| - 1] == DigitChar(d);
      ScanRadixString(q, radix, limit);
      DigitOfChar(d, radix);
    }
  }

  lemma DivShrinks(n: nat, radix: nat)
    requires 2 <= radix <= n
    ensures 1 <= n / radix < n
  {
    var q := n / radix;
    assert n == q * radix + n % radix;
    assert q * radix >= q * 2 by {
      assert (radix - 2) * q >= 0;
    }
  }

  lemma DivMod(n: nat, radix: nat)
    requires radix > 0
    ensures (n / radix) * radix + n % radix == n
  {
  }

  /** `to_digit` reads back the digit `DigitChar` writes. */
  lemma DigitOfChar(d: nat, radix: nat)
    requires d < radix <= 36
    ensures DigitOf(DigitChar(d), radix) == Some(d)
  {
  }

  /** `from_str_radix` reads back what `RadixString` writes, whenever the number fits. */
  lemma RadixRoundTrip(n: nat, radix: nat, limit: nat)
    requires 2 <= radix <= 36
    requires n < limit
    ensures ParseUnsigned(RadixString(n, radix), radix, limit) == Ok(n)
  {
    var s := RadixString(n, radix);
    ScanRadixString(n, radix, limit);
    assert s[0] != '+' && s[0] != '-';
  }

  /** Decimal digits read back as the number they show. */
  lemma DecimalRoundTrip(n: nat, limit: nat)
    requires n < limit
    ensures ParseUnsigned(DecimalString(n), 10, limit) == Ok(n)
  {
    DecimalIsRadix10(n);
    RadixRoundTrip(n, 10, limit);
  }

  /** Digit text of a number that does not fit stops the digit loop with PosOverflow. */
  lemma {:induction false} ScanRadixOverflow(n: nat, radix: nat, limit: nat)
    requires 2 <= radix <= 36
    requires 0 < limit <= n
    ensures ScanDigits(RadixString(n, radix), radix, limit) == Err(PosOverflow)
    decreases n
  {
    var s := RadixString(n, radix);
    if n < radix {
      DigitOfChar(n, radix);
      assert s[..|s| - 1] == [];
    } else {
      var q, d := n / radix, n % radix;
      DivShrinks(n, radix);
      DivMod(n, radix);
      assert s[..|s| - 1] == RadixString(q, radix);
      assert s[|s| - 1] == DigitChar(d);
      DigitOfChar(d, radix);
      if q < limit {
        ScanRadixString(q, radix, limit);
      } else {
        ScanRadixOverflow(q, radix, limit);
      }
    }
  }

  /** `from_str_radix` rejects the digits of a number that does not fit as too large. */
  lemma RadixOverflow(n: nat, radix: nat, limit: nat)
    requires 2 <= radix <= 36
    requires 0 < limit <= n
    ensures ParseUnsigned(RadixString(n, radix), radix, limit) == Err(PosOverflow)
  {
    var s := RadixString(n, radix);
    ScanRadixOverflow(n, radix, limit);
    assert s[0] != '+' && s[0] != '-';
  }
}
