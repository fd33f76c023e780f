/** The decimal codec for 64-bit integers: `uintToString`, `valueToString` and `decodeNumber`. */
module Numbers {
  import opened Text

  const TWO_64: int := 0x1_0000_0000_0000_0000
  const TWO_32: nat := 0x1_0000_0000
  const TWO_63: int := 0x8000_0000_0000_0000
  const MAX_INT: int := 0x7FFF_FFFF

  newtype uint64 = x: int | 0 <= x < 0x1_0000_0000_0000_0000
  newtype int64 = x: int | -0x8000_0000_0000_0000 <= x < 0x8000_0000_0000_0000

  // ----- two's complement -----

  function ToInt64(u: uint64): (i: int64)
    ensures (u as int - i as int) % TWO_64 == 0
  {
    if u as int < TWO_63 then u as int as int64 else (u as int - TWO_64) as int64
  }

  function ToUint64(i: int64): (u: uint64)
    ensures (u as int - i as int) % TWO_64 == 0
  {
    if i >= 0 then i as int as uint64 else (i as int + TWO_64) as uint64
  }

  /** Negation wraps: the smallest int64 is its own negation. */
  function Negate(i: int64): int64 {
    if i as int == -TWO_63 then i else -i
  }

  // ----- decimal numerals -----

  function DigitChar(d: nat): (c: char)
    requires d < 10
    ensures Digit(c) && DigitValue(c) == d
  {
    ('0' as int + d) as char
  }

  function DigitValue(c: char): (d: nat)
    requires Digit(c)
    ensures d < 10
  {
    c as int - '0' as int
  }

  /** The ten digits, in their order. */
  lemma DigitTable(d: nat)
    requires d < 10
    ensures DigitChar(d) == "0123456789"[d] && DigitValue("0123456789"[d]) == d
  {
    var digits := "0123456789";
    assert digits[0] == '0' && digits[1] == '1' && digits[2] == '2' && digits[3] == '3' && digits[4] == '4';
    assert digits[5] == '5' && digits[6] == '6' && digits[7] == '7' && digits[8] == '8' && digits[9] == '9';
  }

  predicate OnlyDigits(s: string) {
    forall i :: 0 <= i < |s| ==> Digit(s[i])
  }

  /** The shortest decimal numeral of `n`. */
  function Numeral(n: nat): (s: string)
    ensures s != "" && OnlyDigits(s)
  {
    if n < 10 then [DigitChar(n)] else Numeral(n / 10) + [DigitChar(n % 10)]
  }

  /** The number a numeral, leading zeros and the empty one included, stands for. */
  function Magnitude(s: string): nat
    requires OnlyDigits(s)
  {
    if s == "" then 0 else Magnitude(s[..|s| - 1]) * 10 + DigitValue(s[|s| - 1])
  }

  lemma {:induction false} MagnitudeOfNumeral(n: nat)
    ensures Magnitude(Numeral(n)) == n
  {
    if n >= 10 {
      MagnitudeOfNumeral(n / 10);
      assert Numeral(n)[..|Numeral(n)| - 1] == Numeral(n / 10);
    } else {
      assert Numeral(n)[..0] == "";
    }
  }

  lemma {:induction false} MagnitudeStep(s: string, i: nat)
    requires OnlyDigits(s) && i < |s|
    ensures Magnitude(s[..i + 1]) == Magnitude(s[..i]) * 10 + DigitValue(s[i])
  {
    assert s[..i + 1][..i] == s[..i];
  }

  /** Reading more digits never makes the number smaller; one more digit multiplies it by ten. */
  lemma {:induction false} MagnitudeGrows(s: string, i: nat)
    requires OnlyDigits(s) && i <= |s|
    ensures Magnitude(s[..i]) <= Magnitude(s)
    ensures i < |s| ==> Magnitude(s[..i]) * 10 <= Magnitude(s)
    decreases |s| - i
  {
    if i < |s| {
      MagnitudeStep(s, i);
      MagnitudeGrows(s, i + 1);
    } else {
      assert s[..i] == s;
    }
  }

  function Power10(k: nat): (p: nat)
    ensures p >= 1
  {
    if k == 0 then 1 else 10 * Power10(k - 1)
  }

  lemma {:induction false} NumeralLength(n: nat, k: nat)
    requires 1 <= k && n < Power10(k)
    ensures |Numeral(n)| <= k
  {
    if n >= 10 {
      NumeralLength(n / 10, k - 1);
    }
  }

  lemma Uint64NumeralLength(n: nat)
    requires n < TWO_64
    ensures |Numeral(n)| <= 20
  {
    assert Power10(5) == 100_000;
    assert Power10(10) == 10_000_000_000 by { assert Power10(7) == 10_000_000; }
    assert Power10(15) == 1_000_000_000_000_000 by { assert Power10(12) == 1_000_000_000_000; }
    assert Power10(20) == 100_000_000_000_000_000_000 by { assert Power10(17) == 100_000_000_000_000_000; }
    NumeralLength(n, 20);
  }

  /** The text of a signed number. */
  function IntText(i: int): (s: string)
    ensures s != "" && (s[0] == '-' || Digit(s[0]))
  {
    if i < 0 then "-" + Numeral(-i) else Numeral(i)
  }

  // ----- uintToString and valueToString -----

  const BUFFER_SIZE: nat := 3 * 8 + 1

  /** Writes the numeral and its terminator backwards from `current`; returns where the text starts. */
  method UintToString(value: uint64, buffer: array<char>, current: nat) returns (start: nat)
    requires BUFFER_SIZE <= current <= buffer.Length
    modifies buffer
    ensures current - 21 <= start < current
    ensures buffer[start..current - 1] == Numeral(value as nat) && buffer[current - 1] == NUL
    ensures forall i :: 0 <= i < buffer.Length && !(start <= i < current) ==> buffer[i] == old(buffer[i])
  {
    Uint64NumeralLength(value as nat);
    start := current - 1;
    buffer[start] := NUL;
    var v := value;
    var more := true;
    while more
      invariant current - 21 <= start < current
      invariant more ==> Numeral(value as nat) == Numeral(v as nat) + buffer[start..current - 1]
      invariant !more ==> Numeral(value as nat) == buffer[start..current - 1]
      invariant buffer[current - 1] == NUL
      invariant forall i :: 0 <= i < buffer.Length && !(start <= i < current) ==> buffer[i] == old(buffer[i])
      decreases if more then v as nat + 1 else 0
    {
      ghost var written := buffer[start..current - 1];
      assert |Numeral(v as nat)| + |written| <= 20;
      start := start - 1;
      buffer[start] := DigitChar((v % 10) as nat);
      assert buffer[start + 1..current - 1] == written;
      assert buffer[start..current - 1] == [DigitChar((v % 10) as nat)] + written;
      v := v / 10;
      more := v != 0;
    }
  }

  method SignedToString(value: int64) returns (text: string)
    ensures text == IntText(value as int)
  {
    var buffer := new char[BUFFER_SIZE];
    var isNegative := value < 0;
    var v := if isNegative then Negate(value) else value;
    assert ToUint64(v) as int == if isNegative then -(value as int) else value as int;
    var current := UintToString(ToUint64(v), buffer, BUFFER_SIZE);
    ghost var digits := buffer[current..BUFFER_SIZE - 1];
    if isNegative {
      assert current >= 1;
      current := current - 1;
      buffer[current] := '-';
      assert buffer[current + 1..BUFFER_SIZE - 1] == digits;
    }
    text := buffer[current..BUFFER_SIZE - 1];
  }

  method UnsignedToString(value: uint64) returns (text: string)
    ensures text == IntText(value as int)
  {
    var buffer := new char[BUFFER_SIZE];
    var current := UintToString(value, buffer, BUFFER_SIZE);
    text := buffer[current..BUFFER_SIZE - 1];
  }

  // ----- decodeNumber -----

  /** What `decodeNumber` makes of a number token; `Double` hands the token over to `decodeDouble`. */
  datatype Number = Signed(i: int64) | Unsigned(u: uint64) | Double

  /** A token as the scanner cuts it: a digit or a minus sign, then number characters. */
  predicate NumberToken(text: string) {
    text != "" && (Digit(text[0]) || text[0] == '-') && forall i :: 0 <= i < |text| ==> NumberChar(text[i])
  }

  function DigitsOf(text: string): (digits: string) {
    if text != "" && text[0] == '-' then text[1..] else text
  }

  /** An optional minus sign and digits only, possibly none. */
  predicate Integral(text: string) {
    OnlyDigits(DigitsOf(text))
  }

  /** The integer an integral token denotes; a lone minus sign denotes zero. */
  function Denoted(text: string): int
    requires Integral(text)
  {
    if text != "" && text[0] == '-' then 0 - Magnitude(DigitsOf(text)) else Magnitude(DigitsOf(text))
  }

  predicate Fits(text: string)
    requires Integral(text)
  {
    if text != "" && text[0] == '-' then -TWO_63 <= Denoted(text) else Denoted(text) < TWO_64
  }

  /** A non-negative number is kept signed only as long as it fits a 32-bit int. */
  function NumberOf(text: string): (n: Number) {
    if !Integral(text) || !Fits(text) then Double
    else if text != "" && text[0] == '-' then Signed(Denoted(text) as int64)
    else if Denoted(text) <= MAX_INT then Signed(Denoted(text) as int64)
    else Unsigned(Denoted(text) as uint64)
  }

  /** The overflow guard fires only for numbers that are too big ... */
  lemma GuardFires(digits: string, k: nat, threshold: int, max: int)
    requires OnlyDigits(digits) && k < |digits|
    requires 0 < threshold == max / 10
    requires Magnitude(digits[..k]) >= threshold
    requires Magnitude(digits[..k]) > threshold || k + 1 != |digits| || DigitValue(digits[k]) > max % 10
    ensures Magnitude(digits) > max
  {
    MagnitudeStep(digits, k);
    MagnitudeGrows(digits, k + 1);
    if k + 1 == |digits| {
      assert digits[..k + 1] == digits;
    }
  }

  /** ... and when it does not fire, the accumulator stays exact and within bounds. */
  lemma GuardPasses(digits: string, k: nat, threshold: int, max: int)
    requires OnlyDigits(digits) && k < |digits|
    requires 0 < threshold == max / 10
    requires Magnitude(digits[..k]) < threshold ||
             (Magnitude(digits[..k]) == threshold && DigitValue(digits[k]) <= max % 10)
    ensures Magnitude(digits[..k + 1]) == Magnitude(digits[..k]) * 10 + DigitValue(digits[k]) <= max
  {
    MagnitudeStep(digits, k);
  }

  /** The first loop of `decodeNumber`. */
  method LooksLikeDouble(text: string) returns (isDouble: bool)
    requires NumberToken(text)
    ensures isDouble <==> !Integral(text)
  {
    isDouble := false;
    for inspect := 0 to |text|
      invariant !isDouble ==> forall j :: 0 <= j < inspect ==> Digit(text[j]) || (j == 0 && text[j] == '-')
      invariant isDouble ==> exists j :: 0 <= j < |text| && !Digit(text[j]) && !(j == 0 && text[j] == '-')
    {
      isDouble := isDouble || text[inspect] in {'.', 'e', 'E', '+'} || (text[inspect] == '-' && inspect != 0);
    }
    if isDouble {
      NotIntegral(text);
    }
  }

  /**
   * The integer path is taken exactly when the token is integral and its magnitude fits.  The
   * accumulator is a uint64, so every step of the loop is checked not to overflow.
   */
  method DecodeNumber(text: string) returns (n: Number)
    requires NumberToken(text)
    ensures n == NumberOf(text)
  {
    var isDouble := LooksLikeDouble(text);
    if isDouble {
      return Double;
    }
    var isNegative := text[0] == '-';
    var maxIntegerValue: uint64 := if isNegative then 0x8000_0000_0000_0000 else 0xFFFF_FFFF_FFFF_FFFF;
    var threshold := maxIntegerValue / 10;
    var value: uint64 := 0;
    var digits := DigitsOf(text);
    var current := 0;
    assert digits[..0] == "";
    while current < |digits|
      invariant 0 <= current <= |digits|
      invariant OnlyDigits(digits) && value as int == Magnitude(digits[..current])
      invariant value <= maxIntegerValue
    {
      var digit := DigitValue(digits[current]) as uint64;
      if value >= threshold {
        if value > threshold || current + 1 != |digits| || digit > maxIntegerValue % 10 {
          GuardFires(digits, current, threshold as int, maxIntegerValue as int);
          return Double;
        }
      }
      GuardPasses(digits, current, threshold as int, maxIntegerValue as int);
      value := value * 10 + digit;
      current := current + 1;
    }
    assert digits[..current] == digits;
    if isNegative {
      n := Signed(Negate(ToInt64(value)));
    } else if value as int <= MAX_INT {
      n := Signed(ToInt64(value));
    } else {
      n := Unsigned(value);
    }
  }

  lemma NotIntegral(text: string)
    requires NumberToken(text)
    requires exists j :: 0 <= j < |text| && !Digit(text[j]) && !(j == 0 && text[j] == '-')
    ensures !Integral(text)
  {
    var j :| 0 <= j < |text| && !Digit(text[j]) && !(j == 0 && text[j] == '-');
    if text[0] == '-' {
      assert DigitsOf(text)[j - 1] == text[j];
    }
  }

  /** Decoding the text of a number gives the number back, as the kind of integer its range asks for. */
  lemma {:induction false} DecodesIntText(i: int)
    requires -0x8000_0000_0000_0000 <= i < 0x1_0000_0000_0000_0000
    ensures NumberToken(IntText(i))
    ensures NumberOf(IntText(i)) == if i <= 0x7FFF_FFFF then Signed(i as int64) else Unsigned(i as uint64)
  {
    if i < 0 {
      MagnitudeOfNumeral(-i);
      assert DigitsOf(IntText(i)) == Numeral(-i);
    } else {
      MagnitudeOfNumeral(i);
    }
  }
}
