/** The decimal-string parser and the formatter of `Decimal`. Strings are
    sequences of characters; a string that parses has only ASCII characters,
    so character counts and byte counts agree wherever they are used. */
module DecimalText {
  import opened Bounded
  import opened Errors
  import opened DecimalBase

  predicate IsDigit(c: char)
  {
    '0' <= c <= '9'
  }

  predicate AllDigits(s: string)
  {
    forall i :: 0 <= i < |s| ==> IsDigit(s[i])
  }

  function DigitValue(c: char): nat
    requires IsDigit(c)
  {
    (c as int) - ('0' as int)
  }

  function DigitChar(k: nat): (c: char)
    requires k < 10
    ensures IsDigit(c) && DigitValue(c) == k
  {
    (('0' as int) + k) as char
  }

  /** The number a string of decimal digits denotes, read left to right. */
  function DigitsValue(s: string): nat
    requires AllDigits(s)
  {
    if |s| == 0 then 0 else DigitsValue(s[..|s| - 1]) * 10 + DigitValue(s[|s| - 1])
  }

  /** `u128::to_string`: the shortest decimal digit string of a number. */
  function DigitsOf(n: nat): (s: string)
    ensures |s| >= 1 && AllDigits(s)
    ensures |s| > 1 ==> s[0] != '0'
  {
    if n < 10 then [DigitChar(n)] else DigitsOf(n / 10) + [DigitChar(n % 10)]
  }

  /** Reading back the digits of a number gives the number. */
  lemma {:induction false} DigitsOfValue(n: nat)
    ensures DigitsValue(DigitsOf(n)) == n
  {
    var s := DigitsOf(n);
    if n >= 10 {
      DigitsOfValue(n / 10);
      assert s[..|s| - 1] == DigitsOf(n / 10);
    }
  }

  function Zeros(k: nat): (s: string)
    ensures |s| == k && AllDigits(s)
    ensures forall i :: 0 <= i < k ==> s[i] == '0'
  {
    if k == 0 then [] else Zeros(k - 1) + ['0']
  }

  /** Leading zeros do not change the number a digit string denotes. */
  lemma {:induction false} LeadingZeros(z: string, t: string)
    requires AllDigits(z) && AllDigits(t)
    requires forall i :: 0 <= i < |z| ==> z[i] == '0'
    ensures AllDigits(z + t) && DigitsValue(z + t) == DigitsValue(t)
  {
    if |t| == 0 {
      assert z + t == z;
      ZerosValue(z);
    } else {
      var t' := t[..|t| - 1];
      assert (z + t)[..|z + t| - 1] == z + t';
      LeadingZeros(z, t');
    }
  }

  lemma {:induction false} ZerosValue(z: string)
    requires AllDigits(z)
    requires forall i :: 0 <= i < |z| ==> z[i] == '0'
    ensures DigitsValue(z) == 0
  {
    if |z| > 0 {
      ZerosValue(z[..|z| - 1]);
    }
  }

  /** `str::find` for one character: the first position holding it. */
  function Find(s: string, c: char): (r: Option<nat>)
    ensures r.Some? ==> r.value < |s| && s[r.value] == c && c !in s[..r.value]
    ensures r.None? <==> c !in s
  {
    if |s| == 0 then None
    else if s[0] == c then Some(0)
    else match Find(s[1..], c)
      case None => None
      case Some(k) =>
        assert s[..k + 1] == [s[0]] + s[1..][..k];
        Some(k + 1)
  }

  /** The first position of an exponent marker `e` or `E`. */
  function FindExponent(s: string): (r: Option<nat>)
    ensures r.Some? ==> r.value < |s| && s[r.value] in "eE" && 'e' !in s[..r.value] && 'E' !in s[..r.value]
    ensures r.None? <==> 'e' !in s && 'E' !in s
  {
    if |s| == 0 then None
    else if s[0] == 'e' || s[0] == 'E' then Some(0)
    else match FindExponent(s[1..])
      case None => None
      case Some(k) =>
        assert s[..k + 1] == [s[0]] + s[1..][..k];
        Some(k + 1)
  }

  /** The digits of a signed integer: the text after a leading sign. */
  function SignStripped(s: string): string
  {
    if |s| > 0 && (s[0] == '+' || s[0] == '-') then s[1..] else s
  }

  /** `i64::from_str`: an optional sign, then at least one digit, within the
      range of an i64. */
  function ParseI64(s: string): (r: Option<int>)
    ensures r.Some? ==> I64_MIN <= r.value <= I64_MAX
    ensures r.Some? <==> var body := SignStripped(s);
      |body| > 0 && AllDigits(body) &&
      (if s[0] == '-' then DigitsValue(body) <= -I64_MIN else DigitsValue(body) <= I64_MAX)
    ensures r.Some? ==> var body := SignStripped(s);
      r.value == if s[0] == '-' then -(DigitsValue(body) as int) else DigitsValue(body)
  {
    if |s| == 0 then None
    else
      var negative := s[0] == '-';
      var body := SignStripped(s);
      if |body| == 0 || !AllDigits(body) then None
      else
        var n: int := DigitsValue(body);
        if negative then (if -n < I64_MIN then None else Some(-n))
        else if n > I64_MAX then None
        else Some(n)
  }

  /** The text without its leading '+', if it has one. */
  function PlusStripped(s: string): string
  {
    if |s| > 0 && s[0] == '+' then s[1..] else s
  }

  /** `u128::from_str_radix(_, 10).unwrap()`: an optional `+`, then at least
      one digit, within the range of a u128; anything else panics. */
  function ParseU128(s: string): (r: Run<u128>)
    ensures r.Returns? <==> var body := PlusStripped(s);
      |body| > 0 && AllDigits(body) && DigitsValue(body) < U128_LIMIT
    ensures r.Returns? ==> r.value == DigitsValue(PlusStripped(s))
  {
    var body := PlusStripped(s);
    if |body| == 0 || !AllDigits(body) then Panics
    else
      var n := DigitsValue(body);
      if n < U128_LIMIT then Returns(n) else Panics
  }

  /** The digits of an unsigned decimal with its point removed, and the number
      of digits that followed the point. */
  function SplitPoint(body: string): (string, nat)
  {
    match Find(body, '.')
    case None => (body, 0)
    case Some(k) => (body[..k] + body[k + 1..], |body| - k - 1)
  }

  /** Truncating a mantissa to `shift` places and giving the whole number
      `shift` places again stays within u128. */
  predicate ShiftFits(m: Decimal, shift: u8)
  {
    ToScaleDefined(m, shift) && Pow10Fits(shift) && Rescale(m.value, m.scale, shift) * Pow10(shift) < U128_LIMIT
  }

  /** The tail of a parse with a positive exponent e: the mantissa truncated to
      e decimal places, read as an integer and rescaled to e places again. */
  function Exponentiate(mantissa: Run<Result<Decimal>>, shift: u8, negative: bool): (r: Run<Result<Decimal>>)
    ensures r.Returns? ==> r.value.Ok? && r.value.value.negative == negative
    ensures r.Returns? <==>
      mantissa.Returns? && mantissa.value.Ok? && ShiftFits(mantissa.value.value, shift)
    ensures r.Returns? ==> var m := mantissa.value.value;
      r.value.value == Decimal(Rescale(m.value, m.scale, shift) * Pow10(shift), shift, negative)
  {
    match mantissa
    case Panics => Panics
    case Returns(Err(_)) => Panics
    case Returns(Ok(m)) =>
      if !ToScaleDefined(m, shift) then Panics
      else
        var whole := Decimal(ToScale(m, shift).value, 0, negative);
        WholeToScale(whole.value, shift, negative);
        if !ToScaleDefined(whole, shift) then Panics
        else Returns(Ok(ToScale(whole, shift)))
  }

  /** The first minus sign of a non-empty text is not its first character. */
  predicate MisplacedMinus(base: string)
  {
    |base| > 0 && base[0] != '-' && '-' in base
  }

  /** The part of the parse after the exponent is split off: the sign, the
      point, the scale and the digits of `base` under exponent `e`. With a
      positive exponent the sign-stripped base is parsed again on its own. */
  function ParseMantissa(base: string, e: int): (r: Run<Result<Decimal>>)
    ensures r.Returns? && r.value.Err? ==> r.value.error == ParseErrorEmpty || r.value.error == ParseError
    ensures r == Returns(Err(ParseErrorEmpty)) <==> |base| == 0
    ensures r == Returns(Err(ParseError)) <==> MisplacedMinus(base)
    ensures r.Returns? && r.value.Ok? ==> |base| > 0 && (r.value.value.negative <==> base[0] == '-')
    decreases if e > 0 then 1 else 0
  {
    if |base| == 0 then Returns(Err(ParseErrorEmpty))
    else
      var minus := Find(base, '-');
      if minus.Some? && minus.value != 0 then Returns(Err(ParseError))
      else
        var negative := minus.Some?;
        var body := if negative then base[1..] else base;
        var split := SplitPoint(body);
        if split.1 - e > I64_MAX then Panics
        else if e > 0 then Exponentiate(ParseMantissa(body, 0), e % 0x100, negative)
        else ParsePlain(split.0, split.1, e, negative)
  }

  /** The digits of a parse without a positive exponent, at the scale
      `offset - e` truncated to u8. */
  function ParsePlain(digits: string, offset: nat, e: int, negative: bool): (r: Run<Result<Decimal>>)
    requires e <= 0
    ensures r.Returns? <==> var body := PlusStripped(digits);
      |body| > 0 && AllDigits(body) && DigitsValue(body) < U128_LIMIT
    ensures r.Returns? ==> r.value.Ok?
    ensures r.Returns? ==>
      r.value.value == Decimal(DigitsValue(PlusStripped(digits)), (offset - e) % 0x100, negative)
  {
    match ParseU128(digits)
    case Panics => Panics
    case Returns(v) => Returns(Ok(Decimal(v, (offset - e) % 0x100, negative)))
  }

  /** The text before the first exponent marker, or all of it. */
  function Mantissa(s: string): (m: string)
    ensures m <= s
  {
    match FindExponent(s)
    case None => s
    case Some(loc) => s[..loc]
  }

  /** There is no exponent marker, or the text after the first one reads
      as an i64. */
  predicate ExponentIsI64(s: string)
  {
    match FindExponent(s)
    case None => true
    case Some(loc) => ParseI64(s[loc + 1..]).Some?
  }

  /** `from_str_radix`. Errors are returned for a radix other than ten, an
      empty part before the exponent, and a minus sign that is not in front.
      An exponent that is not an i64, a digit string that is not a u128, and
      the rescaling of a positive exponent panic. Without a positive exponent
      the scale is the number of digits after the point minus the exponent,
      truncated to u8. */
  function FromStrRadix(s: string, radix: u32): (r: Run<Result<Decimal>>)
    ensures r == Returns(Err(ParseErrorBase10)) <==> radix != 10
    ensures r.Returns? && r.value.Err? ==> r.value.error in {ParseErrorBase10, ParseErrorEmpty, ParseError}
    ensures radix == 10 && !ExponentIsI64(s) ==> r.Panics?
    ensures radix == 10 ==> (r == Returns(Err(ParseErrorEmpty)) <==> ExponentIsI64(s) && |Mantissa(s)| == 0)
    ensures radix == 10 ==> (r == Returns(Err(ParseError)) <==> ExponentIsI64(s) && MisplacedMinus(Mantissa(s)))
    ensures r.Returns? && r.value.Ok? ==> (r.value.value.negative <==> s[0] == '-')
  {
    if radix != 10 then Returns(Err(ParseErrorBase10))
    else match FindExponent(s)
      case None =>
        assert Mantissa(s) == s && ExponentIsI64(s);
        ParseMantissa(s, 0)
      case Some(loc) =>
        assert Mantissa(s) == s[..loc];
        match ParseI64(s[loc + 1..])
        case None =>
          assert !ExponentIsI64(s);
          Panics
        case Some(e) =>
          assert ExponentIsI64(s);
          assert loc > 0 ==> s[..loc][0] == s[0];
          ParseMantissa(s[..loc], e)
  }

  /** The second parse of a positive-exponent string is of text that holds no
      exponent marker, so it is the mantissa parse with exponent zero. */
  lemma ReparseIsMantissa(body: string)
    requires 'e' !in body && 'E' !in body
    ensures FromStrRadix(body, 10) == ParseMantissa(body, 0)
  {
  }

  function FromStr(s: string): Run<Result<Decimal>>
  {
    FromStrRadix(s, 10)
  }

  /** The digit string of a magnitude with the decimal point placed `scale`
      places from the right, padded with zeros after "0." when there are not
      more digits than places. */
  function Pointed(rep: string, scale: nat): string
  {
    var len := |rep|;
    if scale == 0 then rep
    else if scale > len then "0." + Zeros(scale - len) + rep
    else if scale == len then "0." + rep
    else rep[..len - scale] + "." + rep[len - scale..]
  }

  /** `Display::fmt`: the pointed digits of the magnitude, with a leading '-'
      whenever the flag is set. */
  function Display(d: Decimal): string
  {
    var body := Pointed(DigitsOf(d.value), d.scale);
    if d.negative then "-" + body else body
  }

  /** The formatter as it builds its string: the digit string is rewritten in
      place, then the sign is added in front. */
  method Fmt(d: Decimal) returns (rep: string)
    ensures rep == Display(d)
  {
    var scale := d.scale;
    var digits := DigitsOf(d.value);
    rep := digits;
    var len := |rep|;
    if scale > 0 {
      if scale > len {
        var newRep := "";
        var zeros := Zeros(scale - len);
        newRep := newRep + "0.";
        newRep := newRep + zeros;
        newRep := newRep + rep;
        rep := newRep;
        assert rep == "0." + Zeros(scale - len) + digits;
      } else if scale == len {
        rep := ['.'] + rep;
        rep := ['0'] + rep;
        assert rep == "0." + digits;
      } else {
        rep := rep[..len - scale] + ['.'] + rep[len - scale..];
      }
    }
    assert rep == Pointed(digits, scale);
    if d.negative {
      rep := "-" + rep;
    }
  }

  /** Formatting never produces an exponent marker, puts a minus sign only in
      front, and marks the decimal places with at most one point. */
  lemma DisplayShape(d: Decimal)
    ensures 'e' !in Display(d) && 'E' !in Display(d)
    ensures Find(Display(d), '-') == (if d.negative then Some(0) else None)
    ensures d.scale == 0 <==> '.' !in Display(d)
  {
    var body := Pointed(DigitsOf(d.value), d.scale);
    PointedShape(DigitsOf(d.value), d.scale);
    if d.negative {
      SignedShape(body);
    }
  }

  /** The pointed digits hold only digits and, when there are places, one
      point. */
  lemma PointedShape(rep: string, scale: nat)
    requires AllDigits(rep)
    ensures forall c :: c in Pointed(rep, scale) ==> IsDigit(c) || c == '.'
    ensures scale == 0 <==> '.' !in Pointed(rep, scale)
  {
    var len := |rep|;
    if scale > len {
      var z := Zeros(scale - len);
      assert Pointed(rep, scale) == "0." + z + rep;
      assert Pointed(rep, scale)[1] == '.';
    } else if 0 < scale < len {
      var p := Pointed(rep, scale);
      assert p[len - scale] == '.';
      assert forall i :: 0 <= i < |p| ==> IsDigit(p[i]) || p[i] == '.';
    } else if 0 < scale == len {
      assert Pointed(rep, scale) == "0." + rep;
      assert Pointed(rep, scale)[1] == '.';
    }
  }

  lemma SignedShape(body: string)
    requires forall c :: c in body ==> IsDigit(c) || c == '.'
    ensures Find("-" + body, '-') == Some(0)
    ensures 'e' !in "-" + body && 'E' !in "-" + body
    ensures '.' in body <==> '.' in "-" + body
  {
    assert ("-" + body)[0] == '-';
    assert forall c :: c in "-" + body ==> c == '-' || c in body;
  }

  /** A string without an exponent marker, with a minus sign at most in front,
      parses to its digits (the point removed) at the scale given by the
      number of digits after the point. */
  lemma ParseWithoutExponent(s: string, negative: bool, body: string, digits: string, offset: nat, v: u128)
    requires 'e' !in s && 'E' !in s && |s| > 0
    requires Find(s, '-') == (if negative then Some(0) else None)
    requires body == (if negative then s[1..] else s)
    requires SplitPoint(body) == (digits, offset) && offset < 0x100
    requires ParseU128(digits) == Returns(v)
    ensures FromStr(s) == Returns(Ok(Decimal(v, offset, negative)))
  {
    assert FindExponent(s) == None;
    assert FromStr(s) == ParseMantissa(s, 0);
    MantissaWithoutExponent(s, negative, body, digits, offset, v);
  }

  lemma MantissaWithoutExponent(s: string, negative: bool, body: string, digits: string, offset: nat, v: u128)
    requires |s| > 0
    requires Find(s, '-') == (if negative then Some(0) else None)
    requires body == (if negative then s[1..] else s)
    requires SplitPoint(body) == (digits, offset) && offset < 0x100
    requires ParseU128(digits) == Returns(v)
    ensures ParseMantissa(s, 0) == Returns(Ok(Decimal(v, offset, negative)))
  {
    if negative {
      MantissaSigned(s);
    } else {
      MantissaUnsigned(s);
    }
    PlainWithoutExponent(digits, offset, negative, v);
  }

  lemma PlainWithoutExponent(digits: string, offset: nat, negative: bool, v: u128)
    requires offset < 0x100 && ParseU128(digits) == Returns(v)
    ensures ParsePlain(digits, offset, 0, negative) == Returns(Ok(Decimal(v, offset, negative)))
  {
    assert (offset - 0) % 0x100 == offset;
  }

  lemma MantissaUnsigned(s: string)
    requires |s| > 0 && Find(s, '-') == None && SplitPoint(s).1 < 0x100
    ensures ParseMantissa(s, 0) == ParsePlain(SplitPoint(s).0, SplitPoint(s).1, 0, false)
  {
  }

  lemma MantissaSigned(s: string)
    requires |s| > 0 && Find(s, '-') == Some(0) && SplitPoint(s[1..]).1 < 0x100
    ensures ParseMantissa(s, 0) == ParsePlain(SplitPoint(s[1..]).0, SplitPoint(s[1..]).1, 0, true)
  {
  }

  /** The pointed digits of a magnitude, with the point removed, denote the
      magnitude again, and the point sits `scale` places from the right. */
  lemma PointedDigits(n: u128, scale: u8)
    ensures SplitPoint(Pointed(DigitsOf(n), scale)).1 == scale
    ensures var digits := SplitPoint(Pointed(DigitsOf(n), scale)).0;
      |digits| > 0 && digits[0] != '+' && AllDigits(digits) && DigitsValue(digits) == n
  {
    var rep := DigitsOf(n);
    var len := |rep|;
    DigitsOfValue(n);
    assert '.' !in rep by {
      assert forall i :: 0 <= i < len ==> IsDigit(rep[i]);
    }
    if scale == 0 {
      assert Find(rep, '.') == None;
    } else if scale > len {
      PaddedSplit(rep, scale);
      LeadingZeros(['0'] + Zeros(scale - len), rep);
    } else if scale == len {
      FractionSplit(rep);
      LeadingZeros(['0'], rep);
    } else {
      InsideSplit(rep, scale);
    }
  }

  lemma PaddedSplit(rep: string, scale: nat)
    requires '.' !in rep && scale > |rep|
    ensures Pointed(rep, scale) == "0." + Zeros(scale - |rep|) + rep
    ensures SplitPoint(Pointed(rep, scale)) == (['0'] + Zeros(scale - |rep|) + rep, scale)
  {
    var z := Zeros(scale - |rep|);
    var body := "0." + z + rep;
    assert body[1] == '.' && '.' !in body[..1];
    FindAt(body, '.', 1);
    assert body[..1] + body[2..] == ['0'] + z + rep;
  }

  lemma FractionSplit(rep: string)
    requires |rep| > 0 && '.' !in rep
    ensures Pointed(rep, |rep|) == "0." + rep
    ensures SplitPoint("0." + rep) == (['0'] + rep, |rep|)
  {
    var body := "0." + rep;
    assert body[1] == '.' && '.' !in body[..1];
    FindAt(body, '.', 1);
    assert body[..1] + body[2..] == ['0'] + rep;
  }

  lemma InsideSplit(rep: string, scale: nat)
    requires '.' !in rep && 0 < scale < |rep|
    ensures SplitPoint(Pointed(rep, scale)) == (rep, scale)
  {
    var k := |rep| - scale;
    var body := rep[..k] + "." + rep[k..];
    assert Pointed(rep, scale) == body;
    assert '.' !in rep[..k] by {
      assert forall c :: c in rep[..k] ==> c in rep;
    }
    assert body[k] == '.' && body[..k] == rep[..k];
    FindAt(body, '.', k);
    assert body[..k] + body[k + 1..] == rep;
  }

  /** A character at position k that does not occur before k is found there. */
  lemma FindAt(s: string, c: char, k: nat)
    requires k < |s| && s[k] == c && c !in s[..k]
    ensures Find(s, c) == Some(k)
  {
  }

  /** Parsing what the formatter prints gives back the same decimal, sign
      flag and scale included. */
  lemma DisplayRoundTrip(d: Decimal)
    ensures FromStr(Display(d)) == Returns(Ok(d))
  {
    var s := Display(d);
    var body := Pointed(DigitsOf(d.value), d.scale);
    DisplayShape(d);
    PointedDigits(d.value, d.scale);
    assert (if d.negative then s[1..] else s) == body;
    var (digits, offset) := SplitPoint(body);
    ParseWithoutExponent(s, d.negative, body, digits, offset, d.value);
  }

  /** A string with an exponent marker followed by an i64 parses its part
      before the marker under that exponent. */
  lemma ExponentSplit(s: string, loc: nat, e: int)
    requires FindExponent(s) == Some(loc) && ParseI64(s[loc + 1..]) == Some(e)
    ensures FromStr(s) == ParseMantissa(s[..loc], e)
  {
    assert FromStrRadix(s, 10) == ParseMantissa(s[..loc], e);
  }

  /** Under a positive exponent, the mantissa is the sign-stripped base parsed
      on its own, then rescaled twice. */
  lemma MantissaExponent(base: string, e: int, negative: bool)
    requires |base| > 0 && e > 0
    requires Find(base, '-') == (if negative then Some(0) else None)
    ensures ParseMantissa(base, e)
      == Exponentiate(ParseMantissa(if negative then base[1..] else base, 0), e % 0x100, negative)
  {
  }

  /** The rescaling a positive exponent e applies to the parsed mantissa m:
      the magnitude truncated to e places becomes an integer, which is given
      e places again, so the value is multiplied by 10^e. */
  lemma ExponentiateValue(m: Decimal, shift: u8, negative: bool)
    requires ToScaleDefined(m, shift)
    requires Rescale(m.value, m.scale, shift) * Pow10(shift) < U128_LIMIT
    requires Pow10Fits(shift)
    ensures Exponentiate(Returns(Ok(m)), shift, negative)
      == Returns(Ok(Decimal(Rescale(m.value, m.scale, shift) * Pow10(shift), shift, negative)))
  {
    WholeToScale(Rescale(m.value, m.scale, shift), shift, negative);
  }

  /** A whole number given `shift` places is multiplied by 10^shift. */
  lemma WholeToScale(w: u128, shift: u8, negative: bool)
    ensures ToScaleDefined(Decimal(w, 0, negative), shift) <==> Pow10Fits(shift) && w * Pow10(shift) < U128_LIMIT
    ensures ToScaleDefined(Decimal(w, 0, negative), shift) ==>
      ToScale(Decimal(w, 0, negative), shift) == Decimal(w * Pow10(shift), shift, negative)
  {
    assert Pow10(shift - 0) == Pow10(shift);
    assert Pow10(0) == 1 && Pow10Fits(0);
  }

  lemma ExponentParse(s: string, loc: nat, e: int, negative: bool, m: Decimal)
    requires FindExponent(s) == Some(loc) && ParseI64(s[loc + 1..]) == Some(e) && e > 0
    requires |s[..loc]| > 0 && Find(s[..loc], '-') == (if negative then Some(0) else None)
    requires ParseMantissa(if negative then s[1..loc] else s[..loc], 0) == Returns(Ok(m))
    ensures FromStr(s) == Exponentiate(Returns(Ok(m)), e % 0x100, negative)
  {
    ExponentSplit(s, loc, e);
    MantissaExponent(s[..loc], e, negative);
    if negative {
      assert s[..loc][1..] == s[1..loc];
    }
  }

  lemma DigitsExamples()
    ensures DigitsOf(0) == "0" && DigitsOf(42) == "42"
    ensures DigitsOf(500000) == "500000" && DigitsOf(1500000) == "1500000"
  {
    assert DigitChar(0) == '0' && DigitChar(1) == '1' && DigitChar(2) == '2';
    assert DigitChar(4) == '4' && DigitChar(5) == '5';
    assert DigitsOf(42) == DigitsOf(4) + "2";
    assert DigitsOf(50) == DigitsOf(5) + "0";
    assert DigitsOf(500) == DigitsOf(50) + "0";
    assert DigitsOf(5000) == DigitsOf(500) + "0";
    assert DigitsOf(50000) == DigitsOf(5000) + "0";
    assert DigitsOf(500000) == DigitsOf(50000) + "0";
    assert DigitsOf(15) == DigitsOf(1) + "5";
    assert DigitsOf(150) == DigitsOf(15) + "0";
    assert DigitsOf(1500) == DigitsOf(150) + "0";
    assert DigitsOf(15000) == DigitsOf(1500) + "0";
    assert DigitsOf(150000) == DigitsOf(15000) + "0";
    assert DigitsOf(1500000) == DigitsOf(150000) + "0";
  }

  lemma DisplayIntegerExamples()
    ensures Display(Decimal(42, 0, false)) == "42"
    ensures Display(Decimal(42, 0, true)) == "-42"
  {
    DigitsExamples();
  }

  lemma DisplayZeroExample()
    ensures Display(Decimal(0, 6, false)) == "0.000000"
  {
    DigitsExamples();
    assert Zeros(5) == "00000";
  }

  lemma DisplayFractionExamples()
    ensures Display(Decimal(1_500_000, 6, false)) == "1.500000"
  {
    DigitsExamples();
    PointedExample();
  }

  lemma PointedExample()
    ensures Pointed("1500000", 6) == "1.500000"
  {
    assert "1500000"[..1] == "1" && "1500000"[1..] == "500000";
  }

  lemma DisplayBelowOneExamples()
    ensures Display(Decimal(500_000, 6, false)) == "0.500000"
    ensures Display(Decimal(500_000, 6, true)) == "-0.500000"
  {
    DigitsExamples();
    var body := Pointed(DigitsOf(500_000), 6);
    assert body == "0." + "500000";
    assert "-" + body == "-0.500000";
  }

  lemma ParseIntegerExample()
    ensures FromStr("42") == Returns(Ok(Decimal(42, 0, false)))
  {
    assert DigitsValue("42") == 42 by { assert "42"[..1] == "4"; }
    assert Find("42", '-') == None;
    assert SplitPoint("42") == ("42", 0);
    ParseWithoutExponent("42", false, "42", "42", 0, 42);
  }

  lemma ParseNegativeIntegerExample()
    ensures FromStr("-42") == Returns(Ok(Decimal(42, 0, true)))
  {
    assert DigitsValue("42") == 42 by { assert "42"[..1] == "4"; }
    assert Find("-42", '-') == Some(0);
    assert "-42"[1..] == "42";
    assert SplitPoint("42") == ("42", 0);
    ParseWithoutExponent("-42", true, "42", "42", 0, 42);
  }

  lemma ParseNegativeFractionExample()
    ensures FromStr("-1.5") == Returns(Ok(Decimal(15, 1, true)))
  {
    assert DigitsValue("15") == 15 by { assert "15"[..1] == "1"; }
    assert Find("-1.5", '-') == Some(0);
    assert "-1.5"[1..] == "1.5";
    assert Find("1.5", '.') == Some(1);
    assert SplitPoint("1.5") == ("15", 1) by { assert "1.5"[..1] + "1.5"[2..] == "15"; }
    ParseWithoutExponent("-1.5", true, "1.5", "15", 1, 15);
  }

  lemma OnePointFiveMantissa()
    ensures ParseMantissa("1.5", 0) == Returns(Ok(Decimal(15, 1, false)))
    ensures Find("1.5", '-') == None
  {
    OnePointFiveSplit();
    MantissaUnsigned("1.5");
    FifteenParses();
  }

  /** "1.5" has no sign and splits at its point into "15" and one place. */
  lemma OnePointFiveSplit()
    ensures Find("1.5", '-') == None
    ensures SplitPoint("1.5") == ("15", 1)
  {
    assert Find("1.5", '.') == Some(1);
    assert "1.5"[..1] + "1.5"[2..] == "15";
    assert Find("1.5", '-') == None;
  }

  /** "15" reads as fifteen. */
  lemma FifteenParses()
    ensures ParseU128("15") == Returns(15)
  {
    assert DigitsValue("15") == 15 by { assert "15"[..1] == "1"; }
  }

  lemma OnePointFiveShifted(negative: bool)
    ensures Exponentiate(Returns(Ok(Decimal(15, 1, false))), 6, negative)
      == Returns(Ok(Decimal(1_500_000_000_000, 6, negative)))
  {
    assert Pow10(5) == 100000 && Pow10(6) == 1000000;
    assert ToScale(Decimal(15, 1, false), 6).value == 1_500_000;
    assert ToScale(Decimal(1_500_000, 0, negative), 6) == Decimal(1_500_000_000_000, 6, negative);
  }

  /** "1.5e6" parses to 1.5 million at six places, and "-1.5e6" to the same
      magnitude flagged negative. */
  lemma ParseExponentExamples(negative: bool)
    ensures FromStr(if negative then "-1.5e6" else "1.5e6")
      == Returns(Ok(Decimal(1_500_000_000_000, 6, negative)))
  {
    ExponentSixByte();
    var s := if negative then "-1.5e6" else "1.5e6";
    var loc := if negative then 4 else 3;
    ExponentSixAt(s, loc);
    OnePointFiveMantissa();
    if negative {
      assert s[..4] == "-1.5" && s[1..4] == "1.5";
      assert Find("-1.5", '-') == Some(0);
    } else {
      assert s[..3] == "1.5";
    }
    ExponentParse(s, loc, 6, negative, Decimal(15, 1, false));
    OnePointFiveShifted(negative);
  }

  /** "1.5e-3": a negative exponent adds to the places after the point, so
      the digits 15 are read at four places. */
  lemma ParseNegativeExponentExample()
    ensures FromStr("1.5e-3") == Returns(Ok(Decimal(15, 4, false)))
  {
    MinusThreeAt();
    ExponentSplit("1.5e-3", 3, -3);
    assert "1.5e-3"[..3] == "1.5";
    OnePointFiveMantissaAt(-3);
  }

  /** The exponent marker of "1.5e-3", followed by "-3". */
  lemma MinusThreeAt()
    ensures FindExponent("1.5e-3") == Some(3) && ParseI64("1.5e-3"[4..]) == Some(-3)
  {
    assert "1.5e-3"[1..] == ".5e-3" && ".5e-3"[1..] == "5e-3" && "5e-3"[1..] == "e-3";
    assert FindExponent("1.5e-3") == Some(3);
    assert "1.5e-3"[4..] == "-3";
    MinusThreeParses();
  }

  /** "1.5" under a non-positive exponent e: fifteen at 1 − e places. */
  lemma OnePointFiveMantissaAt(e: int)
    requires -0xFF < e <= 0
    ensures ParseMantissa("1.5", e) == Returns(Ok(Decimal(15, 1 - e, false)))
  {
    OnePointFiveSplit();
    FifteenParses();
    assert (1 - e) % 0x100 == 1 - e;
    assert ParseMantissa("1.5", e) == ParsePlain("15", 1, e, false);
  }

  /** "+007": the leading '+' and zeros are accepted by the u128 parse of the
      digit string. */
  lemma ParsePlusExample()
    ensures FromStr("+007") == Returns(Ok(Decimal(7, 0, false)))
  {
    assert "+007"[1..] == "007" && "007"[1..] == "07" && "07"[1..] == "7";
    assert Find("+007", '-') == None && Find("+007", '.') == None;
    assert 'e' !in "+007" && 'E' !in "+007";
    assert DigitsValue("007") == 7 by { assert "007"[..2] == "00" && "00"[..1] == "0"; }
    assert ParseU128("+007") == Returns(7);
    ParseWithoutExponent("+007", false, "+007", "+007", 0, 7);
  }

  /** "1e-300": the scale 300 is truncated to a byte, giving 44 places. */
  lemma ParseScaleWrapExample()
    ensures FromStr("1e-300") == Returns(Ok(Decimal(1, 44, false)))
  {
    MinusThreeHundredAt();
    ExponentSplit("1e-300", 1, -300);
    assert "1e-300"[..1] == "1";
    OneMantissaAt(-300);
  }

  /** The exponent marker of "1e-300", followed by "-300". */
  lemma MinusThreeHundredAt()
    ensures FindExponent("1e-300") == Some(1) && ParseI64("1e-300"[2..]) == Some(-300)
  {
    assert "1e-300"[2..] == "-300" && "-300"[1..] == "300";
    assert DigitsValue("300") == 300 by { assert "300"[..2] == "30" && "30"[..1] == "3"; }
  }

  lemma MinusThreeParses()
    ensures ParseI64("-3") == Some(-3)
  {
    assert "-3"[1..] == "3" && DigitsValue("3") == 3;
  }

  /** "1" under a non-positive exponent e: one at −e places, truncated to a byte. */
  lemma OneMantissaAt(e: int)
    requires -I64_MAX <= e <= 0
    ensures ParseMantissa("1", e) == Returns(Ok(Decimal(1, -e % 0x100, false)))
  {
    assert Find("1", '-') == None && Find("1", '.') == None;
    assert DigitsValue("1") == 1;
    assert ParseMantissa("1", e) == ParsePlain("1", 0, e, false);
  }

  /** Six truncated to a byte is six. */
  lemma ExponentSixByte()
    ensures 6 % 0x100 == 6
  {
  }

  /** The exponent field "6" reads as six. */
  lemma ExponentSix()
    ensures ParseI64("6") == Some(6)
  {
    assert DigitsValue("6") == 6;
  }

  /** The exponent marker of "1.5e6" and "-1.5e6", followed by "6". */
  lemma ExponentSixAt(s: string, loc: nat)
    requires (s == "1.5e6" && loc == 3) || (s == "-1.5e6" && loc == 4)
    ensures FindExponent(s) == Some(loc) && ParseI64(s[loc + 1..]) == Some(6)
  {
    ExponentSix();
    if loc == 3 {
      MarkerOfPositive();
    } else {
      MarkerOfNegative();
    }
    assert s[loc + 1..] == "6";
  }

  lemma MarkerOfPositive()
    ensures FindExponent("1.5e6") == Some(3)
  {
    assert "1.5e6"[1..] == ".5e6" && ".5e6"[1..] == "5e6" && "5e6"[1..] == "e6";
  }

  lemma MarkerOfNegative()
    ensures FindExponent("-1.5e6") == Some(4)
  {
    assert "-1.5e6"[1..] == "1.5e6";
    MarkerOfPositive();
  }

  lemma ParseRadixErrorExample()
    ensures FromStrRadix("42", 16) == Returns(Err(ParseErrorBase10))
  {
  }

  lemma ParseEmptyErrorExamples()
    ensures FromStr("") == Returns(Err(ParseErrorEmpty))
    ensures FromStr("e5") == Returns(Err(ParseErrorEmpty))
  {
    assert FindExponent("e5") == Some(0);
    assert ParseI64("5") == Some(5);
  }

  lemma ParseSignErrorExample()
    ensures FromStr("1-2") == Returns(Err(ParseError))
  {
    assert FindExponent("1-2") == None;
    assert Find("1-2", '-') == Some(1);
  }

  lemma ParseExponentPanicExample()
    ensures FromStr("1ex") == Panics
  {
    assert FindExponent("1ex") == Some(1);
    assert ParseI64("x") == None;
  }

  lemma ParseDigitPanicExample()
    ensures FromStr("4x2") == Panics
  {
    assert FindExponent("4x2") == None;
    assert Find("4x2", '-') == None;
    assert Find("4x2", '.') == None;
    assert !AllDigits("4x2") by { assert !IsDigit("4x2"[1]); }
  }
}
