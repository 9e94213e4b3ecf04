# A verified model of a fixed-point decimal math library

The library does deterministic decimal arithmetic without floating point. It has two number types.

- **`Decimal`** is the triple `{value: u128, scale: u8, negative: bool}`. It stands for `(-1)^negative * value / 10^scale`.
  - Addition, subtraction and comparison require equal scales and return an error otherwise.
  - Multiplication and division keep the scale of the left operand. They round down, or up for the `_up` variants.
  - Rescaling (`to_scale`) truncates. `to_scale_up` rounds up.
  - Square roots use Newton's iteration on a 192-bit magnitude.
  - Powers with a `u128` exponent use square-and-multiply. Powers with a `Decimal` exponent are limited to a fixed table of exponents (0, ±1/4, ±1/2, ±1, ±5/4, ±3/2, 2, -2 and the whole numbers).
  - Logarithms are taken at the compute scale of twelve places.
  - A `Decimal` can be parsed from a string, with an optional exponent, and printed back.
- **`FixedPoint`** is a raw `u128` with an implied scale of twelve places. Its kernels are:
  - the binary logarithm (integer part from the most significant bit, fraction by repeated squaring);
  - the natural and decimal logarithms derived from it;
  - a table-driven natural logarithm;
  - two "most significant bit" helpers.

The model is written in Dafny.

- Rust panics become the `Run<T>` outcome (`Returns(v)` or `Panics`).
- Rust `Result` errors become `Ok`/`Err`, and Rust `Option` becomes `Option`.
- Arithmetic is on unbounded integers. Every place where the Rust code would overflow a `u128` (or the 192-bit type) and panic is modelled explicitly. It appears either as a `requires …Defined(…)` predicate on the primitive operation or as a `Panics` outcome of the composite operation.
- Loops are kept as loops (`method`s with invariants) where the source loops:
  - the Newton iteration;
  - square-and-multiply;
  - the logarithm's fraction loop;
  - the shift cascade;
  - the formatter.

  Each loop is proved equal to a recursive specification function. The properties are proved about those functions.

Modules:

- **Base types and helpers**
  - `Bounded`: integer widths and powers.
  - `Errors`: error codes.
  - `DecimalBase`: the `Decimal` type, rescaling and conversions.
- **Arithmetic**
  - `DecimalAdd`: add, sub, neg.
  - `DecimalCompare`: comparisons.
  - `DecimalMul`, `DecimalDiv`: products and quotients, down and up.
  - `DecimalRounding`: `to_scale_up`, `abs`, `is_integer`.
- **Roots and powers**
  - `DecimalSqrt`: the square root.
  - `DecimalIntegerPow`, `DecimalPow`, `BigDecimalPow`: the powers.
- **Text**
  - `DecimalText`: parsing and display.
- **Logarithms**
  - `Log2Kernel`: the shared binary-logarithm algorithm.
  - `FixedLogs`: the `FixedPoint` logarithms.
  - `DecimalLogs`: the `Decimal` logarithms.
  - `TableLn`: the table logarithm.
  - `MostSignificantBit`: the msb helpers.
- **Examples**
  - `FixedLogExamples`, `DecimalLogExamples`, `LnTableExamples`: the logarithm test vectors of the source, stated as lemmas about the model.

## Model

| member | source | states |
|---|---|---|
| DecimalBase.Denominator | src/decimal/base.rs:132-134 | the denominator is 10^scale and at least one; the caller must keep 10^scale within u128, as the unchecked `pow` would panic otherwise |
| DecimalBase.SignPredicates | src/decimal/base.rs:137-149 | is_zero, is_positive and is_negative agree with the sign of the signed value; exactly one of them holds, so a zero flagged negative is neither positive nor negative |
| DecimalBase.Rescale | src/decimal/base.rs:90-106 | lowering the scale truncates: the result times 10^(from-to) brackets the value from below; raising the scale multiplies exactly |
| DecimalBase.ToScale | src/decimal/base.rs:90-106 | the result has the requested scale and the same sign flag, and its value is the rescaled value; the caller must avoid the `scaled_up` overflow and the `pow` overflow |
| DecimalBase.ToScaleRoundTrip | src/decimal/base.rs:90-106 | raising the scale and then lowering it back returns the original decimal |
| DecimalBase.ToScaleLowerTwice | src/decimal/base.rs:90-106 | lowering the scale in two steps truncates exactly as lowering it in one step |
| DecimalBase.RescaleLowerTwice | src/decimal/base.rs:94-97 | truncating division by 10^a and then by 10^b equals one division by 10^(a+b) |
| DecimalBase.ToU64 | src/decimal/base.rs:243-249 | the conversion to u64 panics exactly when the raw value is at least 2^64 and otherwise returns the raw value, ignoring the scale |
| DecimalBase.ConstantsAtComputeScale | src/decimal/base.rs:31-41 | one and two are 10^12 and 2·10^12; the quarter constants are exactly 1/4, 1/2, 5/4 and 3/2 of one |
| DecimalAdd.Add | src/decimal/ops/add.rs:11-57 | an error (DifferentScale) exactly when the scales differ; otherwise the scale is kept, the signed value is the exact sum, the result is negative exactly when the sum is, and a zero sum is flagged negative only when both operands were |
| DecimalAdd.AddCommutes | src/decimal/ops/add.rs:11-57 | addition is commutative, including the sign of a zero result |
| DecimalAdd.AddExamples | src/decimal/ops/add.rs:66-149 | the test vectors: 1.2+1.3, 2+(-5), (-4)+3 and the different-scale error |
| DecimalAdd.Sub | src/decimal/ops/sub.rs:11-18 | an error exactly when the scales differ; otherwise the signed value is the exact difference, negative exactly when the difference is |
| DecimalAdd.SubSelf | src/decimal/ops/sub.rs:11-18 | a decimal minus itself is a non-negative zero at its scale |
| DecimalAdd.SubExamples | src/decimal/ops/sub.rs:27-138 | the test vectors 0-15, (-10)-(-15), 10-(-15), the different-scale error, and the overflow of -u128::MAX - 1 |
| DecimalAdd.Neg | src/decimal/ops/neg.rs:9-25 | negation keeps value and scale, negates the signed value and leaves zero unchanged |
| DecimalAdd.NegInvolutive | src/decimal/ops/neg.rs:9-25 | negating twice is the identity |
| DecimalAdd.NegExamples | src/decimal/ops/neg.rs:55-73 | zero keeps its flag either way; 42 becomes negative and -42 positive |
| DecimalAdd.BigNeg | src/decimal/ops/neg.rs:30-46 | the 192-bit negation keeps value and scale, negates the signed value and leaves zero unchanged |
| DecimalAdd.BigNegAgrees | src/decimal/ops/neg.rs:9-46 | negating a widened decimal is widening its negation, and is involutive |
| DecimalCompare.KeyRefinesValue | src/decimal/core/cmp.rs:33-90 | the order the comparisons implement refines the numeric order; it differs from it only in placing a negative zero below a positive zero |
| DecimalCompare.KeyInjective | src/decimal/core/cmp.rs:18-24 | two decimals of one scale with the same order key are equal, so eq is structural equality at equal scale |
| DecimalCompare.Eq | src/decimal/core/cmp.rs:18-24 | DifferentScale for different scales; otherwise true exactly when value and sign flag agree |
| DecimalCompare.AlmostEq | src/decimal/core/cmp.rs:27-30 | never an error and ignores scale and sign: true exactly when the saturating difference of the raw values is below the precision |
| DecimalCompare.AlmostEqNotSymmetric | src/decimal/core/cmp.rs:27-30 | almost_eq is not symmetric (1 vs 100 is true, 100 vs 1 is false) and ignores scale and sign |
| DecimalCompare.Lt | src/decimal/core/cmp.rs:33-45 | DifferentScale for different scales, otherwise the strict order of the keys |
| DecimalCompare.Gt | src/decimal/core/cmp.rs:48-60 | DifferentScale for different scales, otherwise the reverse strict order |
| DecimalCompare.Gte | src/decimal/core/cmp.rs:63-75 | DifferentScale for different scales, otherwise the reverse non-strict order |
| DecimalCompare.Lte | src/decimal/core/cmp.rs:78-90 | DifferentScale for different scales, otherwise the non-strict order |
| DecimalCompare.ComparisonDuality | src/decimal/core/cmp.rs:18-90 | lte is not-gt, gte is not-lt, gt is lt swapped; the strict orders are irreflexive; eq is lte and gte together |
| DecimalCompare.LtTransitive | src/decimal/core/cmp.rs:33-45 | lt is transitive |
| DecimalCompare.CompareExamples | src/decimal/core/cmp.rs:117-421 | the test vectors of test_lte, test_lt, test_gt, test_gte and test_eq, including negative zero below zero |
| DecimalCompare.Min | src/decimal/core/cmp.rs:93-99 | panics (through `unwrap`) exactly when the scales differ; otherwise one of the two arguments, not above either, and the first one exactly when it is lte the second |
| DecimalCompare.Max | src/decimal/core/cmp.rs:102-108 | panics (through `unwrap`) exactly when the scales differ; otherwise one of the two arguments, not below either, and the first one exactly when it is gte the second |
| DecimalCompare.MinMaxPartition | src/decimal/core/cmp.rs:93-108 | at one scale both return, min and max together are the two arguments, and both are symmetric |
| DecimalCompare.MinMaxExamples | src/decimal/core/cmp.rs:424-456 | the test vectors of test_min_max, and a panic on differing scales |
| DecimalMul.Mul | src/decimal/ops/mul.rs:9-22 | the left scale is kept, the sign is the exclusive-or of the signs, and the value is the product divided by 10^(right scale), rounded down |
| DecimalMul.MulExamples | src/decimal/ops/mul.rs:65-119 | the test vectors, including all four sign combinations and the overflowing product |
| DecimalMul.MulU128 | src/decimal/ops/mul.rs:27-35 | multiplying by an integer scales the signed value exactly and keeps the scale |
| DecimalMul.MulU128IsMul | src/decimal/ops/mul.rs:9-35 | multiplying by an integer is multiplying by that integer as a scale-0 decimal |
| DecimalMul.MulU128Example | src/decimal/ops/mul.rs:122-132 | 98.76 × 555 = 54811.80 |
| DecimalMul.MulUp | src/decimal/ops/mul_up.rs:10-31 | like mul but rounded up: the result is the least value whose multiple of 10^(right scale) covers the product |
| DecimalMul.MulUpVersusMul | src/decimal/ops/mul_up.rs:10-31 | mul_up is mul plus one exactly when the division leaves a remainder |
| DecimalMul.MulUpExamples | src/decimal/ops/mul_up.rs:40-70 | the test vectors of mul_up |
| DecimalMul.MulBig | src/decimal/ops/mul.rs:40-55 | the 192-bit product divides by 10^(left scale), rounding down |
| DecimalMul.MulBigAgreesWithMul | src/decimal/ops/mul.rs:9-55 | on decimals of one scale the 192-bit product agrees with the 128-bit one |
| DecimalMul.BigMul | src/decimal/ops/big_mul.rs:11-38 | the product computed in 192 bits: the same floor as mul, with only the result required to fit u128 |
| DecimalMul.BigMulExtendsMul | src/decimal/ops/big_mul.rs:11-38 | wherever mul is defined big_mul is defined and equal to it |
| DecimalMul.BigMulExample | src/decimal/ops/big_mul.rs:47-57 | a product that overflows mul succeeds in big_mul |
| DecimalDiv.Div | src/decimal/ops/div.rs:9-22 | the left scale is kept, the sign is the exclusive-or of the signs, and the value is value·10^(right scale)/right value rounded down; division by zero is excluded |
| DecimalDiv.DivExamples | src/decimal/ops/div.rs:52-112 | the test vectors, including the four sign combinations and division by zero being undefined |
| DecimalDiv.DivByOne | src/decimal/ops/div.rs:9-22 | dividing or multiplying by one at any scale leaves the value unchanged |
| DecimalDiv.DivThenMul | src/decimal/ops/div.rs:9-22 | dividing and then multiplying back never overshoots, and loses less than one divisor |
| DecimalDiv.DivUp | src/decimal/ops/div_up.rs:10-31 | like div but rounded up |
| DecimalDiv.DivUpVersusDiv | src/decimal/ops/div_up.rs:10-31 | div_up is div plus one exactly when the division leaves a remainder |
| DecimalDiv.DivUpExamples | src/decimal/ops/div_up.rs:41-72 | the div_up test vectors, and 2 / 0.000003 rounded both ways |
| DecimalDiv.DivUpSixPlaces | src/decimal/base.rs:369-395 | from_u64(2) and from_u64(3) rescaled to six places, 2.000000 / 3.000000, is 0.666667 by div_up and 0.666666 by div |
| DecimalDiv.DivBig | src/decimal/ops/div.rs:27-42 | the 192-bit quotient, rounded down |
| DecimalDiv.DivBigAgreesWithDiv | src/decimal/ops/div.rs:9-42 | on widened decimals the 192-bit quotient agrees with the 128-bit one |
| DecimalDiv.DivBigExample | src/decimal/ops/div.rs:115-131 | the 192-bit test vector |
| DecimalDiv.BigDiv | src/decimal/ops/big_div.rs:11-38 | the quotient computed in 192 bits: the same floor as div, with only the result required to fit u128 |
| DecimalDiv.BigDivExtendsDiv | src/decimal/ops/big_div.rs:11-38 | wherever div is defined big_div is defined and equal to it |
| DecimalDiv.BigDivExample | src/decimal/ops/big_div.rs:47-57 | (2^128 - 1) / 1 succeeds |
| DecimalRounding.ToScaleUp | src/decimal/base.rs:109-124 | the result has the requested scale and is never flagged negative; lowering rounds up (the least multiple covering the value); raising multiplies exactly |
| DecimalRounding.ToScaleUpVersusToScale | src/decimal/base.rs:90-124 | to_scale_up is to_scale plus one exactly when lowering the scale drops nonzero digits |
| DecimalRounding.DroppedPlacesUp | src/decimal/base.rs:109-116 | when lowering the scale, rounding up adds one exactly when the dropped digits are not all zero |
| DecimalRounding.ToScaleUpExamples | src/decimal/base.rs:586-611 | the test vectors of to_scale_up, and that a negative input loses its sign flag |
| DecimalRounding.ToScaleExamples | src/decimal/base.rs:558-583 | the test vectors of to_scale |
| DecimalRounding.ToScaledAmount | src/decimal/base.rs:80-82 | returns exactly when the rescaled value fits u64, and then the rescaled value |
| DecimalRounding.ToScaledAmountUp | src/decimal/base.rs:85-87 | returns exactly when the value rounded up fits u64, and then that value |
| DecimalRounding.Abs | src/decimal/base.rs:61-63 | the whole part of the magnitude (floor), returned exactly when 10^scale and the whole part fit |
| DecimalRounding.AbsUp | src/decimal/base.rs:66-68 | the magnitude rounded up to a whole number; it returns exactly when 10^scale fits u128, the rounding-up sum value + 10^scale - 1 fits u128 and the ceiling fits u64 |
| DecimalRounding.AbsUpVersusAbs | src/decimal/base.rs:61-68 | abs_up is abs plus one exactly when the fraction is nonzero |
| DecimalRounding.AbsExamples | src/decimal/base.rs:537-555 | the test vectors of abs and abs_up; the u64 conversion of src/decimal/base.rs:723-726 panics |
| DecimalRounding.IsInteger | src/decimal/base.rs:152-156 | returns exactly when 10^scale fits u128 |
| DecimalRounding.IsIntegerIffDivisible | src/decimal/base.rs:152-156 | is_integer is true exactly when the value is a multiple of 10^scale |
| DecimalRounding.IsIntegerExamples | src/decimal/base.rs:765-786 | the test vectors of is_integer |
| DecimalRounding.NamedConstantsRescaled | src/decimal/base.rs:31-58 | zero, one and two are from_u128(0/1/2) raised to the compute scale |
| DecimalSqrt.ISqrtBracket | src/decimal/ops/sqrt.rs:24-74 | the reference integer square root brackets its argument |
| DecimalSqrt.RootBracketISqrt | src/decimal/ops/sqrt.rs:60-71 | the values the iteration may stop at are the integer square root, or one above it when that squares to v + 1 |
| DecimalSqrt.NewtonInvStep | src/decimal/ops/sqrt.rs:60-71 | one Newton step keeps the loop invariant, jumps to or above the root from below, and decreases the measure from above |
| DecimalSqrt.NewtonExit | src/decimal/ops/sqrt.rs:60-71 | when successive guesses differ by at most one, the guess brackets the root |
| DecimalSqrt.NewtonFrom | src/decimal/ops/sqrt.rs:60-71 | the iteration from any guess satisfying the invariant terminates in the root bracket |
| DecimalSqrt.FirstGuessBounds | src/decimal/ops/sqrt.rs:47-55 | the first guess v / 2^(bitlen/2) lies between 1 and 2^97 and so does v over it |
| DecimalSqrt.IntegerRoot | src/decimal/ops/sqrt.rs:47-71 | the iteration's result brackets the root and fits u128 |
| DecimalSqrt.Iterate | src/decimal/ops/sqrt.rs:55-71 | the loop computes the iteration's specification function |
| DecimalSqrt.SqrtBig | src/decimal/ops/sqrt.rs:24-74 | panics exactly when 10^scale overflows; zero and one are returned unchanged; ExceedsPrecisionRange exactly when value·10^scale overflows 192 bits; otherwise the root of value·10^scale at the same scale and sign, fitting u128 |
| DecimalSqrt.BigSqrt | src/decimal/ops/sqrt.rs:24-74 | the method computes SqrtBig |
| DecimalSqrt.Sqrt | src/decimal/ops/sqrt.rs:11-19 | the Decimal root returns exactly when the 192-bit root succeeds, then at the same scale and sign with the root bracket |
| DecimalSqrt.SqrtZeroOrOne | src/decimal/ops/sqrt.rs:34-36 | zero and one are their own roots |
| DecimalSqrt.SqrtPinned | src/decimal/ops/sqrt.rs:24-74 | the root is pinned by its bracket: when k² ≤ value·10^scale < (k+1)² − 1, the result is k at the same scale and sign |
| DecimalSqrt.SqrtSucceeds | src/decimal/ops/sqrt.rs:11-19 | the root of a decimal whose value·10^scale fits 192 bits never fails |
| DecimalSqrt.SqrtUnitExamples | src/decimal/ops/sqrt.rs:92-101 | √0 = 0 and √1 = 1 |
| DecimalSqrt.SqrtTwoExample | src/decimal/ops/sqrt.rs:104-107 | √2 at twelve places |
| DecimalSqrt.SqrtThreeExample | src/decimal/ops/sqrt.rs:110-113 | √3 at twelve places |
| DecimalSqrt.SqrtFourExample | src/decimal/ops/sqrt.rs:116-119 | √4 = 2 |
| DecimalSqrt.SqrtPiExample | src/decimal/ops/sqrt.rs:128-131 | √π at twelve places |
| DecimalSqrt.SqrtPiShortExample | src/decimal/ops/sqrt.rs:134-137 | √π at six places |
| DecimalText.DigitsOf | src/decimal/base.rs:302 | the decimal digits of a u128: non-empty, all digits, no leading zero |
| DecimalText.DigitsOfValue | src/decimal/base.rs:302 | reading the digits back gives the number |
| DecimalText.Find | src/decimal/base.rs:188 | the first occurrence of a character, or none exactly when it is absent |
| DecimalText.FindExponent | src/decimal/base.rs:168-171 | the first 'e' or 'E', or none exactly when neither occurs |
| DecimalText.ParseI64 | src/decimal/base.rs:179 | the exponent text parses exactly when, after an optional sign, it is a non-empty run of digits whose signed value lies in the i64 range, and then gives that signed value |
| DecimalText.ParseU128 | src/decimal/base.rs:235 | succeeds exactly when the string, after an optional '+', is a non-empty run of digits whose value fits u128, and then gives the value of those digits, with or without the '+' |
| DecimalText.ParseMantissa | src/decimal/base.rs:183-239 | the part before the exponent fails only with ParseErrorEmpty or ParseError; ParseErrorEmpty exactly when it is empty, ParseError exactly when its first '-' is not in front; a parsed value is negative exactly when the text starts with '-' |
| DecimalText.ParsePlain | src/decimal/base.rs:221-239 | with no positive exponent, returns exactly when the digits (after an optional '+') are a non-empty run of digits within u128; the result is their value, at the places after the point minus the exponent truncated to a byte, with the sign found |
| DecimalText.FromStrRadix | src/decimal/base.rs:163-240 | ParseErrorBase10 exactly for a radix other than ten; with radix ten, an exponent that is not an i64 panics, ParseErrorEmpty exactly when the exponent is an i64 and the text before the marker is empty, ParseError exactly when it is an i64 and that text has a '-' not in front; the only errors are the three parse errors; a parsed value is negative exactly when the string starts with '-' |
| DecimalText.Exponentiate | src/decimal/base.rs:223-232 | a positive exponent never yields an error (a failed inner parse panics); it returns exactly when the mantissa parsed and the truncate-and-rescale fits u128, and then gives the mantissa truncated to `shift` places times 10^shift, at `shift` places, with the sign |
| DecimalText.ReparseIsMantissa | src/decimal/base.rs:224-227 | the recursive `from_str` of a base without exponent is the mantissa parse |
| DecimalText.Fmt | src/decimal/base.rs:300-330 | the formatter computes Display |
| DecimalText.DisplayShape | src/decimal/base.rs:300-330 | a displayed decimal has no exponent, a '-' exactly at the front when negative, and a point exactly when the scale is nonzero |
| DecimalText.DisplayRoundTrip | src/decimal/base.rs:163-330 | parsing what Display prints gives back the same decimal, for every decimal |
| DecimalText.ExponentSplit | src/decimal/base.rs:168-181 | a string with an exponent parses as its mantissa with that exponent |
| DecimalText.MantissaExponent | src/decimal/base.rs:183-239 | the mantissa is parsed unsigned, then scaled by the exponent taken modulo 256 (the `as u8` cast), then signed |
| DecimalText.ExponentiateValue | src/decimal/base.rs:223-232 | a positive exponent truncates the mantissa to that scale, treats the result as a whole number and raises it to that scale |
| DecimalText.ExponentParse | src/decimal/base.rs:163-240 | a string with a positive exponent parses as its mantissa exponentiated by that exponent modulo 256 |
| DecimalText.DigitsExamples | src/decimal/base.rs:302 | digit strings of 0, 42, 500000 and 1500000 |
| DecimalText.DisplayIntegerExamples | src/decimal/base.rs:625-634 | 42 and -42 print as integers |
| DecimalText.DisplayZeroExample | src/decimal/base.rs:636-639 | zero at six places prints as 0.000000 |
| DecimalText.DisplayFractionExamples | src/decimal/base.rs:641-644 | 1.500000 |
| DecimalText.DisplayBelowOneExamples | src/decimal/base.rs:646-654 | 0.500000 and -0.500000 |
| DecimalText.ParseIntegerExample | src/decimal/base.rs:683-687 | "42" parses to 42 |
| DecimalText.ParseNegativeIntegerExample | src/decimal/base.rs:689-693 | "-42" parses to -42 |
| DecimalText.ParseNegativeFractionExample | src/decimal/base.rs:701-705 | "-1.5" parses to -1.5 |
| DecimalText.ParseExponentExamples | src/decimal/base.rs:665-675 | "1.5e6" and "-1.5e6" parse to 1_500_000_000_000 at scale 6, with the sign |
| DecimalText.ParseNegativeExponentExample | src/decimal/base.rs:221 | "1.5e-3" parses to fifteen at four places: a negative exponent adds to the places after the point |
| DecimalText.ParsePlusExample | src/decimal/base.rs:235 | "+007" parses to seven at scale zero: the u128 parse of the digit string takes the '+' and the leading zeros |
| DecimalText.ParseScaleWrapExample | src/decimal/base.rs:221 | "1e-300" parses to one at 44 places, the scale 300 truncated to a byte by the `as u8` cast |
| DecimalText.ParseRadixErrorExample | src/decimal/base.rs:164-166 | radix 16 is refused |
| DecimalText.ParseEmptyErrorExamples | src/decimal/base.rs:183-185 | "" and "e5" are ParseErrorEmpty |
| DecimalText.ParseSignErrorExample | src/decimal/base.rs:191-197 | a '-' after the first position is ParseError |
| DecimalText.ParseExponentPanicExample | src/decimal/base.rs:179 | an exponent that is not an integer panics |
| DecimalText.ParseDigitPanicExample | src/decimal/base.rs:235 | a non-digit in the mantissa panics |
| DecimalIntegerPow.Times | src/decimal/ops/pow.rs:116-119 | each loop multiplication is big_mul, panicking exactly when big_mul is undefined |
| DecimalIntegerPow.ComputePowU128AsWritten | src/decimal/ops/pow.rs:103-122 | the loop as written computes the as-written specification |
| DecimalIntegerPow.ComputePowU128 | src/decimal/ops/pow.rs:103-122 | the corrected loop computes the corrected specification |
| DecimalIntegerPow.SquareAndMultiplyExtendsAsWritten | src/decimal/ops/pow.rs:114-120 | wherever the as-written loop returns, the corrected one returns the same result |
| DecimalIntegerPow.PowU128ExtendsAsWritten | src/decimal/ops/pow.rs:103-122 | the same for the whole operation |
| DecimalIntegerPow.SquareAndMultiplySign | src/decimal/ops/pow.rs:114-120 | the scale is kept and the sign is negative exactly for a negative base and an odd exponent |
| DecimalIntegerPow.PowU128Sign | src/decimal/ops/pow.rs:103-122 | x^n keeps the scale and is negative exactly when x is negative and n is odd |
| DecimalIntegerPow.TimesAtScaleZero | src/decimal/ops/pow.rs:116 | at scale zero a loop multiplication is exact and fails exactly on u128 overflow |
| DecimalIntegerPow.SquareAndMultiplyExact | src/decimal/ops/pow.rs:114-120 | at scale zero the loop returns exactly when r·b^e fits u128, and then returns r·b^e |
| DecimalIntegerPow.SquareAndMultiplyZeroBase | src/decimal/ops/pow.rs:114-120 | a zero base never overflows and gives zero, in the loop as written and in the corrected one |
| DecimalIntegerPow.PowU128AtScaleZero | src/decimal/ops/pow.rs:103-122 | at scale zero x^n returns exactly when the exact power fits u128, and then equals it |
| DecimalIntegerPow.PowU128AsWrittenOverflows | src/decimal/ops/pow.rs:119 | 2^64 at scale zero panics as written, though the result 2^64 fits and the corrected loop returns it |
| DecimalIntegerPow.PowU128Examples | src/decimal/ops/pow.rs:207-234 | 0^100 = 0, 10^0 = 1 and 2^18 = 262144 at six places, by the loop as written and by the corrected one |
| DecimalIntegerPow.PowU128TruncatingExamples | src/decimal/ops/pow.rs:236-264 | (-0.001459854015)^2 and 3.412^8, truncated at each step as the test expects, by the loop as written and by the corrected one |
| DecimalPow.SelectArm | src/decimal/ops/pow.rs:19-94 | the zero arm exactly for a zero exponent; inverse arms only for non-positive exponents; integer arms only for whole exponents |
| DecimalPow.PositiveArm | src/decimal/ops/pow.rs:24-59 | a positive exponent never selects the zero or an inverse arm, and takes the integer arm only when `is_integer` answers true |
| DecimalPow.NegativeArm | src/decimal/ops/pow.rs:62-94 | a negative exponent selects an inverse arm or none, and the inverse integer arm only when `is_integer` answers true |
| DecimalPow.PositiveWholeArm | src/decimal/ops/pow.rs:59 | a whole positive exponent other than 1 and 2 selects the integer loop |
| DecimalPow.NegativeWholeArm | src/decimal/ops/pow.rs:90-92 | a whole negative exponent other than -1 selects the inverse integer loop |
| DecimalPow.OffTableArms | src/decimal/ops/pow.rs:94 | an exponent off the table selects no arm |
| DecimalPow.IntegerTest | src/decimal/ops/pow.rs:59 | the is_integer guard at the compute scale tests divisibility by 10^12 |
| DecimalPow.Root | src/decimal/ops/pow.rs:33-35 | the square root arm brackets the root of the compute-scale value at twelve places |
| DecimalPow.FourthRoot | src/decimal/ops/pow.rs:24-30 | the fourth root arm keeps the compute scale and sign |
| DecimalPow.MulBy | src/decimal/ops/pow.rs:41-53 | multiplying the base by an arm's result is mul |
| DecimalPow.Reciprocal | src/decimal/ops/pow.rs:62-92 | the inverse arms divide one by a nonzero result at the compute scale |
| DecimalPow.Pow | src/decimal/ops/pow.rs:12-98 | the result is at the base's scale, and base and exponent rescale to twelve places (whole exponents go through the loop as written) |
| DecimalPow.BackToScale | src/decimal/ops/pow.rs:97 | the result is rescaled to the base's scale |
| DecimalPow.PowByArm | src/decimal/ops/pow.rs:12-98 | pow is the selected arm's result rescaled |
| DecimalPow.PowZeroExponent | src/decimal/ops/pow.rs:21 | x^0 is one at the base's scale |
| DecimalPow.PowOfOne | src/decimal/ops/pow.rs:38 | x^1 = x |
| DecimalPow.PowOfMinusOne | src/decimal/ops/pow.rs:72 | x^-1 = 1/x |
| DecimalPow.PowOfInteger | src/decimal/ops/pow.rs:59 | x^n for a whole n is the u128 loop as written at the compute scale, rescaled |
| DecimalPow.PowOfNegativeInteger | src/decimal/ops/pow.rs:90-92 | x^-n is one over the u128 loop as written, rescaled |
| DecimalPow.InverseSquareUnreachable | src/decimal/ops/pow.rs:85-87 | the -2 arm compares with +2 under a non-positive exponent, so it is never selected; -2 takes the inverse integer loop |
| DecimalPow.PowOfTwoIsSquare | src/decimal/ops/pow.rs:56 | x^2 is base·self, which at the compute scale is mul of the base by itself |
| DecimalPow.SquareByLoopAgrees | src/decimal/ops/pow.rs:56-122 | squaring by the x^2 arm agrees with the corrected u128 loop always, and with the loop as written wherever that returns |
| DecimalPow.SquareByLoopAsWrittenPanics | src/decimal/ops/pow.rs:114-120 | 10^7 at twelve places: the x^2 arm gives 10^14, while the loop as written with exponent 2 panics on its extra squaring |
| DecimalPow.PowOffTablePanics | src/decimal/ops/pow.rs:94 | any exponent off the table panics |
| DecimalPow.PowZeroExample | src/decimal/ops/pow.rs:287-294 | 42^0 = 1 |
| DecimalPow.PowMinusOneExample | src/decimal/ops/pow.rs:278-285 | 42^-1 = 0.023809 |
| DecimalPow.PowWholeExamples | src/decimal/ops/pow.rs:314-348 | 42^1 = 42 and 42^2 = 1764 |
| DecimalPow.ConstantArms | src/decimal/ops/pow.rs:24-62 | the five constant exponents select their arms |
| DecimalPow.RootOfFortyTwo | src/decimal/ops/pow.rs:305-312 | √42 at twelve places |
| DecimalPow.FourthRootOfFortyTwo | src/decimal/ops/pow.rs:296-303 | ⁴√42 at twelve places |
| DecimalPow.PowQuarterExample | src/decimal/ops/pow.rs:296-303 | 42^0.25 |
| DecimalPow.PowHalfExample | src/decimal/ops/pow.rs:305-312 | 42^0.5 |
| DecimalPow.PowOneAndQuarterExample | src/decimal/ops/pow.rs:323-330 | 42^1.25 |
| DecimalPow.PowOneAndHalfExample | src/decimal/ops/pow.rs:332-339 | 42^1.5 |
| DecimalPow.PowInverseRootExample | src/decimal/ops/pow.rs:269-276 | 42^-0.25 at six places |
| BigDecimalPow.BigSelectArm | src/decimal/ops/pow.rs:135-193 | the zero arm exactly for a zero exponent, inverse arms only for non-positive exponents, and no integer arms |
| BigDecimalPow.BigRoot | src/decimal/ops/pow.rs:145-147 | the 192-bit root keeps scale and sign and brackets the root |
| BigDecimalPow.BigFourthRoot | src/decimal/ops/pow.rs:140-142 | the fourth root keeps scale and sign |
| BigDecimalPow.BigMulBy | src/decimal/ops/pow.rs:153-163 | multiplication by the base is the 192-bit mul |
| BigDecimalPow.BigReciprocal | src/decimal/ops/pow.rs:166-191 | the inverse arms are one divided by the result |
| BigDecimalPow.PowBigArms | src/decimal/ops/pow.rs:127-195 | every arm returns at the big compute scale |
| BigDecimalPow.BigArmResult | src/decimal/ops/pow.rs:135-193 | every arm returns at the big compute scale |
| BigDecimalPow.PowBigZeroExponent | src/decimal/ops/pow.rs:137 | x^0 = 1, as written and corrected |
| BigDecimalPow.PowBigOfOne | src/decimal/ops/pow.rs:150 | x^1 is x at the big compute scale |
| BigDecimalPow.BigArmsAgreeOffTwo | src/decimal/ops/pow.rs:163-189 | away from ±2 the as-written and corrected guards select the same arm |
| BigDecimalPow.PowBigAgreesOffTwo | src/decimal/ops/pow.rs:127-195 | away from ±2 the as-written and corrected operations agree |
| BigDecimalPow.BigConstantPowersAgree | src/decimal/ops/pow.rs:153-160 | the constant-exponent arms agree as written and corrected |
| BigDecimalPow.BigArmResultsAgree | src/decimal/ops/pow.rs:135-193 | each arm's result agrees as written and corrected, apart from the square |
| BigDecimalPow.PowBigAsWrittenMinusTwoPanics | src/decimal/ops/pow.rs:189 | as written, x^-2 panics for every base |
| BigDecimalPow.PowBigMinusTwo | src/decimal/ops/pow.rs:188-191 | corrected, x^-2 is one over the base squared |
| BigDecimalPow.PowBigSquare | src/decimal/ops/pow.rs:163 | corrected, x^2 is the base at eighteen places times itself; as written, that base times the original operand |
| BigDecimalPow.PowBigAsWrittenSquare | src/decimal/ops/pow.rs:163 | as written and corrected, x^2 agree when the base is already at the big compute scale |
| BigDecimalPow.PowBigSquareExample | src/decimal/ops/pow.rs:163 | 42^2 at scale 12 gives 0.001764 as written and 1764 corrected |
| BigDecimalPow.PowBigReciprocalExample | src/decimal/ops/pow.rs:352-364 | 249383740734.349125162518^-1 = 0.000000000004009884 |
| Log2Kernel.IntegerBit | src/fixed_point/log2.rs:20-22 | n = 127 - leading_zeros(x / p) is the index of the top bit: 2^n ≤ q < 2^(n+1) |
| Log2Kernel.Magnitude | src/fixed_point/log2.rs:12-17 | the magnitude the logarithm is taken of (x, or p²/x below one) is at least one |
| Log2Kernel.FracLoop | src/fixed_point/log2.rs:35-50 | the fraction loop only adds, and adds less than twice the first digit weight |
| Log2Kernel.ComputeBinaryLog | src/fixed_point/log2.rs:5-53 | the method computes BinaryLog |
| Log2Kernel.ComputeLogOfMagnitude | src/fixed_point/log2.rs:19-52 | the method computes the logarithm of a magnitude at least one |
| Log2Kernel.FractionDigits | src/fixed_point/log2.rs:35-50 | the loop computes FracLoop |
| Log2Kernel.LogOfMagnitudeIntegerPart | src/fixed_point/log2.rs:19-52 | the integer part of the result is the n with p·2^n ≤ m < p·2^(n+1) |
| Log2Kernel.FractionBelowUnit | src/fixed_point/log2.rs:24-50 | the result lies in [n·p, n·p + p) |
| Log2Kernel.BinaryLogIntegerPart | src/fixed_point/log2.rs:5-53 | the flag is set exactly below one, and the integer part brackets the magnitude between powers of two |
| Log2Kernel.IntegerBitOfPower | src/fixed_point/log2.rs:20-22 | the top bit of 2^k is k |
| Log2Kernel.LogOfMagnitudeExact | src/fixed_point/log2.rs:29-31 | a mantissa of exactly one takes the early return |
| Log2Kernel.LogOfMagnitudePower | src/fixed_point/log2.rs:19-31 | log2(2^k) = k exactly |
| Log2Kernel.BinaryLogPowerOfTwo | src/fixed_point/log2.rs:5-31 | log2 of 2^k is k, not negative |
| Log2Kernel.BinaryLogReciprocalPowerOfTwo | src/fixed_point/log2.rs:12-31 | log2 of 2^-k is k, flagged negative |
| Log2Kernel.FracLoopShift | src/fixed_point/log2.rs:35-50 | the loop adds the same amount whatever it starts from |
| Log2Kernel.IntegerBitDoubling | src/fixed_point/log2.rs:20-22 | doubling the number raises the top bit by one |
| Log2Kernel.LogOfMagnitudeDoubling | src/fixed_point/log2.rs:19-52 | doubling a magnitude adds exactly one to its logarithm |
| Log2Kernel.BinaryLogDoubling | src/fixed_point/log2.rs:5-53 | for numbers at least one, doubling adds exactly one |
| Log2Kernel.FracLoopTotal | src/fixed_point/log2.rs:35-50 | with a mantissa in [1, 2) and 4p² within u128, no checked operation of the loop fails |
| Log2Kernel.LogOfMagnitudeTotal | src/fixed_point/log2.rs:19-52 | for a magnitude below 2^128 the logarithm never fails, when 4p² and 128p fit u128 |
| Log2Kernel.LogOfMagnitudeBelow | src/fixed_point/log2.rs:19-52 | the logarithm is below 128 |
| Log2Kernel.BinaryLogBelow | src/fixed_point/log2.rs:5-53 | the logarithm is below 128 |
| Log2Kernel.BinaryLogTotal | src/fixed_point/log2.rs:5-53 | when 4p² fits u128 the algorithm never returns None |
| Log2Kernel.BinaryLogTotalAtTwelve | src/fixed_point/log2.rs:5-53 | at twelve places the algorithm never returns None |
| FixedLogs.Log2 | src/fixed_point/log2.rs:5-53 | FixedPoint log2 panics exactly at zero, otherwise returns Some, flagged negative exactly below one |
| FixedLogs.ComputeLog2 | src/log2.rs:5-51 | the raw-u128 variant's loop computes the same function |
| FixedLogs.Log2Bracket | src/fixed_point/log2.rs:19-52 | the integer part of log2 brackets the number between powers of two, and the result is below 128 |
| FixedLogs.Log2PowerOfTwo | src/fixed_point/log2.rs:19-31 | log2(2^k) = k exactly |
| FixedLogs.Log2ReciprocalPowerOfTwo | src/fixed_point/log2.rs:12-31 | log2(2^-k) = -k exactly |
| FixedLogs.Log2OneAndHalf | src/fixed_point/log2.rs:5-53 | log2(1) = 0 and log2(0.5) = -1 |
| FixedLogs.Log2Doubling | src/fixed_point/log2.rs:5-53 | doubling a number at least one adds exactly one |
| FixedLogs.Ln | src/fixed_point/ln.rs:6-14 | FixedPoint ln panics exactly at zero, otherwise returns Some with the sign of log2 |
| FixedLogs.LnFromLog2 | src/fixed_point/ln.rs:6-14 | ln is log2 divided by log2(e), rounded down, and is at most log2 |
| FixedLogs.LnOfOne | src/fixed_point/ln.rs:6-14 | ln(1) = 0 |
| FixedLogs.RawLn | src/ln.rs:5-14 | the raw ln panics exactly at zero |
| FixedLogs.RawLnIsMagnitude | src/ln.rs:5-14 | the raw ln is the magnitude of the FixedPoint ln, without its sign |
| FixedLogs.TableExponentOfPower | src/log10.rs:18-45 | the table gives \|k - 12\| for each listed power 10^k |
| FixedLogs.TableOnlyPowers | src/log10.rs:18-45 | a nonzero table entry means the number is that power of ten |
| FixedLogs.Log10 | src/log10.rs:6-56 | log10 panics exactly at zero, otherwise returns Some, flagged negative exactly below one |
| FixedLogs.Log10OfPowerOfTen | src/log10.rs:12-48 | log10(10^k / 10^12) = k - 12 exactly |
| FixedLogs.Log10FromLog2 | src/log10.rs:49-55 | off the table, log10 is log2 divided by log2(10), rounded down |
| DecimalLogs.Log2AsWritten | src/decimal/ops/log_2.rs:9-63 | panics at zero; keeps the input's scale; negative exactly below one |
| DecimalLogs.Log2 | src/decimal/ops/log_2.rs:9-63 | corrected: panics at zero; keeps the input's scale; negative exactly below one |
| DecimalLogs.ComputeLog2 | src/decimal/ops/log_2.rs:9-63 | the loop computes the corrected function |
| DecimalLogs.Log2AsWrittenAtComputeScale | src/decimal/ops/log_2.rs:38-62 | at twelve places the as-written and corrected versions agree |
| DecimalLogs.Log2AsWrittenAtScaleTwo | src/decimal/ops/log_2.rs:38-62 | log2(2.00) is 0.00 as written and 1.00 corrected |
| DecimalLogs.Log2AgreesWithFixedPoint | src/decimal/ops/log_2.rs:9-63 | at twelve places the Decimal log2 is the FixedPoint log2 |
| DecimalLogs.Log2IntegerPart | src/decimal/ops/log_2.rs:27-34 | corrected: at any scale the integer part brackets the number between powers of two (as written, only at twelve places, where the two agree) |
| DecimalLogs.Log2Total | src/decimal/ops/log_2.rs:9-63 | corrected: log2 never panics on a positive value of up to eighteen places |
| DecimalLogs.Log2PowerOfTwo | src/decimal/ops/log_2.rs:9-63 | corrected: log2(2^k) = k at any scale |
| DecimalLogs.Log2Doubling | src/decimal/ops/log_2.rs:9-63 | corrected: doubling adds exactly one |
| DecimalLogs.Ln | src/decimal/ops/ln.rs:10-18 | panics at zero; keeps the scale; negative exactly below one |
| DecimalLogs.LnAgreesWithFixedPoint | src/decimal/ops/ln.rs:10-18 | the Decimal ln at twelve places is the FixedPoint ln |
| DecimalLogs.LnOfOne | src/decimal/ops/ln.rs:10-18 | ln(1) = 0 at every scale |
| DecimalLogs.LnTotal | src/decimal/ops/ln.rs:10-18 | ln never panics on a positive value of up to twelve places |
| DecimalLogs.Log10With | src/decimal/ops/log_10.rs:10-60 | either way: panics at zero; keeps the scale; negative exactly below one |
| DecimalLogs.Log10 | src/decimal/ops/log_10.rs:10-60 | as written, through log2 as written: panics at zero; keeps the scale; negative exactly below one |
| DecimalLogs.Log10Corrected | src/decimal/ops/log_10.rs:10-60 | corrected, through the log2 that keeps the scale: panics at zero; keeps the scale; negative exactly below one |
| DecimalLogs.Log10AtComputeScale | src/decimal/ops/log_10.rs:56 | at twelve places the as-written and corrected log10 agree |
| DecimalLogs.Log10AtScaleTwo | src/decimal/ops/log_10.rs:56 | log10(2.00) is 0.00 as written and 0.30 corrected |
| DecimalLogs.Log10OfOne | src/decimal/ops/log_10.rs:10-60 | log10(1) = 0 at every scale |
| DecimalLogs.Log10OfPowerOfTen | src/decimal/ops/log_10.rs:10-60 | log10 of a listed power of ten is exact, rescaled |
| DecimalLogs.Log10FromLog2 | src/decimal/ops/log_10.rs:52-58 | off the table, log10 is log2 as written over log2(10), rounded down; corrected, the log2 that keeps the scale over log2(10) |
| DecimalLogs.Log10AgreesWithFixedPoint | src/decimal/ops/log_10.rs:10-60 | at twelve places the Decimal log10 is the FixedPoint log10 |
| DecimalLogs.Log10AgreesAtOne | src/decimal/ops/log_10.rs:10-60 | the one test (structural equality) gives zero |
| DecimalLogs.Log10AgreesOnTable | src/decimal/ops/log_10.rs:10-60 | the table gives the exact value |
| DecimalLogs.Log10AgreesOffTable | src/decimal/ops/log_10.rs:10-60 | off the table the FixedPoint fallback is used |
| TableLn.TableShape | src/ln_tables.rs:142-273 | the table has nine rows of twelve columns |
| TableLn.TableFacts | src/ln_tables.rs:142-273 | every entry is ln(1 + (r+1)/10^(c+1)) within Taylor bounds, grows down its column and shrinks along its row |
| TableLn.LogTable | src/ln_tables.rs:142-273 | an entry is at most the largest entry of its column |
| TableLn.LogTableIsLog | src/ln_tables.rs:129-273 | each entry is ln(1 + (row+1)/10^(col+1)) within Taylor bounds, grows down its column and shrinks along its row |
| TableLn.MaxCorrectionValue | src/ln_tables.rs:142-273 | the largest entries of the twelve columns add up to 0.737990914833, the most the lookups can add |
| TableLn.Contribution | src/ln_tables.rs:109-124 | out-of-range rows or columns contribute nothing |
| TableLn.ContributionIsLog | src/ln_tables.rs:115-124 | a digit d in column c contributes ln(1 + d/10^(c+1)) |
| TableLn.LogTableValue | src/ln_tables.rs:93-127 | the running quotient is s/t at twelve places, and the contribution is bounded by its column |
| TableLn.LogTableValueTruncates | src/ln_tables.rs:93-127 | the truncation is the quotient rounded down to a multiple of 10^(11-c), the row is its last digit, and the lookup panics exactly when the quotient is below one |
| TableLn.RowIsNextDigit | src/ln_tables.rs:104-107 | the computed row index is the next decimal digit |
| TableLn.Lookups | src/ln_tables.rs:28-57 | the chained lookups add at most the maximal correction |
| TableLn.LookupsReadDigits | src/ln_tables.rs:28-37 | started on a quotient in [1, 2), none of the ten lookups panics |
| TableLn.FixedBitLength | src/ln_tables.rs:74-91 | zero has bit length zero; otherwise the sign is that of the logarithm |
| TableLn.Log10OfTwo | src/ln_tables.rs:80 | log10(2) = 0.301029995664 |
| TableLn.BitLengthIsQuotient | src/ln_tables.rs:83-88 | the bit length is log10(x)/log10(2), rounded down from one on and up below one |
| TableLn.LnTables | src/ln_tables.rs:8-72 | panics at zero; the sign is that of the logarithm; the magnitude is n·ln 2 corrected by at most 0.738 |
| TableLn.FromBitLength | src/ln_tables.rs:13-72 | once n is known, the magnitude is n·ln 2 plus (or below one minus) the lookups |
| TableLn.Assemble | src/ln_tables.rs:59-71 | the result is n·ln 2 plus the sum, or minus it below one |
| TableLn.Divisor | src/ln_tables.rs:19-26 | the divisor is 2^n, or below one its reciprocal at twelve places |
| TableLn.LnTablesWhenBitLengthFits | src/ln_tables.rs:8-72 | for numbers at least one whose bit length fits, ln_tables returns a value bracketed by n·ln 2 |
| MostSignificantBit.LeadingZeroBounds | src/msb.rs:5-7 | leading_zeros is 128 minus the bit length |
| MostSignificantBit.Msb | src/fixed_point/msb.rs:5-7 | panics exactly when the top bit is set; otherwise x < 2^(127-r), and 2^(126-r) ≤ x when x > 0 |
| MostSignificantBit.MsbIndex | src/fixed_point/msb.rs:5-7 | corrected: the index of the top bit, 2^r ≤ x < 2^(r+1) |
| MostSignificantBit.MsbExamples | src/fixed_point/msb.rs:56-67 | msb(u64::MAX) = 63, as the test expects, and msb(0) = 127; msb(2^16) = 110 while its top bit is 16 |
| MostSignificantBit.MsbIsIndexOnlyAt64Bits | src/msb.rs:5-7 | msb equals the top-bit index exactly when 2^63 ≤ x < 2^64 |
| MostSignificantBit.MsbShiftAsWritten | src/fixed_point/msb.rs:9-48 | as written: 0 and 1 panic, the ranges below 2^16 give 3, 7, 15 and 31, every x from 2^16 to 2^64 gives 63, and larger x give 63 to 126 |
| MostSignificantBit.MsbShiftAsWrittenMisses | src/fixed_point/msb.rs:19-22 | the cascade's first threshold lets through numbers whose top bit is not 63 |
| MostSignificantBit.CascadeStep | src/fixed_point/msb.rs:19-45 | one shift step preserves count plus bit length |
| MostSignificantBit.MsbShift | src/fixed_point/msb.rs:9-48 | corrected: panics at zero, otherwise returns the top-bit index |
| FixedLogExamples.Log2OfTwo25 | src/log2.rs:60-68 | log2(2.25) = 1.169925001434 |
| FixedLogExamples.Log2OfU64Max | src/fixed_point/log2.rs:71-77 | log2(18446744.073709551615) = 24.136862861344 |
| FixedLogExamples.LnOf2_25 | src/fixed_point/ln.rs:26-31 | ln(2.25) = 0.810930216211, also from the raw ln |
| FixedLogExamples.LnOf0_81 | src/fixed_point/ln.rs:35-40 | ln(0.810930216211) = -0.209573275158 |
| FixedLogExamples.LnOfTiny | src/fixed_point/ln.rs:44-49 | ln(10^-12) = -27.631021115941 |
| FixedLogExamples.Log10Of1_1 | src/log10.rs:66-71 | log10(1.1) = 0.041392685156 |
| FixedLogExamples.Log10OfU64Max | src/log10.rs:74-79 | log10(18446744.073709551615) = 7.265919722493 |
| DecimalLogExamples.Log2Examples | src/decimal/ops/log_2.rs:72-86 | the Decimal log2 test vectors |
| DecimalLogExamples.LnExamplesAtTwelve | src/decimal/ops/ln.rs:29-53 | the Decimal ln test vectors at twelve places |
| DecimalLogExamples.LnExamplesOfTen | src/decimal/ops/ln.rs:72-93 | ln(0.9), ln(0.1) and ln(10) |
| DecimalLogExamples.LnExamplesBelowTwelve | src/decimal/ops/ln.rs:56-69 | ln at eight and six places |
| DecimalLogExamples.Log10ExactExamples | src/decimal/ops/log_10.rs:71-90 | log10 of 1, 10 and 1000 at eight places |
| DecimalLogExamples.Log10Examples | src/decimal/ops/log_10.rs:92-103 | log10(1.1) and log10(u64::MAX / 10^12) |
| LnTableExamples.BitLengthOfTen | src/ln_tables.rs:291-295 | bit length of 10 is 3 |
| LnTableExamples.BitLengthOfPointNine | src/ln_tables.rs:297-301 | bit length of 0.9 is -1 |
| LnTableExamples.BitLengthOfPointZeroOne | src/ln_tables.rs:303-307 | bit length of 0.01 is -7 |
| LnTableExamples.BitLengthOfMillionth | src/ln_tables.rs:309-313 | bit length of 0.000001 is -20 |
| LnTableExamples.BitLengthOfU64Max | src/ln_tables.rs:315-319 | bit length of u64::MAX / 10^12 is 24 |
| LnTableExamples.LnTablesOfTwoPoint25 | src/ln_tables.rs:325-331 | ln_tables(2.25) = 0.810930216138 |
| LnTableExamples.LnTablesOfPoint810930216138 | src/ln_tables.rs:333-339 | ln_tables(0.810930216138) = -0.209573275322 |
| LnTableExamples.LnTablesOfTenMillionth | src/ln_tables.rs:341-348 | ln_tables(0.0000001) = -16.118084833430 |
| LnTableExamples.LnTablesOfSmallest | src/ln_tables.rs:19-28 | ln_tables(10^-12) panics: its bit length is 40, the reciprocal of 2^40 at twelve places is zero, and the first lookup divides by it |

## Left out

- Floating point: the `f64` conversion (src/decimal/base.rs:265-275) and the property-based tests over the full u64 range are not modelled.
- The `i32` and `usize` conversions (src/decimal/base.rs:257-263, 277-288) are not modelled. The `u128` conversion (src/decimal/base.rs:251-255) only returns the raw value.
- DecimalAdd.Add, DecimalAdd.Sub: the overflow panic of a same-sign sum is a precondition (`AddDefined`, `SubDefined`) rather than a `Panics` outcome; the examples state which inputs fail it.
- DecimalMul.Mul, DecimalMul.MulUp, DecimalMul.MulBig, DecimalMul.BigMul, DecimalMul.MulU128: the overflow panics are preconditions (`MulDefined` and its kin), stated as exact conditions on the operands.
- DecimalDiv.Div, DecimalDiv.DivUp, DecimalDiv.DivBig, DecimalDiv.BigDiv: division by zero and the overflow panics are preconditions (`DivDefined` and its kin).
- DecimalBase.ToScale, DecimalRounding.ToScaleUp: the overflow panics of rescaling are preconditions (`ToScaleDefined`, `ToScaleUpDefined`); the composite operations that call them (`to_scaled_amount`, `pow`, the logarithms) turn a failed precondition into `Panics`.
- The `FixedPoint` type is generated by a macro from a crate outside the repository. Its `mul` and `div` are modelled as floor(a·b/10^12) and floor(a·10^12/b), and its `add` and `sub` as checked operations that panic on overflow. The mul and div are taken to panic whenever the u128 product a·b or a·10^12 overflows (`FixedMulDefined`, `FixedDivDefined`). The type names a 256-bit type for its intermediates (src/fixed_point/mod.rs:12), so the macro may compute the product in 256 bits and not panic there. If it does, TableLn.LnTables differs for raw values of 2^128/10^12 (about 3.4·10^14) and above, where the model's first division by the table's divisor panics.
- The 192-bit unsigned type and the `BigDecimal` type with its conversions are not part of this model as code. A `BigDecimal` is modelled as the same triple with a magnitude below 2^192, and `BIG_COMPUTE_SCALE` is taken as 18, the value the 192-bit power test implies.
- The named constants one-quarter, one-half, five-quarters and three-halves are defined outside the files modelled here; they are taken at the compute scale from their names.
- Formatter padding flags (width, fill, alignment) are not modelled; Display is the string `pad_integral` receives, with the sign.
- The benches and src/square.rs are not modelled; src/lib.rs only wires modules together.
- DecimalSqrt.Sqrt: the test of src/decimal/ops/sqrt.rs:122-125 (√u64::MAX at six places rounded up) is not stated as an example.
- MostSignificantBit.MsbShiftAsWritten: for inputs of 2^64 and above only the range 63 to 126 is stated, not the exact result.
- TableLn.LnTables: below one the lower bound is stated only as `n·ln 2 - 0.738`; the lookups are not proved never to panic there.
- Integer overflow semantics: unchecked Rust arithmetic is read as a debug build, where overflow panics. This covers `leading_zeros() - 1` in src/fixed_point/msb.rs:6 (Msb panics for x ≥ 2^127), the final `r - 1` in src/fixed_point/msb.rs:47 (MsbShiftAsWritten panics at 1), and the unchecked `10u128.pow` of src/decimal/base.rs:96-100 and src/decimal/base.rs:133 (`Pow10Fits`). A release build would wrap around instead, and that is not modelled.
- DecimalPow.InverseSquareUnreachable: the `-2` arm of the Decimal power cannot be reached, so it has no example.

## Findings

| source | as written | input that shows it | evidently intended | confidence | as-written member | corrected member |
|---|---|---|---|---|---|---|
| src/decimal/ops/log_2.rs:38-62 | the result, accumulated in units of 10^scale, is tagged with scale 12 before rescaling to the input's scale | log2(2.00) at scale 2 gives 0.00 | tag the result with the input's scale, giving 1.00 | not executed | DecimalLogs.Log2AsWrittenAtScaleTwo | DecimalLogs.Log2PowerOfTwo |
| src/fixed_point/msb.rs:19-47 | the shift cascade compares against 2^16, 2^8, 2^4, 2^2 and 2^1 while shifting by 64, 32, 16, 8 and 4, then returns the count less one | any x in [2^16, 2^63), e.g. 2^16, gives 63 | the thresholds 2^64, 2^32, 2^16, 2^8, 2^4, and the final `r - 1` dropped so that the count itself, the top-bit index, is returned (1 gives 0 instead of panicking) | not executed | MostSignificantBit.MsbShiftAsWritten | MostSignificantBit.MsbShift |
| src/fixed_point/msb.rs:5-7 | msb is leading_zeros − 1, i.e. 127 − bit length | msb(2^16) = 110, while the top bit of 2^16 is 16 | the index of the top bit, bit length − 1, which the u64::MAX test (63) also fits | not executed | MostSignificantBit.MsbIsIndexOnlyAt64Bits | MostSignificantBit.MsbIndex |
| src/decimal/ops/pow.rs:114-120 | the base is squared after the last exponent bit too, and that unused square can overflow | 2^64 at scale 0 panics, though the result 2^64 fits; through the u128 `pow`, 10^7 at twelve places to the power 2 panics, though 10^14 fits | skip the final squaring once the exponent is exhausted | not executed | DecimalIntegerPow.PowU128AsWrittenOverflows | DecimalIntegerPow.PowU128AtScaleZero |
| src/decimal/ops/log_10.rs:56 | off the table, log10 divides the operand's own `log2`, which is mis-scaled away from twelve places | log10(2.00) at scale 2 gives 0.00 | divide a log2 that keeps the operand's scale, giving 0.30 | not executed | DecimalLogs.Log10AtScaleTwo | DecimalLogs.Log10FromLog2 |
| src/decimal/ops/pow.rs:163 | the BigDecimal x^2 arm multiplies the rescaled base by the original `self`, dividing by 10^18 | 42 at scale 12 squared gives 0.001764 | multiply the base by itself, giving 1764 | not executed | BigDecimalPow.PowBigSquareExample | BigDecimalPow.PowBigSquare |
| src/decimal/ops/pow.rs:189 | the BigDecimal x^-2 arm compares a non-positive exponent with +2, so -2 reaches the final panic | any base with exponent -2 | compare with -2, giving one over the square | not executed | BigDecimalPow.PowBigAsWrittenMinusTwoPanics | BigDecimalPow.PowBigMinusTwo |
