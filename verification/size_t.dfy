/** Checked arithmetic on the C type `size_t` of an LP64 platform.

    Every C function here has the shape `int f(size_t *res, ...)`: it returns 0
    exactly when it succeeds, and only then writes `*res`. The model passes the
    incoming value of `*res` as a parameter and returns the status together with
    the value `*res` holds afterwards, so "untouched on failure" is a plain
    equation about the result.
 */
module SizeT {

  /** SIZE_MAX of a 64-bit `size_t`. */
  const SIZE_MAX: nat := 0xFFFF_FFFF_FFFF_FFFF

  /** sizeof(size_t) on the same platform, in bytes. */
  const SIZE_OF_SIZE_T: nat := 8

  /** LONG_MAX of a 64-bit `long int`, the saturation value of `strtol`. */
  const LONG_MAX: int := 0x7FFF_FFFF_FFFF_FFFF

  /** LONG_MIN of a 64-bit `long int`. */
  const LONG_MIN: int := -0x8000_0000_0000_0000

  /** The values a `size_t` can hold. */
  type Size = x: nat | x <= SIZE_MAX

  /** Status code returned by a call (0 means success) and the value of `*res`
      after the call. */
  datatype Ret = Ret(code: int, res: Size) {
    predicate Ok() { code == 0 }
  }

  // ---------------------------------------------------------------------------
  // Binary operations

  /** size_t_add: fails exactly when the mathematical sum exceeds SIZE_MAX. */
  function Add(res: Size, op1: Size, op2: Size): (r: Ret)
    ensures r.Ok() <==> op1 + op2 <= SIZE_MAX
    ensures r.Ok() ==> r.res == op1 + op2
    ensures !r.Ok() ==> r.code == 1 && r.res == res
  {
    if SIZE_MAX - op1 < op2 then Ret(1, res) else Ret(0, op1 + op2)
  }

  /** size_t_sub: fails exactly when the mathematical difference is negative. */
  function Sub(res: Size, op1: Size, op2: Size): (r: Ret)
    ensures r.Ok() <==> op2 <= op1
    ensures r.Ok() ==> r.res + op2 == op1
    ensures !r.Ok() ==> r.code == 1 && r.res == res
  {
    if op1 < op2 then Ret(1, res) else Ret(0, op1 - op2)
  }

  /** The guard of size_t_mul divides SIZE_MAX instead of multiplying, and
      rejects exactly the products that do not fit. */
  lemma {:induction false} MulGuard(op1: Size, op2: Size)
    requires op1 != 0
    ensures SIZE_MAX / op1 < op2 <==> op1 * op2 > SIZE_MAX
  {
    var q := SIZE_MAX / op1;
    assert SIZE_MAX == q * op1 + SIZE_MAX % op1;
    if op2 <= q {
      assert op1 * op2 <= op1 * q by { MulMonotone(op1, op2, q); }
    } else {
      assert op1 * (q + 1) <= op1 * op2 by { MulMonotone(op1, q + 1, op2); }
      assert op1 * (q + 1) == op1 * q + op1;
    }
  }

  /** Multiplication by a natural number preserves order. */
  lemma MulMonotone(k: nat, x: nat, y: nat)
    requires x <= y
    ensures k * x <= k * y
  {
    assert k * y == k * x + k * (y - x);
  }

  /** size_t_mul: fails exactly when the mathematical product exceeds SIZE_MAX. */
  function Mul(res: Size, op1: Size, op2: Size): (r: Ret)
    ensures r.Ok() <==> op1 * op2 <= SIZE_MAX
    ensures r.Ok() ==> r.res == op1 * op2
    ensures !r.Ok() ==> r.code == 1 && r.res == res
  {
    if op1 == 0 then
      Ret(0, op1 * op2)
    else if SIZE_MAX / op1 < op2 then
      MulGuard(op1, op2);
      Ret(1, res)
    else
      MulGuard(op1, op2);
      Ret(0, op1 * op2)
  }

  /** size_t_div: fails exactly on a zero divisor; otherwise the result is the
      quotient rounded down. */
  function Div(res: Size, op1: Size, op2: Size): (r: Ret)
    ensures r.Ok() <==> op2 != 0
    ensures r.Ok() ==> r.res * op2 <= op1 < r.res * op2 + op2
    ensures !r.Ok() ==> r.code == 1 && r.res == res
  {
    if op2 == 0 then Ret(1, res) else Ret(0, op1 / op2)
  }

  /** size_t_mod: fails exactly on a zero divisor; otherwise the result is the
      remainder of the division rounded down. */
  function Mod(res: Size, op1: Size, op2: Size): (r: Ret)
    ensures r.Ok() <==> op2 != 0
    ensures r.Ok() ==> r.res < op2 && (op1 / op2) * op2 + r.res == op1
    ensures !r.Ok() ==> r.code == 1 && r.res == res
  {
    if op2 == 0 then Ret(1, res) else Ret(0, op1 % op2)
  }

  // ---------------------------------------------------------------------------
  // Augmented forms: `*res` is also the first operand

  function AddAug(res: Size, op: Size): (r: Ret)
    ensures r.Ok() <==> res + op <= SIZE_MAX
    ensures r.Ok() ==> r.res == res + op
    ensures !r.Ok() ==> r.code == 1 && r.res == res
  {
    Add(res, res, op)
  }

  function SubAug(res: Size, op: Size): (r: Ret)
    ensures r.Ok() <==> op <= res
    ensures r.Ok() ==> r.res + op == res
    ensures !r.Ok() ==> r.code == 1 && r.res == res
  {
    Sub(res, res, op)
  }

  function MulAug(res: Size, op: Size): (r: Ret)
    ensures r.Ok() <==> res * op <= SIZE_MAX
    ensures r.Ok() ==> r.res == res * op
    ensures !r.Ok() ==> r.code == 1 && r.res == res
  {
    Mul(res, res, op)
  }

  function DivAug(res: Size, op: Size): (r: Ret)
    ensures r.Ok() <==> op != 0
    ensures r.Ok() ==> r.res * op <= res < r.res * op + op
    ensures !r.Ok() ==> r.code == 1 && r.res == res
  {
    Div(res, res, op)
  }

  function ModAug(res: Size, op: Size): (r: Ret)
    ensures r.Ok() <==> op != 0
    ensures r.Ok() ==> r.res < op && (res / op) * op + r.res == res
    ensures !r.Ok() ==> r.code == 1 && r.res == res
  {
    Mod(res, res, op)
  }

  /** size_t_inc: fails only at SIZE_MAX. */
  function Inc(res: Size): (r: Ret)
    ensures r.Ok() <==> res != SIZE_MAX
    ensures r.Ok() ==> r.res == res + 1
    ensures !r.Ok() ==> r.code == 1 && r.res == res
  {
    AddAug(res, 1)
  }

  /** size_t_dec: fails only at 0. */
  function Dec(res: Size): (r: Ret)
    ensures r.Ok() <==> res != 0
    ensures r.Ok() ==> r.res + 1 == res
    ensures !r.Ok() ==> r.code == 1 && r.res == res
  {
    SubAug(res, 1)
  }

  // ---------------------------------------------------------------------------
  // Decimal parsing

  predicate IsDigit(c: char) { '0' <= c <= '9' }

  predicate AllDigits(s: string) { forall i :: 0 <= i < |s| ==> IsDigit(s[i]) }

  predicate AllZero(s: string) { forall i :: 0 <= i < |s| ==> s[i] == '0' }

  function DigitValue(c: char): nat
    requires IsDigit(c)
  {
    c as int - '0' as int
  }

  /** Value of a string of decimal digits, most significant digit first. */
  function DecimalValue(s: string): nat
    requires AllDigits(s)
  {
    if |s| == 0 then 0 else DecimalValue(s[..|s| - 1]) * 10 + DigitValue(s[|s| - 1])
  }

  /** A digit string denotes 0 exactly when every digit is '0'. */
  lemma {:induction false} DecimalValueZero(s: string)
    ensures AllDigits(s) ==> (DecimalValue(s) == 0 <==> AllZero(s))
  {
    if |s| > 0 && AllDigits(s) {
      DecimalValueZero(s[..|s| - 1]);
      assert AllZero(s) <==> AllZero(s[..|s| - 1]) && s[|s| - 1] == '0';
    }
  }

  /** Length of the longest prefix of `s` made of digits. */
  function DigitRun(s: string): (n: nat)
    ensures n <= |s| && AllDigits(s[..n])
    ensures n < |s| ==> !IsDigit(s[n])
  {
    if |s| == 0 || !IsDigit(s[0]) then 0
    else
      var m := DigitRun(s[1..]);
      assert s[..1 + m] == [s[0]] + s[1..][..m];
      1 + m
  }

  /** What `strtol(s, &end, 10)` reports: the value and the offset of `end`. */
  datatype Conversion = Conversion(value: int, end: nat)

  /** Base-10 `strtol` on a string without leading white space or sign: it
      converts the longest prefix of digits, leaves `end` just after it (at the
      start, with value 0, when there is none) and saturates at LONG_MAX. */
  function Strtol(s: string): (c: Conversion)
    ensures c.end <= |s|
    ensures c.end == |s| <==> AllDigits(s)
    ensures c.end == |s| ==> c.value == if DecimalValue(s) > LONG_MAX then LONG_MAX else DecimalValue(s)
    ensures 0 <= c.value <= LONG_MAX
  {
    var n := DigitRun(s);
    var v := DecimalValue(s[..n]);
    assert n == |s| ==> s[..n] == s;
    Conversion(if v > LONG_MAX then LONG_MAX else v, n)
  }

  /** size_t_from_string: accepts a non-empty digit string whose value is below
      LONG_MAX (an all-'0' string is accepted as 0 before `strtol` is reached)
      and rejects everything else, including a leading sign and the empty string. */
  function FromString(res: Size, s: string): (r: Ret)
    ensures r.Ok() <==> |s| > 0 && AllDigits(s) && DecimalValue(s) < LONG_MAX
    ensures r.Ok() ==> r.res == DecimalValue(s)
    ensures |s| > 0 && AllZero(s) ==> r == Ret(0, 0)
    ensures r.Ok() && !AllZero(s) ==> 0 < r.res
    ensures (|s| > 0 && (s[0] == '+' || s[0] == '-')) ==> !r.Ok()
    ensures !r.Ok() ==> r.code == 1 && r.res == res
  {
    DecimalValueZero(s);
    if |s| == 0 || s[0] == '+' || s[0] == '-' then
      Ret(1, res)
    else if AllZero(s) then
      assert AllDigits(s);
      Ret(0, 0)
    else
      var c := Strtol(s);
      if c.value == 0 || c.value == LONG_MAX || c.value == LONG_MIN then
        Ret(1, res)
      else if c.end != |s| then
        Ret(1, res)
      else if c.value < 0 || c.value > SIZE_MAX then
        Ret(1, res)
      else
        Ret(0, c.value)
  }

  /** Digit-by-digit conversion with checked arithmetic: `*res` becomes
      10 * value + digit after each digit, and the first non-digit or the first
      step that leaves the `size_t` range fails the whole conversion. */
  function Accumulate(res: Size, s: string): (r: Ret)
    ensures r.Ok() <==> AllDigits(s) && DecimalValue(s) <= SIZE_MAX
    ensures r.Ok() ==> r.res == DecimalValue(s)
    ensures !r.Ok() ==> r.code == 1 && r.res == res
  {
    if |s| == 0 then
      Ret(0, 0)
    else
      var init := Accumulate(res, s[..|s| - 1]);
      var last := s[|s| - 1];
      assert AllDigits(s) <==> AllDigits(s[..|s| - 1]) && IsDigit(last);
      if !init.Ok() then
        init
      else if !IsDigit(last) then
        Ret(1, res)
      else
        var shifted := MulAug(init.res, 10);
        if !shifted.Ok() then
          Ret(1, res)
        else
          var added := AddAug(shifted.res, DigitValue(last));
          if added.Ok() then added else Ret(1, res)
  }

  /** Overflow-checked unsigned decimal parse: accepts exactly the non-empty
      digit strings whose value fits in a `size_t`, with no sentinel value. */
  function ParseSize(res: Size, s: string): (r: Ret)
    ensures r.Ok() <==> |s| > 0 && AllDigits(s) && DecimalValue(s) <= SIZE_MAX
    ensures r.Ok() ==> r.res == DecimalValue(s)
    ensures !r.Ok() ==> r.code == 1 && r.res == res
  {
    if |s| == 0 then Ret(1, res) else Accumulate(res, s)
  }

  /** size_t_from_string refuses every digit string whose value lies between
      LONG_MAX and SIZE_MAX although such a value fits in a `size_t`; the
      overflow-checked parse accepts it. */
  lemma FromStringRefusesLongMax(res: Size, s: string)
    requires AllDigits(s) && LONG_MAX <= DecimalValue(s) <= SIZE_MAX
    ensures !FromString(res, s).Ok()
    ensures ParseSize(res, s) == Ret(0, DecimalValue(s))
  {
  }

  /** Appending a digit multiplies the value by ten and adds the digit. */
  lemma DecimalValueSnoc(s: string, c: char)
    requires AllDigits(s) && IsDigit(c)
    ensures AllDigits(s + [c])
    ensures DecimalValue(s + [c]) == DecimalValue(s) * 10 + DigitValue(c)
  {
    assert (s + [c])[..|s|] == s;
  }

  /** The decimal text of LONG_MAX. */
  const LONG_MAX_TEXT: string := "9223372036854775807"

  /** The first nine digits of LONG_MAX_TEXT. */
  lemma LongMaxTextHigh()
    ensures AllDigits("922337203") && DecimalValue("922337203") == 922337203
  {
    var s0: string := [];
    var s1 := s0 + ['9']; DecimalValueSnoc(s0, '9');
    var s2 := s1 + ['2']; DecimalValueSnoc(s1, '2');
    var s3 := s2 + ['2']; DecimalValueSnoc(s2, '2');
    var s4 := s3 + ['3']; DecimalValueSnoc(s3, '3');
    var s5 := s4 + ['3']; DecimalValueSnoc(s4, '3');
    var s6 := s5 + ['7']; DecimalValueSnoc(s5, '7');
    var s7 := s6 + ['2']; DecimalValueSnoc(s6, '2');
    var s8 := s7 + ['0']; DecimalValueSnoc(s7, '0');
    var s9 := s8 + ['3']; DecimalValueSnoc(s8, '3');
    assert s9 == "922337203";
  }

  /** LONG_MAX_TEXT is a digit string denoting LONG_MAX. */
  lemma LongMaxText()
    ensures AllDigits(LONG_MAX_TEXT) && DecimalValue(LONG_MAX_TEXT) == LONG_MAX
  {
    LongMaxTextHigh();
    var s9: string := "922337203";
    var s10 := s9 + ['6']; DecimalValueSnoc(s9, '6');
    var s11 := s10 + ['8']; DecimalValueSnoc(s10, '8');
    var s12 := s11 + ['5']; DecimalValueSnoc(s11, '5');
    var s13 := s12 + ['4']; DecimalValueSnoc(s12, '4');
    var s14 := s13 + ['7']; DecimalValueSnoc(s13, '7');
    var s15 := s14 + ['7']; DecimalValueSnoc(s14, '7');
    var s16 := s15 + ['5']; DecimalValueSnoc(s15, '5');
    var s17 := s16 + ['8']; DecimalValueSnoc(s16, '8');
    var s18 := s17 + ['0']; DecimalValueSnoc(s17, '0');
    var s19 := s18 + ['7']; DecimalValueSnoc(s18, '7');
    assert s19 == LONG_MAX_TEXT;
  }

  /** The concrete input "9223372036854775807" (LONG_MAX itself) is refused by
      size_t_from_string and accepted by the overflow-checked parse. */
  lemma FromStringRefusesLongMaxText()
    ensures !FromString(0, LONG_MAX_TEXT).Ok()
    ensures ParseSize(0, LONG_MAX_TEXT) == Ret(0, LONG_MAX)
  {
    LongMaxText();
    FromStringRefusesLongMax(0, LONG_MAX_TEXT);
  }
}
