/** JavaScript numbers as far as the modelled code uses them: rounding, printing, parseInt. */
module JsNumber {
  const TWO53 := 0x20_0000_0000_0000

  /** x << n. */
  function ShiftLeft(x: nat, n: nat): (r: nat)
    ensures x >= 1 ==> r >= 1
    decreases n
  {
    if n == 0 then x else ShiftLeft(2 * x, n - 1)
  }

  lemma {:induction false} ShiftLeftAdds(x: nat, y: nat, n: nat)
    ensures ShiftLeft(x + y, n) == ShiftLeft(x, n) + ShiftLeft(y, n)
    decreases n
  {
    if n > 0 {
      ShiftLeftAdds(2 * x, 2 * y, n - 1);
    }
  }

  lemma {:induction false} ShiftLeftGrows(x: nat, y: nat, n: nat)
    requires x <= y
    ensures ShiftLeft(x, n) <= ShiftLeft(y, n)
    decreases n
  {
    if n > 0 {
      ShiftLeftGrows(2 * x, 2 * y, n - 1);
    }
  }

  /** Seven more places hold one more base-128 digit. */
  lemma ShiftDigit(x: nat, n: nat)
    ensures ShiftLeft(x, n + 7) == ShiftLeft(0x80 * x, n)
  {
    assert ShiftLeft(x, n + 7) == ShiftLeft(4 * x, n + 5) == ShiftLeft(16 * x, n + 3) == ShiftLeft(64 * x, n + 1);
  }

  /**
   * Number(v) for a non-negative bigint: round to 53 significant bits, ties to even.
   * `sticky` says whether a lower bit that was set has been shifted out already.
   */
  function ToNumber(v: nat, sticky: bool := false): (n: nat)
    ensures v < TWO53 ==> n == v
  {
    if v < TWO53 then v
    else if v < 2 * TWO53 then 2 * (v / 2 + if v % 2 == 1 && (sticky || v / 2 % 2 == 1) then 1 else 0)
    else 2 * ToNumber(v / 2, sticky || v % 2 == 1)
  }

  function Pow2(e: nat): (p: nat)
    ensures p > 0
  {
    if e == 0 then 1 else 2 * Pow2(e - 1)
  }

  /** q or q + 1, whichever is nearer to q and r parts of `unit`; the even one when both are. */
  function Nearer(q: nat, r: nat, unit: nat): nat {
    if 2 * r > unit || (2 * r == unit && q % 2 == 1) then q + 1 else q
  }

  /** The result is the nearest number with 53 significant bits: q units of 2^e, where q has 53 bits, or one more. */
  lemma ToNumberIsNearest(v: nat, e: nat, q: nat, r: nat)
    requires v == q * Pow2(e) + r && r < Pow2(e) && TWO53 <= 2 * q < 2 * TWO53 && e > 0
    ensures ToNumber(v) == Nearer(q, r, Pow2(e)) * Pow2(e)
  {
    RoundsToNearest(v, e, q, r, false);
  }

  /** With a bit already shifted out, a tie is none. */
  lemma {:induction false} RoundsToNearest(v: nat, e: nat, q: nat, r: nat, sticky: bool)
    requires v == q * Pow2(e) + r && r < Pow2(e) && TWO53 <= 2 * q < 2 * TWO53 && e > 0
    ensures ToNumber(v, sticky) ==
            (if sticky && 2 * r == Pow2(e) then q + 1 else Nearer(q, r, Pow2(e))) * Pow2(e)
    decreases e
  {
    if e == 1 {
      LastBit(v, q, r, sticky);
    } else {
      var half, rest := Pow2(e - 1), sticky || v % 2 == 1;
      HalfOf(v, e, q, r, half);
      HalfDecides(q, r, half, sticky);
      ToNumberHalves(v, sticky);
      hide *;
      RoundsToNearest(v / 2, e - 1, q, r / 2, rest);
      Halve(if sticky && 2 * r == 2 * half then q + 1 else Nearer(q, r, 2 * half), half);
    }
  }

  lemma ToNumberHalves(v: nat, sticky: bool)
    requires v >= 2 * TWO53
    ensures ToNumber(v, sticky) == 2 * ToNumber(v / 2, sticky || v % 2 == 1)
  {
  }

  lemma HalfOf(v: nat, e: nat, q: nat, r: nat, half: nat)
    requires v == q * Pow2(e) + r && r < Pow2(e) && TWO53 <= 2 * q && e > 1 && half == Pow2(e - 1)
    ensures Pow2(e) == 2 * half && half % 2 == 0 && v >= 2 * TWO53
    ensures v / 2 == q * half + r / 2 && r / 2 < half && v % 2 == r % 2
  {
    assert half == 2 * Pow2(e - 2);
    Halve(q, half);
    assert v == 2 * (q * half) + r;
    AtLeast(q, Pow2(e - 2));
  }

  lemma LastBit(v: nat, q: nat, r: nat, sticky: bool)
    requires v == q * Pow2(1) + r && r < Pow2(1) && TWO53 <= 2 * q < 2 * TWO53
    ensures ToNumber(v, sticky) == (if sticky && 2 * r == Pow2(1) then q + 1 else Nearer(q, r, Pow2(1))) * Pow2(1)
  {
    assert Pow2(1) == 2 * Pow2(0) == 2;
  }

  /** Of an even half, the parts and whether one is left over decide as the whole does. */
  lemma HalfDecides(q: nat, r: nat, half: nat, sticky: bool)
    requires half % 2 == 0
    ensures (if sticky && 2 * r == 2 * half then q + 1 else Nearer(q, r, 2 * half)) ==
            if (sticky || r % 2 == 1) && 2 * (r / 2) == half then q + 1 else Nearer(q, r / 2, half)
  {
  }

  lemma Halve(q: nat, half: nat)
    ensures q * (2 * half) == 2 * (q * half)
  {
  }

  lemma AtLeast(q: nat, k: nat)
    requires k > 0
    ensures q * (2 * k) >= 2 * q
  {
  }

  lemma ShiftDouble(y: nat, n: nat)
    ensures ShiftLeft(2 * y, n) == 2 * ShiftLeft(y, n)
  {
    ShiftLeftAdds(y, y, n);
  }

  // ---------- Decimal strings ----------

  /** What parseInt gives: a rounded integer, an infinity, or not a number. */
  datatype Number = Finite(value: int) | Infinite(negative: bool) | NaN

  predicate IsDigit(c: char) { '0' <= c <= '9' }

  function DigitValue(c: char): (d: int)
    requires IsDigit(c)
    ensures 0 <= d < 10
  {
    c as int - '0' as int
  }

  function DigitChar(d: nat): (c: char)
    requires d < 10
    ensures IsDigit(c) && DigitValue(c) == d
  {
    (d + '0' as int) as char
  }

  /** String(n) for a non-negative integer below 10^21. */
  function Digits(n: nat): (s: string)
    ensures s != [] && forall i :: 0 <= i < |s| ==> IsDigit(s[i])
  {
    if n < 10 then [DigitChar(n)] else Digits(n / 10) + [DigitChar(n % 10)]
  }

  function Decimal(n: int): string { if n < 0 then "-" + Digits(-n) else Digits(n) }

  /** How many characters at the front are digits. */
  function DigitPrefix(s: string): (k: nat)
    ensures k <= |s| && forall i :: 0 <= i < k ==> IsDigit(s[i])
  {
    if s == [] || !IsDigit(s[0]) then 0 else 1 + DigitPrefix(s[1..])
  }

  function DigitsValue(s: string): nat
    requires forall i :: 0 <= i < |s| ==> IsDigit(s[i])
  {
    if s == [] then 0 else 10 * DigitsValue(s[..|s| - 1]) + DigitValue(s[|s| - 1])
  }

  /** JavaScript's white space and line terminators: what parseInt and trim skip, and \s matches. */
  predicate IsBlank(c: char) {
    var n := c as int;
    9 <= n <= 13 || n == 0x20 || n == 0xa0 || n == 0x1680 || 0x2000 <= n <= 0x200a
    || n == 0x2028 || n == 0x2029 || n == 0x202f || n == 0x205f || n == 0x3000 || n == 0xfeff
  }

  function SkipBlanks(s: string): string {
    if s != [] && IsBlank(s[0]) then SkipBlanks(s[1..]) else s
  }

  /** Number.parseInt(s, 10): optional blanks, an optional sign, and as many digits as there are. */
  function ParseInt(s: string): Number {
    var t := SkipBlanks(s);
    if t != [] && (t[0] == '-' || t[0] == '+') then ParseUnsigned(t[1..], t[0] == '-')
    else ParseUnsigned(t, false)
  }

  function ParseUnsigned(s: string, negative: bool): Number {
    var k := DigitPrefix(s);
    if k == 0 then NaN
    else
      Rounded(DigitsValue(s[..k]), negative)
  }

  /** The double nearest to a number of this magnitude. */
  function Rounded(v: nat, negative: bool): Number {
    var n: int := ToNumber(v);
    if v >= OVERFLOW_BOUND then Infinite(negative) else Finite(if negative then -n else n)
  }

  /** (2^54 - 1) * 2^970: from here on the nearest double is infinite. */
  const OVERFLOW_BOUND := 0xfffffffffffffc00000000000000000000000000000000000000000000000000000000000000000000000000000000000000000000000000000000000000000000000000000000000000000000000000000000000000000000000000000000000000000000000000000000000000000000000000000000000000000000000000

  /** Printing and parsing undo each other on safe integers, whatever non-digit follows. */
  lemma ParseIntInvertsDecimal(n: int, tail: string)
    requires -TWO53 < n < TWO53 && (tail == [] || !IsDigit(tail[0]))
    ensures ParseInt(Decimal(n) + tail) == Finite(n)
  {
    var m := if n < 0 then -n else n;
    var s := Digits(m) + tail;
    UnsignedInverts(m, tail, n < 0);
    assert s[0] == Digits(m)[0];
    if n < 0 {
      assert Decimal(n) + tail == ['-'] + s;
      ParseAfterMinus(s);
    } else {
      ParseFromDigit(s);
    }
  }

  /** Blanks, at most one sign and digits are read, whatever other character follows; without a digit there is no number. */
  lemma ParseIntReads(blanks: string, sign: string, digits: string, rest: string)
    requires (forall i :: 0 <= i < |blanks| ==> IsBlank(blanks[i])) && sign in ["", "+", "-"]
    requires (forall i :: 0 <= i < |digits| ==> IsDigit(digits[i])) && (rest == "" || !IsDigit(rest[0]))
    requires digits == "" && rest != "" ==> !IsBlank(rest[0]) && rest[0] != '+' && rest[0] != '-'
    ensures ParseInt(blanks + (sign + (digits + rest))) ==
            if digits == "" then NaN else Rounded(DigitsValue(digits), sign == "-")
  {
    DigitsTaken(digits, rest, sign == "-");
    FirstOf(sign, digits, rest);
    hide *;
    SignTaken(blanks, sign, digits + rest);
  }

  lemma FirstOf(sign: string, digits: string, rest: string)
    requires forall i :: 0 <= i < |digits| ==> IsDigit(digits[i])
    requires digits == "" && rest != "" ==> !IsBlank(rest[0]) && rest[0] != '+' && rest[0] != '-'
    ensures var s := digits + rest; s == "" || (!IsBlank(s[0]) && s[0] != '+' && s[0] != '-')
  {
  }

  lemma DigitsTaken(digits: string, rest: string, negative: bool)
    requires (forall i :: 0 <= i < |digits| ==> IsDigit(digits[i])) && (rest == "" || !IsDigit(rest[0]))
    ensures ParseUnsigned(digits + rest, negative) ==
            if digits == "" then NaN else Rounded(DigitsValue(digits), negative)
  {
    AllDigits(digits, rest);
    assert (digits + rest)[..|digits|] == digits;
  }

  lemma SignTaken(blanks: string, sign: string, s: string)
    requires (forall i :: 0 <= i < |blanks| ==> IsBlank(blanks[i])) && sign in ["", "+", "-"]
    requires s == "" || (!IsBlank(s[0]) && s[0] != '+' && s[0] != '-')
    ensures ParseInt(blanks + (sign + s)) == ParseUnsigned(s, sign == "-")
  {
    BlanksSkipped(blanks, sign + s);
    hide ParseUnsigned, SkipBlanks;
    if sign == "" {
      assert sign + s == s;
    } else {
      assert (sign + s)[1..] == s;
    }
  }

  lemma {:induction false} BlanksSkipped(blanks: string, s: string)
    requires (forall i :: 0 <= i < |blanks| ==> IsBlank(blanks[i])) && (s == "" || !IsBlank(s[0]))
    ensures SkipBlanks(blanks + s) == s
  {
    if blanks == "" {
      assert blanks + s == s;
    } else {
      assert (blanks + s)[1..] == blanks[1..] + s;
      BlanksSkipped(blanks[1..], s);
    }
  }

  lemma ParseFromDigit(s: string)
    requires s != [] && IsDigit(s[0])
    ensures ParseInt(s) == ParseUnsigned(s, false)
  {
  }

  lemma ParseAfterMinus(s: string)
    ensures ParseInt(['-'] + s) == ParseUnsigned(s, true)
  {
    assert (['-'] + s)[1..] == s;
  }

  lemma UnsignedInverts(n: int, tail: string, negative: bool)
    requires 0 <= n < TWO53 && (tail == [] || !IsDigit(tail[0]))
    ensures ParseUnsigned(Digits(n) + tail, negative) == Finite(if negative then -n else n)
  {
    DigitsParse(n, tail);
  }

  lemma DigitsParse(n: nat, tail: string)
    requires tail == [] || !IsDigit(tail[0])
    ensures var s := Digits(n) + tail;
            DigitPrefix(s) == |Digits(n)| && DigitsValue(s[..DigitPrefix(s)]) == n
  {
    AllDigits(Digits(n), tail);
    assert (Digits(n) + tail)[..|Digits(n)|] == Digits(n);
    ValueOfDigits(n);
  }

  lemma {:induction false} AllDigits(s: string, tail: string)
    requires forall i :: 0 <= i < |s| ==> IsDigit(s[i])
    requires tail == [] || !IsDigit(tail[0])
    ensures DigitPrefix(s + tail) == |s|
  {
    if s == [] {
      assert s + tail == tail;
    } else {
      assert (s + tail)[1..] == s[1..] + tail;
      AllDigits(s[1..], tail);
    }
  }

  lemma {:induction false} ValueOfDigits(n: nat)
    ensures DigitsValue(Digits(n)) == n
  {
    if n >= 10 {
      ValueOfDigits(n / 10);
      assert Digits(n)[..|Digits(n)| - 1] == Digits(n / 10);
    }
  }
}
