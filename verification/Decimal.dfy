// The decimal numbers of the HTTP parameter API (parameters_api.c, http_parameters_client.c): printed
// with %ld, read back by str2int.
module Decimal {
  import opened Parameters
  import opened Words

  const TWO31: nat := 0x8000_0000

  predicate IsDigit(c: char) {
    '0' <= c <= '9'
  }

  function Digit(c: char): (d: nat)
    requires IsDigit(c)
    ensures d < 10
  {
    c as int - '0' as int
  }

  function DigitChar(d: nat): (c: char)
    requires d < 10
    ensures IsDigit(c) && Digit(c) == d
  {
    ('0' as int + d) as char
  }

  lemma TenDigits()
    ensures [DigitChar(0), DigitChar(1), DigitChar(2), DigitChar(3), DigitChar(4), DigitChar(5), DigitChar(6), DigitChar(7),
             DigitChar(8), DigitChar(9)] == "0123456789"
  {
    assert forall d: nat | d < 10 :: DigitChar(d) as int == 48 + d;
  }

  ghost predicate AllDigits(s: string) {
    forall i | 0 <= i < |s| :: IsDigit(s[i])
  }

  // What a run of digits means.
  ghost function Value(s: string): nat
    requires AllDigits(s)
  {
    if s == [] then 0 else 10 * Value(s[..|s| - 1]) + Digit(s[|s| - 1])
  }

  // A digit more makes the number ten times as large and adds the digit.
  lemma ValueOfMore(s: string, c: char)
    requires AllDigits(s) && '0' <= c <= '9'
    ensures AllDigits(s + [c]) && Value([]) == 0 && Value(s + [c]) == 10 * Value(s) + (c as int - '0' as int)
  {
    assert (s + [c])[..|s|] == s;
  }

  // The length of the longest run of digits at the start.
  function DigitRun(s: string): (n: nat)
    ensures n <= |s| && AllDigits(s[..n]) && (n < |s| ==> !IsDigit(s[n]))
  {
    if s == [] || !IsDigit(s[0]) then 0
    else
      var n := DigitRun(s[1..]);
      assert forall i | 0 < i < n + 1 :: s[i] == s[1..][i - 1];
      n + 1
  }

  // The number a text starts with.
  ghost function LeadingValue(s: string): nat {
    Value(s[..DigitRun(s)])
  }

  // A C int, and what is left of a result that does not fit into it.
  function Int32(x: int): (r: int)
    ensures -0x8000_0000 <= r < TWO31
  {
    (x + TWO31) % TWO32 - TWO31
  }

  method Str2Int(str: string) returns (ret: int)
    ensures ret == Int32(LeadingValue(str))
  {
    ret := 0;
    var i := 0;
    while i < |str|
      invariant 0 <= i <= DigitRun(str) && ret == Int32(Value(str[..i]))
    {
      if !IsDigit(str[i]) { break; }
      assert str[..i + 1][..i] == str[..i];
      Int32Step(Value(str[..i]), Digit(str[i]));
      ret := Int32(ret * 10 + Digit(str[i]));
      i := i + 1;
    }
    DigitRunIs(str, i);
  }

  lemma {:induction false} DigitRunIs(s: string, n: nat)
    requires n <= |s| && AllDigits(s[..n]) && (n < |s| ==> !IsDigit(s[n]))
    ensures DigitRun(s) == n
  {
    var m := DigitRun(s);
    assert forall i | 0 <= i < m :: s[i] == s[..m][i];
    assert forall i | 0 <= i < n :: s[i] == s[..n][i];
  }

  lemma Int32Step(a: int, d: int)
    ensures Int32(Int32(a) * 10 + d) == Int32(a * 10 + d)
  {
    var k := (a + TWO31) / TWO32;
    assert Int32(a) == a - k * TWO32;
    ModShift(a * 10 + d + TWO31, -10 * k);
  }

  lemma ModShift(x: int, k: int)
    ensures (x + k * TWO32) % TWO32 == x % TWO32
  {
  }

  // The digits printf writes for a number.
  function Digits(n: nat): (s: string)
    ensures |s| > 0 && AllDigits(s) && Value(s) == n
    ensures n > 0 ==> s[0] != '0'
  {
    if n < 10 then
      assert Value([DigitChar(n)][..0]) == 0;
      [DigitChar(n)]
    else
      var s := Digits(n / 10) + [DigitChar(n % 10)];
      assert s[..|s| - 1] == Digits(n / 10);
      s
  }

  // They are those of a tenth of it and then its last digit, and one of "0123456789" below ten.
  lemma DigitsOf(n: nat)
    ensures Digits(n) == (if n < 10 then [] else Digits(n / 10)) + ["0123456789"[n % 10]]
  {
    TenDigits();
    assert forall d: nat | d < 10 :: DigitChar(d) == "0123456789"[d];
  }

  // %ld with a uint32_t argument: the word is read as signed.
  function PrintLd(v: uint32): string {
    if v < TWO31 then Digits(v) else "-" + Digits(TWO32 - v)
  }

  // The digits after the sign are those of how far the word lies below 2^32.
  lemma PrintedSigned(v: uint32)
    requires v >= 0x8000_0000
    ensures var s := PrintLd(v); s[0] == '-' && AllDigits(s[1..]) && Value(s[1..]) == 0x1_0000_0000 - v && s[1] != '0'
  {
    assert PrintLd(v)[1..] == Digits(0x1_0000_0000 - v);
  }

  // What str2int's result is as a parameter value.
  ghost function Parsed(s: string): uint32 {
    Wrap32(Int32(LeadingValue(s)))
  }

  lemma WrapInt32(x: nat)
    ensures Wrap32(Int32(x)) == Wrap32(x)
    ensures Int32(x) == x <==> x < TWO31
  {
    var k := (x + TWO31) / TWO32;
    assert Int32(x) == x - k * TWO32;
    ModShift(x, -k);
  }

  lemma LeadingDigits(digits: string, rest: string)
    requires AllDigits(digits) && (rest == [] || !IsDigit(rest[0]))
    ensures LeadingValue(digits + rest) == Value(digits)
  {
    assert (digits + rest)[..|digits|] == digits;
    DigitRunIs(digits + rest, |digits|);
  }

  // A number at the start of a text is read exactly if and only if it is below 2^31, whatever follows it;
  // as a 32-bit parameter value it is read modulo 2^32.
  lemma ParsedDigits(digits: string, rest: string)
    requires AllDigits(digits) && (rest == [] || !IsDigit(rest[0]))
    ensures Parsed(digits + rest) == Wrap32(Value(digits))
    ensures Int32(LeadingValue(digits + rest)) == Value(digits) <==> Value(digits) < TWO31
  {
    LeadingDigits(digits, rest);
    WrapInt32(Value(digits));
  }

  // Reading undoes printing exactly below 2^31; from there on a minus sign is printed and 0 is read.
  lemma PrintThenParse(v: uint32, rest: string)
    requires rest == [] || !IsDigit(rest[0])
    ensures Parsed(PrintLd(v) + rest) == if v < TWO31 then v else 0
  {
    if v < TWO31 {
      ParsedDigits(Digits(v), rest);
    } else {
      DigitRunIs(PrintLd(v) + rest, 0);
    }
  }

  lemma PrintedAsDigits(v: uint32)
    ensures PrintLd(v) == Digits(v) <==> v < TWO31
  {
    if v >= TWO31 { assert PrintLd(v)[0] == '-' && IsDigit(Digits(v)[0]); }
  }

  lemma ParsedWhole(digits: string)
    requires AllDigits(digits)
    ensures Parsed(digits) == Wrap32(Value(digits))
  {
    DigitRunIs(digits, |digits|);
    assert digits[..|digits|] == digits;
    WrapInt32(Value(digits));
  }

  lemma ParsedOwnDigits(v: uint32)
    ensures Parsed(Digits(v)) == v
  {
    ParsedWhole(Digits(v));
  }

  // The digits of a number posted and accepted: a get then replies with the very same text exactly below 2^31.
  lemma PostThenGet(l: Limits, t: Table, val: uint8, v: uint32, t': Table)
    requires ValidTable(l, t) && SetValue(l, t, val, Parsed(Digits(v))) == (t', true)
    ensures PrintLd(GetValue(t', val)) == Digits(v) <==> v < TWO31
  {
    ParsedOwnDigits(v);
    assert GetValue(t', val) == v;
    PrintedAsDigits(v);
  }
}
