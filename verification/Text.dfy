/** Byte strings, digits, and the number formats of the SCP header lines. A Go string is a
    sequence of bytes; a byte is modelled by the `char` with the same code. */
module Text {

  datatype Option<+T> = None | Some(value: T)

  predicate IsDigit(c: char) {
    '0' <= c <= '9'
  }

  predicate AllDigits(s: string) {
    forall i | 0 <= i < |s| :: IsDigit(s[i])
  }

  function DigitOf(c: char): nat
    requires IsDigit(c)
  {
    c as int - '0' as int
  }

  function DigitChar(d: nat): char
    requires d < 10
  {
    ('0' as int + d) as char
  }

  /** The two bases in use, with their arithmetic. */
  datatype Radix = Octal | Decimal {
    function Size(): nat { if Octal? then 8 else 10 }
    function Times(n: nat): nat { if Octal? then 8 * n else 10 * n }
    function Quotient(n: nat): nat { if Octal? then n / 8 else n / 10 }
    function Remainder(n: nat): nat { if Octal? then n % 8 else n % 10 }

    function Pow(k: nat): nat {
      if k == 0 then 1 else Times(Pow(k - 1))
    }
  }

  /** strconv.FormatUint(n, base) */
  function Format(radix: Radix, n: nat): (s: string)
    ensures |s| > 0 && AllDigits(s)
  {
    if n < radix.Size() then [DigitChar(n)]
    else Format(radix, radix.Quotient(n)) + [DigitChar(radix.Remainder(n))]
  }

  /** The verb %d. */
  function FormatInt(n: int): string {
    if n < 0 then "-" + Format(Decimal, -n) else Format(Decimal, n)
  }

  function Value(radix: Radix, s: string): nat
    requires AllDigits(s)
  {
    if s == [] then 0 else radix.Times(Value(radix, s[..|s| - 1])) + DigitOf(s[|s| - 1])
  }

  predicate InBase(radix: Radix, s: string) {
    forall i | 0 <= i < |s| :: IsDigit(s[i]) && DigitOf(s[i]) < radix.Size()
  }

  /** strconv.ParseUint(s, 8, 32) on the four digits a header line carries: a digit 8 or 9 is
      an error, and four octal digits always fit. */
  function ParseOctal(s: string): Option<nat>
    requires AllDigits(s)
  {
    if InBase(Octal, s) then Some(Value(Octal, s)) else None
  }

  const INT64_LIMIT: nat := 0x8000_0000_0000_0000

  /** strconv.ParseInt(s, 10, 64) on a string of digits: out of range is an error. */
  function ParseInt64(s: string): Option<nat>
    requires AllDigits(s)
  {
    if Value(Decimal, s) < INT64_LIMIT then Some(Value(Decimal, s)) else None
  }

  /** Parsing undoes printing, in either base. */
  lemma {:induction false} ValueOfFormat(radix: Radix, n: nat)
    ensures Value(radix, Format(radix, n)) == n
    ensures InBase(radix, Format(radix, n))
  {
    if n < radix.Size() {
      ValueSnoc(radix, "", n);
      assert "" + [DigitChar(n)] == [DigitChar(n)];
    } else {
      ValueOfFormat(radix, radix.Quotient(n));
      ValueSnoc(radix, Format(radix, radix.Quotient(n)), radix.Remainder(n));
    }
  }

  /** A negative number is a minus and the digits of its opposite, which parse back to it. */
  lemma NegativeNumbers(n: int)
    requires n < 0
    ensures FormatInt(n)[0] == '-' && FormatInt(n)[1..] == FormatInt(-n)
    ensures AllDigits(FormatInt(n)[1..]) && Value(Decimal, FormatInt(n)[1..]) == -n
  {
    ValueOfFormat(Decimal, -n);
    assert ("-" + Format(Decimal, -n))[1..] == Format(Decimal, -n);
  }

  lemma ValueSnoc(radix: Radix, s: string, d: nat)
    requires AllDigits(s) && d < radix.Size()
    ensures AllDigits(s + [DigitChar(d)])
    ensures Value(radix, s + [DigitChar(d)]) == radix.Times(Value(radix, s)) + d
    ensures InBase(radix, s) ==> InBase(radix, s + [DigitChar(d)])
  {
    assert (s + [DigitChar(d)])[..|s|] == s;
  }

  /** A number takes at most k digits exactly when it is below the k-th power of its base. */
  lemma {:induction false} FormatLength(radix: Radix, n: nat, k: nat)
    requires k >= 1
    ensures |Format(radix, n)| <= k <==> n < radix.Pow(k)
  {
    PowPositive(radix, k - 1);
    if k > 1 {
      FormatLength(radix, radix.Quotient(n), k - 1);
    }
  }

  lemma {:induction false} PowPositive(radix: Radix, k: nat)
    ensures radix.Pow(k) > 0
  {
    if k > 0 {
      PowPositive(radix, k - 1);
    }
  }

  /** The number of leading digits of a line, which is what `(\d+)` matches before a blank. */
  function DigitRun(s: string): (k: nat)
    ensures k <= |s| && AllDigits(s[..k]) && (k < |s| ==> !IsDigit(s[k]))
  {
    if s == "" || !IsDigit(s[0]) then 0 else
      var k := 1 + DigitRun(s[1..]);
      assert s[..k] == [s[0]] + s[1..][..k - 1];
      k
  }

  lemma DigitRunIs(digits: string, after: string)
    requires AllDigits(digits) && (after == "" || !IsDigit(after[0]))
    ensures DigitRun(digits + after) == |digits|
  {
    var s := digits + after;
    var k := DigitRun(s);
    assert forall i | 0 <= i < |digits| :: s[i] == digits[i];
    assert after != "" ==> s[|digits|] == after[0];
    assert forall i | 0 <= i < k :: s[..k][i] == s[i];
  }

  /** The index of the first newline, or the length if there is none. */
  function LineEnd(s: string): (k: nat)
    ensures k <= |s| && '\n' !in s[..k]
    ensures k < |s| ==> s[k] == '\n'
    ensures k == |s| <==> '\n' !in s
  {
    if s == "" || s[0] == '\n' then 0 else
      var k := 1 + LineEnd(s[1..]);
      assert s[..k] == [s[0]] + s[1..][..k - 1];
      assert s == [s[0]] + s[1..];
      k
  }

  lemma LineEndIs(line: string, after: string)
    requires '\n' !in line
    ensures LineEnd(line + "\n" + after) == |line|
  {
    var s := line + "\n" + after;
    var k := LineEnd(s);
    assert forall i | 0 <= i < |line| :: s[i] == line[i];
    assert s[|line|] == '\n';
    assert forall i | 0 <= i < k :: s[..k][i] == s[i];
  }
}
