/** The header lines of the SCP stream: how the server prints them, and the three regular
    expressions with which it reads them back. Lines are given without their newline. */
module Headers {
  import opened Text

  datatype Error =
    | ReadLine
    | BadNumber(line: string)
    | BadName(name: string)
    | Unhandled(line: string)
    | MkdirFailed(name: string)
    | WriteFailed(name: string)
    | ShortWrite(name: string, written: int, size: nat)

  datatype Header =
    | TimeHeader(mtime: nat, atime: nat)
    | FileHeader(mode: nat, size: nat, name: string)
    | DirHeader(mode: nat, name: string)
    | EndHeader
    | BadHeader(error: Error)

  predicate ValidName(name: string) {
    name != "" && name != "." && name != ".." && '/' !in name && '\\' !in name
  }

  // ---- Printing ----

  /** Two modes have the same low nine bits, of which the second has no others. */
  predicate SameBits(mode: nat, perm: nat) {
    perm < 0x200 && (mode - perm) % 0x200 == 0
  }

  /** The permission bits of a file mode: the low nine. */
  function Perm(mode: nat): (perm: nat)
    ensures SameBits(mode, perm)
  {
    mode % 0x200
  }

  function OctalPerms(mode: nat): string {
    "0" + Format(Octal, Perm(mode))
  }

  function TimeLine(mtime: int, atime: int): string {
    "T" + FormatInt(mtime) + " 0 " + FormatInt(atime) + " 0"
  }

  function FileLine(mode: nat, size: int, name: string): string {
    "C" + OctalPerms(mode) + " " + FormatInt(size) + " " + name
  }

  function DirLine(mode: nat, name: string): string {
    "D" + OctalPerms(mode) + " 0 " + name
  }

  // ---- Matching ----

  /** `^T(\d{10}) 0 (\d{10}) 0$` */
  function MatchTime(line: string): Option<(string, string)> {
    if |line| == 26 && line[0] == 'T' && AllDigits(line[1..11]) && line[11..14] == " 0 "
       && AllDigits(line[14..24]) && line[24..] == " 0"
    then Some((line[1..11], line[14..24]))
    else None
  }

  /** `^C(\d{4}) (\d+) (.*)$` */
  function MatchFile(line: string): Option<(string, string, string)> {
    if |line| >= 6 && line[0] == 'C' && AllDigits(line[1..5]) && line[5] == ' ' then
      var k := DigitRun(line[6..]);
      if k > 0 && 6 + k < |line| && line[6 + k] == ' '
      then Some((line[1..5], line[6..][..k], line[7 + k..]))
      else None
    else None
  }

  /** `^D(\d{4}) 0 (.*)$` */
  function MatchDir(line: string): Option<(string, string)> {
    if |line| >= 8 && line[0] == 'D' && AllDigits(line[1..5]) && line[5..8] == " 0 "
    then Some((line[1..5], line[8..]))
    else None
  }

  /** What the reading loop makes of a line: the first form that matches decides, then the
      numbers are converted, then the name is checked. */
  function ParseLine(line: string): Header {
    var t := MatchTime(line);
    var f := MatchFile(line);
    var d := MatchDir(line);
    if t.Some? then
      var mtime, atime := ParseInt64(t.value.0), ParseInt64(t.value.1);
      if mtime.None? || atime.None? then BadHeader(BadNumber(line))
      else TimeHeader(mtime.value, atime.value)
    else if f.Some? then
      var mode, size := ParseOctal(f.value.0), ParseInt64(f.value.1);
      if mode.None? || size.None? then BadHeader(BadNumber(line))
      else if !ValidName(f.value.2) then BadHeader(BadName(f.value.2))
      else FileHeader(mode.value, size.value, f.value.2)
    else if d.Some? then
      var mode := ParseOctal(d.value.0);
      if mode.None? then BadHeader(BadNumber(line))
      else if !ValidName(d.value.1) then BadHeader(BadName(d.value.1))
      else DirHeader(mode.value, d.value.1)
    else if line == "E" then EndHeader
    else BadHeader(Unhandled(line))
  }

  // ---- The regular expressions, declaratively ----

  lemma MatchTimeMeans(line: string, m: string, a: string)
    ensures MatchTime(line) == Some((m, a)) <==>
            |m| == 10 && |a| == 10 && AllDigits(m) && AllDigits(a)
            && line == "T" + m + " 0 " + a + " 0"
  {
    if |m| == 10 && |a| == 10 && line == "T" + m + " 0 " + a + " 0" {
      assert line[1..11] == m && line[14..24] == a;
      assert line[11..14] == " 0 " && line[24..] == " 0";
    }
    if |line| == 26 && line[0] == 'T' && line[11..14] == " 0 " && line[24..] == " 0" {
      assert line == "T" + line[1..11] + line[11..14] + line[14..24] + line[24..];
    }
  }

  lemma MatchFileMeans(line: string, m: string, s: string, n: string)
    ensures MatchFile(line) == Some((m, s, n)) <==>
            |m| == 4 && AllDigits(m) && s != "" && AllDigits(s)
            && line == "C" + m + " " + s + " " + n
  {
    if |m| == 4 && AllDigits(m) && s != "" && AllDigits(s) && line == "C" + m + " " + s + " " + n {
      assert line[1..5] == m;
      assert line[6..] == s + (" " + n);
      DigitRunIs(s, " " + n);
      assert line[6..][..|s|] == s;
      assert line[7 + |s|..] == n;
    }
    if MatchFile(line) == Some((m, s, n)) {
      var k := DigitRun(line[6..]);
      assert line == "C" + line[1..5] + " " + line[6..][..k] + " " + line[7 + k..];
    }
  }

  lemma MatchDirMeans(line: string, m: string, n: string)
    ensures MatchDir(line) == Some((m, n)) <==>
            |m| == 4 && AllDigits(m) && line == "D" + m + " 0 " + n
  {
    if |m| == 4 && line == "D" + m + " 0 " + n {
      assert line[1..5] == m && line[5..8] == " 0 " && line[8..] == n;
    }
    if MatchDir(line) == Some((m, n)) {
      assert line == line[..1] + line[1..5] + line[5..8] + line[8..];
    }
  }

  /** A line matches at most one of the four forms, so the order of the tests does not matter. */
  lemma FormsDisjoint(line: string)
    ensures MatchTime(line).Some? ==> MatchFile(line).None? && MatchDir(line).None? && line != "E"
    ensures MatchFile(line).Some? ==> MatchDir(line).None? && line != "E"
    ensures MatchDir(line).Some? ==> line != "E"
  {}

  lemma EndIsEnd()
    ensures ParseLine("E") == EndHeader
  {}

  // ---- What a line means ----

  function FourDigits(a: nat, b: nat, c: nat, d: nat): string
    requires a < 8 && b < 8 && c < 8 && d < 8
  {
    [OctalDigit(a), OctalDigit(b), OctalDigit(c), OctalDigit(d)]
  }

  lemma NoDigits()
    ensures Value(Octal, "") == 0 && InBase(Octal, "")
  {}

  /** Four octal digits are read in their places; a digit 8 or 9 is an error. */
  lemma FourDigitsRead(a: nat, b: nat, c: nat, d: nat)
    requires a < 8 && b < 8 && c < 8 && d < 8
    ensures AllDigits(FourDigits(a, b, c, d))
    ensures ParseOctal(FourDigits(a, b, c, d)) == Some(512 * a + 64 * b + 8 * c + d)
  {
    hide Value, InBase;
    NoDigits();
    ValueSnoc(Octal, "", a);
    ValueSnoc(Octal, "" + [DigitChar(a)], b);
    ValueSnoc(Octal, "" + [DigitChar(a)] + [DigitChar(b)], c);
    ValueSnoc(Octal, "" + [DigitChar(a)] + [DigitChar(b)] + [DigitChar(c)], d);
    assert FourDigits(a, b, c, d) == "" + [DigitChar(a)] + [DigitChar(b)] + [DigitChar(c)] + [DigitChar(d)];
  }

  /** The first number of a T line is the time of modification, the second that of access. */
  lemma TimeLineMeans(m: string, a: string)
    requires |m| == 10 && |a| == 10 && AllDigits(m) && AllDigits(a)
    ensures ParseLine("T" + m + " 0 " + a + " 0") == TimeHeader(Value(Decimal, m), Value(Decimal, a))
  {
    MatchTimeMeans("T" + m + " 0 " + a + " 0", m, a);
    TenDigitsFit(m);
    TenDigitsFit(a);
  }

  lemma TenDigitsFit(s: string)
    requires |s| == 10 && AllDigits(s)
    ensures Value(Decimal, s) < INT64_LIMIT
  {
    ValueBound(s, 10);
    assert Decimal.Pow(5) == 100_000 by {
      assert Decimal.Pow(0) == 1 && Decimal.Pow(1) == 10 && Decimal.Pow(2) == 100 && Decimal.Pow(3) == 1000;
    }
    assert Decimal.Pow(10) == 10_000_000_000 by {
      assert Decimal.Pow(6) == 1000_000 && Decimal.Pow(7) == 10_000_000 && Decimal.Pow(8) == 100_000_000;
    }
  }

  lemma {:induction false} ValueBound(s: string, n: nat)
    requires |s| == n && AllDigits(s)
    ensures Value(Decimal, s) < Decimal.Pow(n)
  {
    if n > 0 {
      ValueBound(s[..n - 1], n - 1);
    }
  }

  /** A C line that matches, whatever its mode: the bits above the permissions count as well. */
  lemma FileLineMeans(a: nat, b: nat, c: nat, d: nat, size: string, name: string)
    requires a < 8 && b < 8 && c < 8 && d < 8 && size != "" && AllDigits(size)
    ensures var line := "C" + FourDigits(a, b, c, d) + " " + size + " " + name;
            ParseLine(line) ==
            if Value(Decimal, size) >= 0x8000_0000_0000_0000 then BadHeader(BadNumber(line))
            else if name in ["", ".", ".."] || '/' in name || '\\' in name then BadHeader(BadName(name))
            else FileHeader(512 * a + 64 * b + 8 * c + d, Value(Decimal, size), name)
  {
    var line := "C" + FourDigits(a, b, c, d) + " " + size + " " + name;
    FourDigitsRead(a, b, c, d);
    MatchFileMeans(line, FourDigits(a, b, c, d), size, name);
    FormsDisjoint(line);
  }

  /** The same for a D line. */
  lemma DirLineMeans(a: nat, b: nat, c: nat, d: nat, name: string)
    requires a < 8 && b < 8 && c < 8 && d < 8
    ensures ParseLine("D" + FourDigits(a, b, c, d) + " 0 " + name) ==
            if name in ["", ".", ".."] || '/' in name || '\\' in name then BadHeader(BadName(name))
            else DirHeader(512 * a + 64 * b + 8 * c + d, name)
  {
    var line := "D" + FourDigits(a, b, c, d) + " 0 " + name;
    FourDigitsRead(a, b, c, d);
    MatchDirMeans(line, FourDigits(a, b, c, d), name);
    FormsDisjoint(line);
  }

  /** A digit 8 or 9 in the mode is an error, whatever follows. */
  lemma NotOctal(mode: string, size: string, name: string, i: nat)
    requires |mode| == 4 && AllDigits(mode) && i < 4 && mode[i] >= '8'
    requires size != "" && AllDigits(size)
    ensures var line := "C" + mode + " " + size + " " + name; ParseLine(line) == BadHeader(BadNumber(line))
    ensures var line := "D" + mode + " 0 " + name; ParseLine(line) == BadHeader(BadNumber(line))
  {
    var file, dir := "C" + mode + " " + size + " " + name, "D" + mode + " 0 " + name;
    MatchFileMeans(file, mode, size, name);
    MatchDirMeans(dir, mode, name);
    FormsDisjoint(file);
    FormsDisjoint(dir);
  }

  /** Any line of none of the four forms is unhandled input. */
  lemma OtherLines(line: string)
    requires line != "E"
    requires forall m: string, a: string | |m| == 10 && |a| == 10 && AllDigits(m) && AllDigits(a) ::
               line != "T" + m + " 0 " + a + " 0"
    requires forall m: string, s: string, n: string | |m| == 4 && AllDigits(m) && s != "" && AllDigits(s) ::
               line != "C" + m + " " + s + " " + n
    requires forall m: string, n: string | |m| == 4 && AllDigits(m) :: line != "D" + m + " 0 " + n
    ensures ParseLine(line) == BadHeader(Unhandled(line))
  {
    if MatchTime(line).Some? {
      MatchTimeMeans(line, MatchTime(line).value.0, MatchTime(line).value.1);
      assert false;
    }
    if MatchFile(line).Some? {
      MatchFileMeans(line, MatchFile(line).value.0, MatchFile(line).value.1, MatchFile(line).value.2);
      assert false;
    }
    if MatchDir(line).Some? {
      MatchDirMeans(line, MatchDir(line).value.0, MatchDir(line).value.1);
      assert false;
    }
  }

  // ---- Reading back what was printed ----

  /** The four digits the parser wants are there exactly from 0100 upwards. */
  lemma OctalPermsDigits(mode: nat)
    ensures AllDigits(OctalPerms(mode))
    ensures 2 <= |OctalPerms(mode)| <= 4
    ensures |OctalPerms(mode)| == 4 <==> Perm(mode) >= 0x40
    ensures ParseOctal(OctalPerms(mode)) == Some(Perm(mode))
  {
    var f := Format(Octal, Perm(mode));
    FormatLength(Octal, Perm(mode), 2);
    FormatLength(Octal, Perm(mode), 3);
    assert Octal.Pow(2) == 64 && Octal.Pow(3) == 512 by {
      assert Octal.Pow(0) == 1 && Octal.Pow(1) == 8;
    }
    ValueOfFormat(Octal, Perm(mode));
    assert InBase(Octal, "0" + f);
    LeadingZero(Octal, f);
  }

  function OctalDigit(d: nat): char
    requires d < 8
  {
    "01234567"[d]
  }

  /** Digit by digit: one digit each for the owner, the group and the others behind a zero, the
      ones that lead with zero left out; the bits above are not printed. */
  lemma OctalPermsShows(high: nat, owner: nat, group: nat, others: nat)
    requires owner < 8 && group < 8 && others < 8
    ensures OctalPerms(0x200 * high + 64 * owner + 8 * group + others) ==
            if owner > 0 then ['0', OctalDigit(owner), OctalDigit(group), OctalDigit(others)]
            else if group > 0 then ['0', OctalDigit(group), OctalDigit(others)]
            else ['0', OctalDigit(others)]
  {
    hide Format, Perm, OctalDigit;
    PermOf(high, 64 * owner + 8 * group + others);
    DigitsShow(owner, group, others);
  }

  lemma PermOf(high: nat, low: nat)
    requires low < 0x200
    ensures Perm(0x200 * high + low) == low
  {}

  lemma DigitsShow(owner: nat, group: nat, others: nat)
    requires owner < 8 && group < 8 && others < 8
    ensures Format(Octal, 64 * owner + 8 * group + others) ==
            if owner > 0 then [OctalDigit(owner), OctalDigit(group), OctalDigit(others)]
            else if group > 0 then [OctalDigit(group), OctalDigit(others)]
            else [OctalDigit(others)]
  {
    hide Format, OctalDigit;
    FormatDigit(owner);
    FormatDigit(group);
    FormatDigit(others);
    if owner > 0 {
      FormatSnoc(owner, group);
      FormatSnoc(8 * owner + group, others);
      assert 8 * (8 * owner + group) + others == 64 * owner + 8 * group + others;
    } else if group > 0 {
      FormatSnoc(group, others);
    }
  }

  /** The header lines, character by character, for an owner with some permission. */
  lemma LinesShow(high: nat, owner: nat, group: nat, others: nat, size: int, name: string)
    requires 0 < owner < 8 && group < 8 && others < 8
    ensures var mode := 0x200 * high + 64 * owner + 8 * group + others;
            var digits := [OctalDigit(owner), OctalDigit(group), OctalDigit(others)];
            && FileLine(mode, size, name) == "C0" + digits + " " + FormatInt(size) + " " + name
            && DirLine(mode, name) == "D0" + digits + " 0 " + name
  {
    hide OctalPerms, FormatInt, OctalDigit;
    OctalPermsShows(high, owner, group, others);
    var digits := [OctalDigit(owner), OctalDigit(group), OctalDigit(others)];
    assert "C" + (['0'] + digits) == "C0" + digits && "D" + (['0'] + digits) == "D0" + digits;
    assert ['0', OctalDigit(owner), OctalDigit(group), OctalDigit(others)] == ['0'] + digits;
  }

  lemma FormatDigit(d: nat)
    requires d < 8
    ensures Format(Octal, d) == [OctalDigit(d)]
  {}

  lemma FormatSnoc(n: nat, d: nat)
    requires d < 8 && n > 0
    ensures Format(Octal, 8 * n + d) == Format(Octal, n) + [OctalDigit(d)]
  {
    FormatDigit(d);
  }

  lemma {:induction false} LeadingZero(radix: Radix, s: string)
    requires AllDigits(s)
    ensures AllDigits("0" + s) && Value(radix, "0" + s) == Value(radix, s)
  {
    if s == "" {
      assert ("0" + s)[..0] == "";
    } else {
      var front := s[..|s| - 1];
      assert ("0" + s)[..|s|] == "0" + front;
      LeadingZero(radix, front);
    }
  }

  predicate TenDigits(n: int) {
    1_000_000_000 <= n < 10_000_000_000
  }

  lemma TenDigitsPrinted(n: int)
    ensures |FormatInt(n)| == 10 && AllDigits(FormatInt(n)) <==> TenDigits(n)
    ensures n >= 0 ==> AllDigits(FormatInt(n)) && Value(Decimal, FormatInt(n)) == n
    ensures n < 0 ==> FormatInt(n)[0] == '-'
  {
    if n >= 0 {
      FormatLength(Decimal, n, 9);
      FormatLength(Decimal, n, 10);
      assert Decimal.Pow(3) == 1000 by {
        assert Decimal.Pow(0) == 1 && Decimal.Pow(1) == 10 && Decimal.Pow(2) == 100;
      }
      assert Decimal.Pow(6) == 1000_000 by {
        assert Decimal.Pow(4) == 10_000 && Decimal.Pow(5) == 100_000;
      }
      assert Decimal.Pow(9) == 1000_000_000 by {
        assert Decimal.Pow(7) == 10_000_000 && Decimal.Pow(8) == 100_000_000;
      }
      ValueOfFormat(Decimal, n);
    }
  }

  /** A printed T line is read back exactly when both times have ten digits; any other one is
      unhandled input. */
  lemma TimeLineReadsBack(mtime: int, atime: int)
    ensures ParseLine(TimeLine(mtime, atime)) ==
            if TenDigits(mtime) && TenDigits(atime) then TimeHeader(mtime, atime)
            else BadHeader(Unhandled(TimeLine(mtime, atime)))
  {
    var m, a := FormatInt(mtime), FormatInt(atime);
    var line := TimeLine(mtime, atime);
    TenDigitsPrinted(mtime);
    TenDigitsPrinted(atime);
    FormsDisjoint(line);
    if TenDigits(mtime) && TenDigits(atime) {
      MatchTimeMeans(line, m, a);
    } else {
      TimeLineFails(mtime, atime);
    }
  }

  lemma TimeLineFails(mtime: int, atime: int)
    requires !(TenDigits(mtime) && TenDigits(atime))
    ensures MatchTime(TimeLine(mtime, atime)).None?
  {
    var m, a := FormatInt(mtime), FormatInt(atime);
    var line := TimeLine(mtime, atime);
    TenDigitsPrinted(mtime);
    TenDigitsPrinted(atime);
    assert line[1..] == m + (" 0 " + a + " 0");
    if mtime < 0 {
      assert line[1] == '-';
      assert |line| >= 11 ==> !AllDigits(line[1..11]) by {
        assert |line| >= 11 ==> line[1..11][0] == '-';
      }
    } else if MatchTime(line).Some? {
      var rest := line[11..];
      assert line[1..] == line[1..11] + rest;
      DigitRunIs(m, " 0 " + a + " 0");
      DigitRunIs(line[1..11], rest);
    }
  }

  /** A printed C line is read back exactly when the permissions fill four digits, the size is a
      64-bit number that is not negative, and the name is valid. */
  lemma FileLineReadsBack(mode: nat, size: int, name: string)
    ensures var line := FileLine(mode, size, name);
            ParseLine(line) ==
            if Perm(mode) < 0x40 || size < 0 then BadHeader(Unhandled(line))
            else if size >= INT64_LIMIT then BadHeader(BadNumber(line))
            else if !ValidName(name) then BadHeader(BadName(name))
            else FileHeader(mode % 0x200, size, name)
  {
    var line := FileLine(mode, size, name);
    var p, s := OctalPerms(mode), FormatInt(size);
    OctalPermsDigits(mode);
    FormsDisjoint(line);
    assert line[0] == 'C';
    if Perm(mode) < 0x40 {
      var at := 1 + |p|;
      assert line[at] == ' ';
      assert |line| >= 5 ==> line[1..5][at - 1] == ' ';
    } else if size < 0 {
      assert line[6] == '-';
      assert line[6..][0] == '-';
    } else {
      ValueOfFormat(Decimal, size);
      MatchFileMeans(line, p, s, name);
    }
  }

  /** A printed D line is read back exactly when the permissions fill four digits. */
  lemma DirLineReadsBack(mode: nat, name: string)
    ensures ParseLine(DirLine(mode, name)) ==
            if Perm(mode) < 0x40 then BadHeader(Unhandled(DirLine(mode, name)))
            else if !ValidName(name) then BadHeader(BadName(name))
            else DirHeader(mode % 0x200, name)
  {
    var line := DirLine(mode, name);
    var p := OctalPerms(mode);
    OctalPermsDigits(mode);
    FormsDisjoint(line);
    assert line[0] == 'D';
    if Perm(mode) < 0x40 {
      var at := 1 + |p|;
      assert line[at] == ' ';
      assert |line| >= 5 ==> line[1..5][at - 1] == ' ';
    } else {
      MatchDirMeans(line, p, name);
    }
  }

  /** The printed part of a line never contains a newline of its own. */
  lemma LinesAreSingle(mtime: int, atime: int, mode: nat, size: int, name: string)
    requires '\n' !in name
    ensures '\n' !in TimeLine(mtime, atime)
    ensures '\n' !in FileLine(mode, size, name)
    ensures '\n' !in DirLine(mode, name)
  {
    NumbersAreSingle(mtime);
    NumbersAreSingle(atime);
    NumbersAreSingle(size);
    OctalPermsDigits(mode);
  }

  lemma NumbersAreSingle(n: int)
    ensures '\n' !in FormatInt(n)
  {
    TenDigitsPrinted(n);
    if n < 0 {
      assert AllDigits(Format(Decimal, -n));
    }
  }
}
