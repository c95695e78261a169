/**
 * Decimal integers as text: the `%d` conversion of `fscanf` (section
 * 7.21.6.2 of ISO C11), which reads the configuration file, and the `%d`
 * conversion of `sprintf`, which writes the lock file.
 */
module Decimal {

  /** `EOF` as the C library defines it on the target. */
  const EOF: int := -1

  predicate IsDigit(c: char) { '0' <= c <= '9' }

  /** The characters `isspace` accepts in the "C" locale: space, \t, \n, \v, \f, \r. */
  predicate IsSpace(c: char) { c == ' ' || 9 <= c as int <= 13 }

  predicate AllDigits(s: string) { forall i | 0 <= i < |s| :: IsDigit(s[i]) }

  function DigitValue(c: char): (d: nat)
    requires IsDigit(c)
    ensures d < 10
  {
    c as int - '0' as int
  }

  function DigitChar(d: nat): (c: char)
    requires d < 10
    ensures IsDigit(c) && DigitValue(c) == d
  {
    ('0' as int + d) as char
  }

  /** The value of a run of decimal digits, most significant first. */
  function DigitsValue(s: string): nat
    requires AllDigits(s)
  {
    if s == [] then 0 else DigitsValue(s[..|s| - 1]) * 10 + DigitValue(s[|s| - 1])
  }

  /** What `%d` prints for a non-negative value: no sign, no leading zero. */
  function FormatNat(n: nat): (s: string)
    ensures |s| >= 1 && AllDigits(s)
    ensures |s| > 1 ==> s[0] != '0'
  {
    if n < 10 then [DigitChar(n)] else FormatNat(n / 10) + [DigitChar(n % 10)]
  }

  /** What `%d` prints for any value: a minus sign before the magnitude of a negative value. */
  function FormatInt(i: int): (s: string)
    ensures |s| >= 1 && (s[0] == '-' || IsDigit(s[0]))
  {
    if i < 0 then "-" + FormatNat(-i) else FormatNat(i)
  }

  /** The input with its leading white space consumed. */
  function SkipSpace(s: string): (r: string)
    ensures r == [] || !IsSpace(r[0])
  {
    if s != [] && IsSpace(s[0]) then SkipSpace(s[1..]) else s
  }

  /** The longest prefix of the input made of decimal digits. */
  function LeadingDigits(s: string): (d: string)
    ensures AllDigits(d)
  {
    if s != [] && IsDigit(s[0]) then [s[0]] + LeadingDigits(s[1..]) else []
  }

  /** `LeadingDigits` is the longest run: a prefix of digits, after which comes no digit. */
  lemma {:induction false} LeadingDigitsLongest(s: string)
    ensures var d := LeadingDigits(s);
      |d| <= |s| && d == s[..|d|] && (|d| == |s| || !IsDigit(s[|d|]))
  {
    if s != [] && IsDigit(s[0]) {
      LeadingDigitsLongest(s[1..]);
    }
  }

  /** How one `%d` conversion of `fscanf` ends. */
  datatype ScanOutcome =
    | Converted(value: int)   // a matching sequence was read and stored
    | MatchingFailure         // characters were there, but no digits after the optional sign
    | InputFailure            // the input ended before anything but white space

  /**
   * `fscanf(f, "%d", &x)` on a file whose whole content is `input`: skip
   * white space, read an optional sign, then the longest run of digits.
   * Values are unbounded integers; see README for out-of-range input.
   */
  function ScanInt(input: string): (r: ScanOutcome)
    ensures input == [] ==> r == InputFailure
    ensures input != [] && IsDigit(input[0]) ==> r.Converted? && r.value >= 0
  {
    ScanItem(SkipSpace(input))
  }

  /** `%d` fails with `EOF` exactly when the input is nothing but white space. */
  lemma ScanIntInputFailure(input: string)
    ensures ScanInt(input).InputFailure? <==> forall i | 0 <= i < |input| :: IsSpace(input[i])
  {
    SkipSpaceEmpty(input);
  }

  /** White space is all that `%d` finds exactly when the input holds nothing else. */
  lemma {:induction false} SkipSpaceEmpty(s: string)
    ensures SkipSpace(s) == [] <==> forall i | 0 <= i < |s| :: IsSpace(s[i])
  {
    if s != [] && IsSpace(s[0]) {
      SkipSpaceEmpty(s[1..]);
      assert forall i | 1 <= i < |s| :: s[i] == s[1..][i - 1];
    }
  }

  /** The conversion proper, on the input left once white space is consumed. */
  function ScanItem(t: string): (r: ScanOutcome)
    ensures r.InputFailure? <==> t == []
  {
    if t == [] then InputFailure
    else
      var body := if t[0] == '-' || t[0] == '+' then t[1..] else t;
      var digits := LeadingDigits(body);
      if digits == [] then MatchingFailure
      else if t[0] == '-' then Converted(-(DigitsValue(digits) as int))
      else Converted(DigitsValue(digits))
  }

  /** The value `fscanf` returns: the number of items assigned, or `EOF`. */
  function ScanReturn(r: ScanOutcome): (n: int)
    ensures n > 0 <==> r.Converted?
  {
    match r
    case Converted(_) => 1
    case MatchingFailure => 0
    case InputFailure => EOF
  }

  /** The bytes written to the lock file: `sprintf(str, "%d\n", getpid())`. */
  function PidFileContent(pid: int): (s: string)
    ensures |s| >= 2 && s[|s| - 1] == '\n'
  {
    FormatInt(pid) + "\n"
  }

  /**
   * A file after `write` puts `bytes` at offset 0 without truncating it
   * first (the lock file is opened without `O_TRUNC`): the bytes written,
   * then whatever of the earlier content lies beyond them.
   */
  function WrittenOver(before: string, bytes: string): (f: string)
    ensures |f| == if |before| > |bytes| then |before| else |bytes|
    ensures f[..|bytes|] == bytes
    ensures |before| > |bytes| ==> f[|bytes|..] == before[|bytes|..]
  {
    if |before| <= |bytes| then bytes else bytes + before[|bytes|..]
  }

  lemma {:induction false} SkipSpaceOver(ws: string, x: string)
    requires forall c | c in ws :: IsSpace(c)
    requires x == [] || !IsSpace(x[0])
    ensures SkipSpace(ws + x) == x
  {
    if ws != [] {
      assert (ws + x)[1..] == ws[1..] + x;
      SkipSpaceOver(ws[1..], x);
    }
  }

  lemma {:induction false} LeadingDigitsOver(d: string, rest: string)
    requires AllDigits(d)
    requires rest == [] || !IsDigit(rest[0])
    ensures LeadingDigits(d + rest) == d
  {
    if d != [] {
      assert (d + rest)[1..] == d[1..] + rest;
      LeadingDigitsOver(d[1..], rest);
    } else {
      assert d + rest == rest;
    }
  }

  /** Reading back what `%d` printed gives the number printed. */
  lemma {:induction false} DigitsValueOfFormat(n: nat)
    ensures DigitsValue(FormatNat(n)) == n
  {
    if n >= 10 {
      var s := FormatNat(n);
      assert s[..|s| - 1] == FormatNat(n / 10);
      DigitsValueOfFormat(n / 10);
    }
  }

  /** Leading white space does not change what `%d` reads. */
  lemma ScanAfterSpace(ws: string, t: string)
    requires forall c | c in ws :: IsSpace(c)
    requires t == [] || !IsSpace(t[0])
    ensures ScanInt(ws + t) == ScanInt(t)
  {
    SkipSpaceOver(ws, t);
    SkipSpaceOver([], t);
    assert [] + t == t;
    assert SkipSpace(ws + t) == SkipSpace(t);
  }

  /** The digits `%d` prints for `m`, followed by anything but a digit, read back as `m`. */
  lemma ScanDigits(m: nat, rest: string)
    requires rest == [] || !IsDigit(rest[0])
    ensures LeadingDigits(FormatNat(m) + rest) == FormatNat(m)
    ensures DigitsValue(FormatNat(m)) == m
  {
    LeadingDigitsOver(FormatNat(m), rest);
    DigitsValueOfFormat(m);
  }

  /** The text `%d` prints for `n`, followed by anything but a digit, scans back to `n`. */
  lemma ScanFormat(n: int, rest: string)
    requires rest == [] || !IsDigit(rest[0])
    ensures ScanInt(FormatInt(n) + rest) == Converted(n)
  {
    var text := FormatInt(n) + rest;
    assert SkipSpace(text) == text;
    ItemFormat(n, rest);
  }

  /** The conversion proper, on the text `%d` prints for `n` followed by a non-digit. */
  lemma ItemFormat(n: int, rest: string)
    requires rest == [] || !IsDigit(rest[0])
    ensures ScanItem(FormatInt(n) + rest) == Converted(n)
  {
    if n < 0 {
      ItemNegative(-n, rest);
      assert FormatInt(n) + rest == "-" + (FormatNat(-n) + rest);
    } else {
      ItemNonNegative(n, rest);
    }
  }

  /** The digits of a non-negative value convert back to it. */
  lemma ItemNonNegative(m: nat, rest: string)
    requires rest == [] || !IsDigit(rest[0])
    ensures ScanItem(FormatNat(m) + rest) == Converted(m)
  {
    var text := FormatNat(m) + rest;
    assert IsDigit(text[0]);
    ScanDigits(m, rest);
  }

  /** A minus sign and the digits of `m` convert back to `-m`. */
  lemma ItemNegative(m: nat, rest: string)
    requires rest == [] || !IsDigit(rest[0])
    ensures ScanItem("-" + (FormatNat(m) + rest)) == Converted(-(m as int))
  {
    var text := "-" + (FormatNat(m) + rest);
    assert text[0] == '-' && text[1..] == FormatNat(m) + rest;
    ScanDigits(m, rest);
  }

  /**
   * Round trip: after any white space, the text `%d` prints for `n`,
   * followed by anything that is not a digit, scans back to `n`.
   */
  lemma ScanFormatted(ws: string, n: int, rest: string)
    requires forall c | c in ws :: IsSpace(c)
    requires rest == [] || !IsDigit(rest[0])
    ensures ScanInt(ws + FormatInt(n) + rest) == Converted(n)
  {
    assert ws + FormatInt(n) + rest == ws + (FormatInt(n) + rest);
    ScanAfterSpace(ws, FormatInt(n) + rest);
    ScanFormat(n, rest);
  }

  /** The bytes written, read back on their own with `%d`, yield the pid. */
  lemma PidFileRoundTrip(pid: int)
    ensures ScanInt(PidFileContent(pid)) == Converted(pid)
    ensures ScanReturn(ScanInt(PidFileContent(pid))) == 1
  {
    ScanFormatted([], pid, "\n");
    assert [] + FormatInt(pid) + "\n" == PidFileContent(pid);
  }

  /** Whatever follows the bytes written, `%d` still reads the pid: the newline ends the number. */
  lemma PidFileReadBack(pid: int, tail: string)
    ensures ScanInt(PidFileContent(pid) + tail) == Converted(pid)
  {
    assert PidFileContent(pid) + tail == FormatInt(pid) + ("\n" + tail);
    ScanFormat(pid, "\n" + tail);
  }

  /** The lock file after the pid is written over any earlier content reads back as the pid. */
  lemma LockFileReadBack(before: string, pid: int)
    ensures ScanInt(WrittenOver(before, PidFileContent(pid))) == Converted(pid)
  {
    var bytes := PidFileContent(pid);
    var f := WrittenOver(before, bytes);
    assert f == bytes + f[|bytes|..];
    PidFileReadBack(pid, f[|bytes|..]);
  }

  /** A longer stale file keeps its tail: "12345\n" overwritten with pid 987 holds "987\n5\n". */
  lemma StaleTailKept()
    ensures WrittenOver("12345\n", PidFileContent(987)) == "987\n5\n"
  {
    assert FormatNat(987) == "987";
  }

  /** Zero, negative values and trailing junk are all accepted by `%d`. */
  lemma ScanAccepts()
    ensures ScanInt("5") == Converted(5)
    ensures ScanInt("0") == Converted(0)
    ensures ScanInt(" -3\n") == Converted(-3)
    ensures ScanInt("5abc") == Converted(5)
  {
    assert FormatInt(5) == "5";
    assert FormatInt(0) == "0";
    assert FormatInt(-3) == "-3";
    ScanFormatted([], 5, []);
    assert [] + "5" + [] == "5";
    ScanFormatted([], 0, []);
    assert [] + "0" + [] == "0";
    ScanFormatted(" ", -3, "\n");
    assert " " + "-3" + "\n" == " -3\n";
    ScanFormatted([], 5, "abc");
    assert [] + "5" + "abc" == "5abc";
  }

  /** Text without digits is refused; white space alone is an input failure. */
  lemma ScanRefuses()
    ensures ScanInt("abc") == MatchingFailure
    ensures ScanInt("-") == MatchingFailure
    ensures ScanInt(" \n") == InputFailure
  {
    assert SkipSpace("abc") == "abc";
    assert LeadingDigits("abc") == [];
    assert SkipSpace("-") == "-";
    assert LeadingDigits("-"[1..]) == [];
    assert SkipSpace(" \n") == SkipSpace("\n") == SkipSpace([]);
  }
}
