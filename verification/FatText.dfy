/**
 The text formats of the saved state: what fprintf writes for %s and %d, and what fscanf and fgets read.
 */
module FatText {
  import opened FatSpec

  // ---------- printing ----------

  predicate IsDigit(c: char)
  {
    '0' <= c <= '9'
  }

  function Digit(d: nat): (c: char)
    requires d < 10
    ensures IsDigit(c)
  {
    ('0' as int + d) as char
  }

  function PrintNat(n: nat): (s: string)
    ensures s != "" && forall i :: 0 <= i < |s| ==> IsDigit(s[i])
  {
    if n < 10 then [Digit(n)] else PrintNat(n / 10) + [Digit(n % 10)]
  }

  /** `%d`. */
  function PrintInt(n: int): (s: string)
  {
    if n < 0 then "-" + PrintNat(-n) else PrintNat(n)
  }

  // ---------- scanning ----------

  function SkipSpace(s: string): (r: string)
    ensures r == "" || !IsSpace(r[0])
  {
    if s == "" || !IsSpace(s[0]) then s else SkipSpace(s[1..])
  }

  function TakeWord(s: string): (w: string)
    ensures |w| <= |s|
  {
    if s == "" || IsSpace(s[0]) then "" else [s[0]] + TakeWord(s[1..])
  }

  function TakeDigits(s: string): (w: string)
    ensures |w| <= |s| && forall i :: 0 <= i < |w| ==> IsDigit(w[i])
  {
    if s == "" || !IsDigit(s[0]) then "" else [s[0]] + TakeDigits(s[1..])
  }

  function DigitValue(c: char): (d: nat)
    requires IsDigit(c)
  {
    c as int - '0' as int
  }

  function Value(digits: string): (n: nat)
    requires forall i :: 0 <= i < |digits| ==> IsDigit(digits[i])
  {
    if digits == "" then 0 else
      10 * Value(digits[..|digits| - 1]) + DigitValue(digits[|digits| - 1])
  }

  /** `%s`: the next word and what follows it; an empty word means the end of the file. */
  function ScanWord(s: string): (r: (string, string))
  {
    var t := SkipSpace(s);
    var w := TakeWord(t);
    (w, t[|w|..])
  }

  datatype IntScan = EndOfFile | Mismatch(rest: string) | Got(value: int, rest: string)

  function ScanNumber(t: string): (r: IntScan)
    requires t != ""
  {
    var u := if t[0] == '-' || t[0] == '+' then t[1..] else t;
    var digits := TakeDigits(u);
    if digits == "" then Mismatch(t) else
    var v: int := Value(digits);
    Got(if t[0] == '-' then -v else v, u[|digits|..])
  }

  /** `%d`. */
  function ScanInt(s: string): (r: IntScan)
  {
    var t := SkipSpace(s);
    if t == "" then EndOfFile else ScanNumber(t)
  }

  /** `fgets` with room for `n` characters: up to and including the next line break. */
  function GetLine(s: string, n: nat): (line: string)
    ensures |line| <= |s| && |line| <= n
    decreases s
  {
    if s == "" || n == 0 then "" else
    if s[0] == '\n' then [s[0]] else [s[0]] + GetLine(s[1..], n - 1)
  }

  // ---------- what is printed can be scanned ----------

  ghost predicate AllSpace(s: string)
  {
    forall i :: 0 <= i < |s| ==> IsSpace(s[i])
  }

  lemma {:induction false} SkipSpaces(pre: string, s: string)
    requires AllSpace(pre) && (s == "" || !IsSpace(s[0]))
    ensures SkipSpace(pre + s) == s
  {
    if pre == "" {
      assert pre + s == s;
    } else {
      assert (pre + s)[1..] == pre[1..] + s;
      SkipSpaces(pre[1..], s);
    }
  }

  lemma {:induction false} TakesWord(w: string, rest: string)
    requires (forall i :: 0 <= i < |w| ==> !IsSpace(w[i])) && (rest == "" || IsSpace(rest[0]))
    ensures TakeWord(w + rest) == w
  {
    if w == "" {
      assert w + rest == rest;
    } else {
      assert (w + rest)[1..] == w[1..] + rest;
      TakesWord(w[1..], rest);
    }
  }

  lemma {:induction false} TakesDigits(w: string, rest: string)
    requires (forall i :: 0 <= i < |w| ==> IsDigit(w[i])) && (rest == "" || !IsDigit(rest[0]))
    ensures TakeDigits(w + rest) == w
  {
    if w == "" {
      assert w + rest == rest;
    } else {
      assert (w + rest)[1..] == w[1..] + rest;
      TakesDigits(w[1..], rest);
    }
  }

  lemma {:induction false} ValueOfPrinted(n: nat)
    ensures Value(PrintNat(n)) == n
  {
    if n >= 10 {
      ValueOfPrinted(n / 10);
      assert PrintNat(n)[..|PrintNat(n)| - 1] == PrintNat(n / 10);
    } else {
      assert Value([Digit(n)][..0]) == 0;
    }
  }

  /** A word between blanks is read back. */
  lemma WordScans(pre: string, w: string, rest: string)
    requires AllSpace(pre) && Word(w) && (rest == "" || IsSpace(rest[0]))
    ensures ScanWord(pre + w + rest) == (w, rest)
  {
    assert pre + w + rest == pre + (w + rest);
    SkipSpaces(pre, w + rest);
    TakesWord(w, rest);
  }

  lemma DigitFacts(c: char)
    requires IsDigit(c)
    ensures c != '-' && c != '+' && !IsSpace(c)
  {
  }

  ghost predicate Digits(s: string)
  {
    s != "" && forall i :: 0 <= i < |s| ==> IsDigit(s[i])
  }

  lemma DigitsTaken(digits: string, rest: string)
    requires Digits(digits) && (rest == "" || IsSpace(rest[0]))
    ensures TakeDigits(digits + rest) == digits && (digits + rest)[|digits|..] == rest
    ensures digits[0] != '-' && digits[0] != '+'
  {
    DigitFacts(digits[0]);
    TakesDigits(digits, rest);
  }

  lemma PositiveScans(digits: string, rest: string)
    requires Digits(digits) && (rest == "" || IsSpace(rest[0]))
    ensures ScanNumber(digits + rest) == Got(Value(digits), rest)
  {
    hide TakeDigits, Value, IsDigit, IsSpace;
    DigitsTaken(digits, rest);
    assert (digits + rest)[0] == digits[0];
  }

  lemma NegativeScans(digits: string, rest: string)
    requires Digits(digits) && (rest == "" || IsSpace(rest[0]))
    ensures ScanNumber("-" + digits + rest) == Got(-(Value(digits) as int), rest)
  {
    hide TakeDigits, Value, IsDigit, IsSpace;
    DigitsTaken(digits, rest);
    var t := "-" + digits + rest;
    assert t[0] == '-' && t[1..] == digits + rest;
  }

  lemma NumberScans(n: int, rest: string)
    requires rest == "" || IsSpace(rest[0])
    ensures PrintInt(n) != "" && !IsSpace(PrintInt(n)[0])
    ensures ScanNumber(PrintInt(n) + rest) == Got(n, rest)
  {
    hide ScanNumber, Value, PrintNat;
    var digits := PrintNat(if n < 0 then -n else n);
    ValueOfPrinted(if n < 0 then -n else n);
    DigitFacts(digits[0]);
    if n < 0 {
      NegativeScans(digits, rest);
    } else {
      PositiveScans(digits, rest);
    }
  }

  /** A printed number between blanks is read back. */
  lemma IntScans(pre: string, n: int, rest: string)
    requires AllSpace(pre) && (rest == "" || IsSpace(rest[0]))
    ensures ScanInt(pre + PrintInt(n) + rest) == Got(n, rest)
  {
    NumberScans(n, rest);
    hide PrintInt, SkipSpace, ScanNumber;
    var t := PrintInt(n) + rest;
    assert pre + PrintInt(n) + rest == pre + t;
    SkipSpaces(pre, t);
  }

  /** A line of at most `n - 1` characters without a line break is read back whole. */
  lemma {:induction false} LineGets(line: string, rest: string, n: nat)
    requires '\n' !in line && |line| < n
    ensures GetLine(line + "\n" + rest, n) == line + "\n"
  {
    var s := line + "\n" + rest;
    if line == "" {
      assert s[0] == '\n';
    } else {
      assert s[1..] == line[1..] + "\n" + rest;
      LineGets(line[1..], rest, n - 1);
    }
  }
}
