/** Decimal numbers as text: printing, strconv.ParseUint and fmt's %d. */
module Decimal {
  import opened GoNumbers
  import opened Strings
  import opened Wrappers

  predicate IsDigit(c: char) {
    '0' <= c <= '9'
  }

  predicate AllDigits(s: string) {
    forall c :: c in s ==> IsDigit(c)
  }

  function DigitValue(c: char): nat
    requires IsDigit(c)
  {
    (c as int) - ('0' as int)
  }

  function Digit(d: nat): (c: char)
    requires d < 10
    ensures IsDigit(c) && DigitValue(c) == d
  {
    "0123456789"[d]
  }

  function ValueOf(s: string): nat
    requires AllDigits(s)
  {
    if s == "" then 0
    else (assert s[|s| - 1] in s; 10 * ValueOf(s[..|s| - 1]) + DigitValue(s[|s| - 1]))
  }

  function PrintNat(n: nat): (s: string)
    ensures s != "" && AllDigits(s)
  {
    if n < 10 then [Digit(n)] else PrintNat(n / 10) + [Digit(n % 10)]
  }

  function PrintInt(n: int): string {
    if n < 0 then "-" + PrintNat(-n) else PrintNat(n)
  }

  lemma {:induction false} ValueOfPrinted(n: nat)
    ensures ValueOf(PrintNat(n)) == n
  {
    var s := PrintNat(n);
    if n < 10 {
      assert s[..0] == "" && ValueOf("") == 0;
    } else {
      ValueOfPrinted(n / 10);
      assert s[..|s| - 1] == PrintNat(n / 10) && s[|s| - 1] == Digit(n % 10);
    }
  }

  /** strconv.ParseUint(s, 10, 64). */
  function ParseUint(s: string): Result<uint64> {
    if s == "" || !AllDigits(s) then Err("invalid syntax")
    else if ValueOf(s) >= TWO_64 then Err("value out of range")
    else Ok(ValueOf(s))
  }

  function TakeDigits(s: string): (d: string)
    ensures AllDigits(d) && d <= s
  {
    if s != "" && IsDigit(s[0]) then [s[0]] + TakeDigits(s[1..]) else ""
  }

  lemma {:induction false} TakeDigitsOf(d: string, t: string)
    requires AllDigits(d) && (t == "" || !IsDigit(t[0]))
    ensures TakeDigits(d + t) == d
  {
    if d == "" {
      assert d + t == t;
    } else {
      assert d[0] in d;
      assert (d + t)[1..] == d[1..] + t;
      TakeDigitsOf(d[1..], t);
      assert d == [d[0]] + d[1..];
    }
  }

  datatype ScannedInt = ScannedInt(value: int64, rest: string)

  /** Where a %d starts reading: after spaces; Sscanf does not let it pass a newline. */
  function SkipSpace(s: string): Result<string> {
    if s == "" then Ok(s)
    else if s[0] == '\n' then Err("unexpected newline")
    else if IsSpace(s[0]) then SkipSpace(s[1..])
    else Ok(s)
  }

  /** fmt's %d: an optional sign and as many digits as there are. */
  function ScanInt(s: string): Result<ScannedInt> {
    var start := SkipSpace(s);
    if start.Err? then Err(start.message)
    else
      var t := start.value;
      var signed := t != "" && (t[0] == '-' || t[0] == '+');
      var digits := TakeDigits(if signed then t[1..] else t);
      if digits == "" then Err("expected integer")
      else
        var value := if signed && t[0] == '-' then -(ValueOf(digits) as int) else ValueOf(digits);
        if value < -TWO_63 || value >= TWO_63 then Err("value out of range")
        else Ok(ScannedInt(value, t[|digits| + (if signed then 1 else 0)..]))
  }

  lemma PrintedStart(n: int)
    ensures PrintInt(n) != "" && !IsSpace(PrintInt(n)[0]) && PrintInt(n)[0] != '+'
    ensures NoSpace(PrintInt(n))
  {
    var d := PrintNat(if n < 0 then -n else n);
    assert d[0] in d;
    forall c | c in PrintInt(n)
      ensures !IsSpace(c)
    {
      assert c == '-' || c in d;
    }
  }

  lemma NothingToSkip(s: string)
    requires s != "" && !IsSpace(s[0])
    ensures SkipSpace(s) == Ok(s)
  {
  }

  lemma ScanDigits(d: string, t: string)
    requires d != "" && AllDigits(d) && ValueOf(d) < TWO_63 && (t == "" || !IsDigit(t[0]))
    ensures ScanInt(d + t) == Ok(ScannedInt(ValueOf(d), t))
    ensures ScanInt("-" + d + t) == Ok(ScannedInt(-(ValueOf(d) as int), t))
  {
    hide TakeDigits;
    hide ValueOf;
    hide SkipSpace;
    TakeDigitsOf(d, t);
    assert d[0] in d && (d + t)[0] == d[0];
    NothingToSkip(d + t);
    NothingToSkip("-" + d + t);
    assert (d + t)[|d|..] == t;
    assert ("-" + d + t)[1..] == d + t;
    assert ("-" + d + t)[|d| + 1..] == t;
  }

  lemma ScanPlus(d: string, t: string)
    requires d != "" && AllDigits(d) && ValueOf(d) < TWO_63 && (t == "" || !IsDigit(t[0]))
    ensures ScanInt("+" + d + t) == Ok(ScannedInt(ValueOf(d), t))
  {
    hide TakeDigits;
    hide ValueOf;
    hide SkipSpace;
    TakeDigitsOf(d, t);
    NothingToSkip("+" + d + t);
    assert ("+" + d + t)[1..] == d + t;
    assert ("+" + d + t)[|d| + 1..] == t;
  }

  /** A number does not continue on the next line. */
  lemma NewlineStops(s: string)
    ensures ScanInt("\n" + s).Err?
  {
  }

  /** A printed number scans back, and scanning stops where it ends. */
  lemma ScanPrinted(n: int, t: string)
    requires -TWO_63 < n < TWO_63 && (t == "" || !IsDigit(t[0]))
    ensures ScanInt(PrintInt(n) + t) == Ok(ScannedInt(n, t))
  {
    hide ScanInt;
    var d := PrintNat(if n < 0 then -n else n);
    ValueOfPrinted(if n < 0 then -n else n);
    ScanDigits(d, t);
  }
}
