/** Dates as text: the layout the dashboard parses and prints. */
module DateText {
  import opened Text
  import opened Calendar

  predicate IsDigit(c: char) {
    '0' <= c <= '9'
  }

  function Digit(n: int): char
    requires 0 <= n <= 9
  {
    ('0' as int + n) as char
  }

  function DigitValue(c: char): int
    requires IsDigit(c)
  {
    c as int - '0' as int
  }

  function Decimal(n: nat): (s: string)
    ensures s != "" && forall i | 0 <= i < |s| :: IsDigit(s[i])
  {
    if n < 10 then [Digit(n)] else Decimal(n / 10) + [Digit(n % 10)]
  }

  /** A number in at least `width` digits, padded with zeros on the left. */
  function Padded(n: nat, width: nat): string {
    var s := Decimal(n);
    if |s| >= width then s else seq(width - |s|, i => '0') + s
  }

  function FormatDate(d: Date): string
    requires ValidDate(d)
  {
    (if d.year >= 0 then Padded(d.year, 4) else "-" + Padded(-d.year, 4))
    + "-" + Padded(d.month, 2) + "-" + Padded(d.day, 2)
  }

  function Value(s: string): nat
    requires forall i | 0 <= i < |s| :: IsDigit(s[i])
  {
    if s == "" then 0 else 10 * Value(s[..|s| - 1]) + DigitValue(s[|s| - 1])
  }

  predicate Digits(s: string, from: nat, to: nat)
    requires from <= to <= |s|
  {
    forall i | from <= i < to :: IsDigit(s[i])
  }

  /** time.Parse with the layout 2006-01-02. */
  function ParseDate(s: string): Option<Date> {
    if |s| == 10 && s[4] == '-' && s[7] == '-' && Digits(s, 0, 4) && Digits(s, 5, 7) && Digits(s, 8, 10)
    then var d := Date(Value(s[..4]), Value(s[5..7]), Value(s[8..]));
         if ValidDate(d) then Some(d) else None
    else None
  }

  lemma {:induction false} DecimalValue(n: nat)
    ensures Value(Decimal(n)) == n
  {
    if n >= 10 {
      DecimalValue(n / 10);
      assert Decimal(n)[..|Decimal(n)| - 1] == Decimal(n / 10);
    }
  }

  lemma {:induction false} ValueOfZeros(k: nat, s: string)
    requires forall i | 0 <= i < |s| :: IsDigit(s[i])
    ensures Value(seq(k, i => '0') + s) == Value(s)
  {
    var z := seq(k, i => '0');
    if s != "" {
      ValueOfZeros(k, s[..|s| - 1]);
      assert (z + s)[..|z + s| - 1] == z + s[..|s| - 1];
    } else if k > 0 {
      ValueOfZeros(k - 1, "");
      assert (z + s)[..k - 1] == seq(k - 1, i => '0') + "";
    } else {
      assert z + s == s;
    }
  }

  lemma {:induction false} DecimalLength(n: nat, width: nat, bound: nat)
    requires width > 0 && bound == Power10(width)
    ensures |Decimal(n)| <= width <==> n < bound
  {
    if n < 10 {
      Power10Grows(width);
    } else {
      assert |Decimal(n)| == |Decimal(n / 10)| + 1;
      if width > 1 { DecimalLength(n / 10, width - 1, Power10(width - 1)); }
    }
  }

  lemma {:induction false} Power10Grows(n: nat)
    requires n > 0
    ensures Power10(n) >= 10
  {
    if n > 1 { Power10Grows(n - 1); }
  }

  function Power10(n: nat): nat {
    if n == 0 then 1 else 10 * Power10(n - 1)
  }

  lemma PaddedFacts(n: nat, width: nat, bound: nat)
    requires width > 0 && bound == Power10(width)
    ensures forall i | 0 <= i < |Padded(n, width)| :: IsDigit(Padded(n, width)[i])
    ensures Value(Padded(n, width)) == n
    ensures |Padded(n, width)| == width <==> n < bound
    ensures |Padded(n, width)| >= width
  {
    DecimalValue(n);
    DecimalLength(n, width, bound);
    if |Decimal(n)| < width { ValueOfZeros(width - |Decimal(n)|, Decimal(n)); }
  }

  /** Year, month and day in this order, in four, two and two digits with dashes between. */
  lemma FormatShape(d: Date)
    requires ValidDate(d) && 0 <= d.year <= 9999
    ensures var s := FormatDate(d);
            |s| == 10 && s[4] == '-' && s[7] == '-' && Digits(s, 0, 4) && Digits(s, 5, 7) && Digits(s, 8, 10)
            && Value(s[..4]) == d.year && Value(s[5..7]) == d.month && Value(s[8..]) == d.day
  {
    assert Power10(4) == 10000 && Power10(2) == 100;
    PaddedFacts(d.year, 4, 10000);
    PaddedFacts(d.month, 2, 100);
    PaddedFacts(d.day, 2, 100);
    var s := FormatDate(d);
    assert s[..4] == Padded(d.year, 4) && s[5..7] == Padded(d.month, 2) && s[8..] == Padded(d.day, 2);
  }

  /** Printing a date and parsing it back succeeds exactly for years of four digits. */
  lemma FormatThenParse(d: Date)
    requires ValidDate(d)
    ensures ParseDate(FormatDate(d)) == Some(d) <==> 0 <= d.year <= 9999
    ensures !(0 <= d.year <= 9999) ==> ParseDate(FormatDate(d)).None?
  {
    assert Power10(4) == 10000 && Power10(2) == 100;
    PaddedFacts(d.month, 2, 100);
    PaddedFacts(d.day, 2, 100);
    PaddedFacts(if d.year >= 0 then d.year else -d.year, 4, 10000);
    var s := FormatDate(d);
    if 0 <= d.year <= 9999 {
      assert s[..4] == Padded(d.year, 4) && s[5..7] == Padded(d.month, 2) && s[8..] == Padded(d.day, 2);
    }
  }

  lemma {:induction false} ValuePinsDigits(a: string, b: string)
    requires |a| == |b| && (forall i | 0 <= i < |a| :: IsDigit(a[i])) && (forall i | 0 <= i < |b| :: IsDigit(b[i]))
    requires Value(a) == Value(b)
    ensures a == b
  {
    if a != "" {
      var a', b' := a[..|a| - 1], b[..|b| - 1];
      assert Value(a) == 10 * Value(a') + (a[|a| - 1] as int - '0' as int);
      assert Value(b) == 10 * Value(b') + (b[|b| - 1] as int - '0' as int);
      ValuePinsDigits(a', b');
      assert a == a' + [a[|a| - 1]] && b == b' + [b[|b| - 1]];
    }
  }

  /** A text that parses is the printed form of its date. */
  lemma ParseThenFormat(s: string)
    requires ParseDate(s).Some?
    ensures FormatDate(ParseDate(s).value) == s && 0 <= ParseDate(s).value.year <= 9999
  {
    var d := ParseDate(s).value;
    ValueBelow(s[..4], 4);
    assert Power10(4) == 10000 && Power10(2) == 100;
    PaddedFacts(d.month, 2, 100);
    PaddedFacts(d.day, 2, 100);
    PaddedFacts(d.year, 4, 10000);
    ValuePinsDigits(s[..4], Padded(d.year, 4));
    ValuePinsDigits(s[5..7], Padded(d.month, 2));
    ValuePinsDigits(s[8..], Padded(d.day, 2));
    assert s == s[..4] + "-" + s[5..7] + "-" + s[8..];
  }

  lemma {:induction false} ValueBelow(s: string, width: nat)
    requires |s| == width && forall i | 0 <= i < |s| :: IsDigit(s[i])
    ensures Value(s) < Power10(width)
  {
    if s != "" { ValueBelow(s[..|s| - 1], width - 1); }
  }

  /** Days of one month have different texts, whatever the year. */
  lemma DayTextsDiffer(a: Date, b: Date)
    requires ValidDate(a) && ValidDate(b) && a.year == b.year && a.month == b.month
    requires FormatDate(a) == FormatDate(b)
    ensures a == b
  {
    assert Power10(2) == 100;
    PaddedFacts(a.day, 2, 100);
    PaddedFacts(b.day, 2, 100);
    var head := (if a.year >= 0 then Padded(a.year, 4) else "-" + Padded(-a.year, 4)) + "-" + Padded(a.month, 2) + "-";
    assert FormatDate(a) == head + Padded(a.day, 2) && FormatDate(b) == head + Padded(b.day, 2);
    assert (head + Padded(a.day, 2))[|head|..] == Padded(a.day, 2) && (head + Padded(b.day, 2))[|head|..] == Padded(b.day, 2);
  }
}
