/** The text the script prints around a paper: the box drawn around the
    category name (`boxed`, arxivnews.py:59-65) and the date line of
    `Paper.display` (arxivnews.py:48). Each function returns the strings
    the `print` calls would write, one string per call, without the
    newline `print` adds. */
module Layout {
  import opened PyStrings

  /** `boxed(title)`: a frame of `*` and `-` around `|   title   |`. */
  function Boxed(title: string): (lines: seq<string>)
    ensures |lines| == 3
    ensures forall k :: 0 <= k < 3 ==> |lines[k]| == |title| + 8
    ensures lines[0] == lines[2]
    ensures lines[1] == "|   " + title + "   |"
    ensures lines[0][0] == '*' && lines[0][|title| + 7] == '*'
    ensures forall k :: 1 <= k < |title| + 7 ==> lines[0][k] == '-'
  {
    var edge := "*" + Repeat('-', 6 + |title|) + "*";
    [edge, "|   " + title + "   |", edge]
  }

  /** The title is recovered from the middle line by dropping the four
      border characters on each side, so the box never alters the name. */
  lemma BoxedKeepsTitle(title: string)
    ensures var middle := Boxed(title)[1]; middle[4..|middle| - 4] == title
  {
    var middle := Boxed(title)[1];
    assert middle == "|   " + title + "   |";
    assert middle[4..|middle| - 4] == title;
  }

  /** Two boxes look alike only when they frame the same title. */
  lemma BoxedInjective(a: string, b: string)
    requires Boxed(a) == Boxed(b)
    ensures a == b
  {
    BoxedKeepsTitle(a);
    BoxedKeepsTitle(b);
  }

  /** `10 ^ k`. */
  function Pow10(k: nat): (p: nat)
    ensures p >= 1
  {
    if k == 0 then 1 else 10 * Pow10(k - 1)
  }

  /** A number below `10 ^ k` has at most `k` digits. */
  lemma {:induction false} DecimalWidth(n: nat, k: nat)
    requires 1 <= k && n < Pow10(k)
    ensures |Decimal(n)| <= k
  {
    if n >= 10 {
      assert k >= 2;
      DecimalWidth(n / 10, k - 1);
    }
  }

  /** A number of at least `10 ^ (k - 1)` has at least `k` digits. */
  lemma {:induction false} DecimalWidthAtLeast(n: nat, k: nat)
    requires 1 <= k && Pow10(k - 1) <= n
    ensures k <= |Decimal(n)|
  {
    if k > 1 {
      assert n / 10 >= Pow10(k - 2);
      DecimalWidthAtLeast(n / 10, k - 1);
    }
  }

  /** The date part of `"\t%4d-%02d-%02d" % date`: at least ten
      characters, and exactly `YYYY-MM-DD` with its dashes at 4 and 7 for a
      year below 10000 and a month and day below 100. */
  function DateText(year: int, month: int, day: int): (r: string)
    ensures |r| >= 10
    ensures 0 <= year < 10000 && 0 <= month < 100 && 0 <= day < 100 ==>
              |r| == 10 && r[4] == '-' && r[7] == '-'
  {
    var y, m, d := FormatInt(year, 4, false), FormatInt(month, 2, true), FormatInt(day, 2, true);
    // Both branches give the same text; the first only calls the field
    // lemmas, whose preconditions hold there.
    if 0 <= year < 10000 && 0 <= month < 100 && 0 <= day < 100 then
      YearField(year);
      TwoDigitField(month);
      TwoDigitField(day);
      DashedPieces(y, m, d);
      y + "-" + m + "-" + d
    else
      y + "-" + m + "-" + d
  }

  /** A two-digit field (`%02d`) of a number below 100. */
  lemma TwoDigitField(n: nat)
    requires n < 100
    ensures |FormatInt(n, 2, true)| == 2
    ensures AllDigits(FormatInt(n, 2, true)) && ParseDecimal(FormatInt(n, 2, true)) == n
  {
    assert Pow10(2) == 100;
    DecimalWidth(n, 2);
    FormatIntNonNegative(n, 2);
  }

  /** The year field (`%4d`) of a number below 10000. */
  lemma YearField(n: nat)
    requires n < 10000
    ensures |Decimal(n)| <= 4
    ensures FormatInt(n, 4, false) == Repeat(' ', 4 - |Decimal(n)|) + Decimal(n)
    ensures |FormatInt(n, 4, false)| == 4
    ensures 1000 <= n ==> FormatInt(n, 4, false) == Decimal(n) &&
                          AllDigits(Decimal(n)) && ParseDecimal(Decimal(n)) == n
  {
    var d := Decimal(n);
    assert Pow10(4) == 10000 && Pow10(3) == 1000;
    DecimalWidth(n, 4);
    FormatIntNonNegativeText(n, 4);
    var text := Repeat(' ', 4 - |d|) + d;
    assert FormatInt(n, 4, false) == text;
    if 1000 <= n {
      DecimalWidthAtLeast(n, 4);
      assert text == [] + d;
      ParseDecimalRoundTrip(n);
    }
  }

  /** Where the pieces of `y-m-d` sit when the fields are 4, 2 and 2 wide. */
  lemma DashedPieces(y: string, m: string, d: string)
    requires |y| == 4 && |m| == 2 && |d| == 2
    ensures var r := y + "-" + m + "-" + d;
            |r| == 10 && r[4] == '-' && r[7] == '-' && r[..4] == y && r[5..7] == m && r[8..] == d
  {
    var r := y + "-" + m + "-" + d;
    assert r[..4] == y && r[5..7] == m && r[8..] == d;
  }

  /** For a calendar date with a year of at most four digits the text is
      exactly ten characters, `YYYY-MM-DD`, the year right-aligned in its
      four columns, and each field reads back as the number it shows. */
  lemma DateTextLayout(year: int, month: int, day: int)
    requires 0 <= year < 10000 && 0 <= month < 100 && 0 <= day < 100
    ensures var r := DateText(year, month, day);
            |r| == 10 && r[4] == '-' && r[7] == '-' && |Decimal(year)| <= 4 &&
            r[..4] == Repeat(' ', 4 - |Decimal(year)|) + Decimal(year) &&
            AllDigits(r[5..7]) && ParseDecimal(r[5..7]) == month &&
            AllDigits(r[8..]) && ParseDecimal(r[8..]) == day
    ensures 1000 <= year ==> AllDigits(DateText(year, month, day)[..4]) &&
                             ParseDecimal(DateText(year, month, day)[..4]) == year
  {
    YearField(year);
    TwoDigitField(month);
    TwoDigitField(day);
    DashedPieces(FormatInt(year, 4, false), FormatInt(month, 2, true), FormatInt(day, 2, true));
  }
}
