/** The handful of Python string operations the script relies on: `*` on a
    one-character string, `sep.join`, `rfind`, `strip()`, `rstrip(',')` and
    decimal `%d` / `format` rendering of ints. Python strings are sequences
    of code points, as Dafny's `string` is. */
module PyStrings {

  /** `c * n` for a one-character string `c`. */
  function Repeat(c: char, n: nat): (r: string)
    ensures |r| == n
    ensures forall k :: 0 <= k < n ==> r[k] == c
  {
    if n == 0 then "" else Repeat(c, n - 1) + [c]
  }

  /** `sep.join(parts)`. */
  function Join(sep: string, parts: seq<string>): (r: string)
    decreases |parts|
  {
    if |parts| == 0 then ""
    else if |parts| == 1 then parts[0]
    else Join(sep, parts[..|parts| - 1]) + sep + parts[|parts| - 1]
  }

  /** Splitting on a single character, the inverse of `Join([c], _)` on
      pieces free of `c` (Python's `s.split(c)`). */
  function SplitOn(s: string, c: char): (r: seq<string>)
    ensures |r| >= 1
    ensures forall k :: 0 <= k < |r| ==> c !in r[k]
    decreases |s|
  {
    var i := RFind(s, c);
    if i < 0 then [s] else SplitOn(s[..i], c) + [s[i + 1..]]
  }

  lemma {:induction false} SplitJoin(parts: seq<string>, c: char)
    requires |parts| >= 1
    requires forall k :: 0 <= k < |parts| ==> c !in parts[k]
    ensures SplitOn(Join([c], parts), c) == parts
    decreases |parts|
  {
    var s := Join([c], parts);
    var last := parts[|parts| - 1];
    if |parts| == 1 {
      assert RFind(s, c) == -1;
    } else {
      var front := Join([c], parts[..|parts| - 1]);
      assert s == front + [c] + last;
      SplitAtLast(front, c, last);
      assert s[..|front|] == front && s[|front| + 1..] == last;
      SplitJoin(parts[..|parts| - 1], c);
      assert parts == parts[..|parts| - 1] + [last];
    }
  }

  /** The pieces of `", ".join(parts)` as a split on `,` sees them: the
      first part, then every later part behind its space. */
  function Spaced(parts: seq<string>): (r: seq<string>)
    ensures |r| == |parts|
  {
    seq(|parts|, k requires 0 <= k < |parts| => if k == 0 then parts[0] else " " + parts[k])
  }

  /** Joining with `", "` is joining with `,` the spaced parts. */
  lemma {:induction false} JoinCommaSpace(parts: seq<string>)
    requires |parts| >= 1
    ensures Join(", ", parts) == Join([','], Spaced(parts))
    decreases |parts|
  {
    if |parts| > 1 {
      var front := parts[..|parts| - 1];
      var last := parts[|parts| - 1];
      assert Spaced(parts)[..|parts| - 1] == Spaced(front);
      JoinCommaSpace(front);
      assert ", " + last == [','] + (" " + last);
    }
  }

  /** Splitting `", ".join(parts)` on `,` gives the first part, then each
      later part with the one space the separator put before it, when no
      part contains a comma. */
  lemma SplitCommaSpace(parts: seq<string>)
    requires |parts| >= 1
    requires forall k :: 0 <= k < |parts| ==> ',' !in parts[k]
    ensures var r := SplitOn(Join(", ", parts), ',');
            |r| == |parts| && r[0] == parts[0] &&
            forall k :: 1 <= k < |parts| ==> r[k] == " " + parts[k]
  {
    var spaced := Spaced(parts);
    forall k | 0 <= k < |spaced|
      ensures ',' !in spaced[k]
    {
      if k > 0 {
        assert spaced[k] == " " + parts[k];
      }
    }
    JoinCommaSpace(parts);
    SplitJoin(spaced, ',');
  }

  /** The number of occurrences of `c` in `s`. */
  function Count(s: string, c: char): (n: nat)
    ensures n <= |s|
    ensures n == 0 <==> c !in s
  {
    if s == [] then 0
    else Count(s[..|s| - 1], c) + (if s[|s| - 1] == c then 1 else 0)
  }

  lemma {:induction false} CountAppend(s: string, t: string, c: char)
    ensures Count(s + t, c) == Count(s, c) + Count(t, c)
    decreases |t|
  {
    if t == [] {
      assert s + t == s;
    } else {
      assert (s + t)[..|s + t| - 1] == s + t[..|t| - 1];
      CountAppend(s, t[..|t| - 1], c);
    }
  }

  /** Joining `n` pieces free of `c` with `c` puts exactly `n - 1` copies of
      `c` into the text. */
  lemma {:induction false} JoinCount(parts: seq<string>, c: char)
    requires |parts| >= 1
    requires forall k :: 0 <= k < |parts| ==> c !in parts[k]
    ensures Count(Join([c], parts), c) == |parts| - 1
    decreases |parts|
  {
    if |parts| > 1 {
      var front := Join([c], parts[..|parts| - 1]);
      JoinCount(parts[..|parts| - 1], c);
      CountAppend(front, [c], c);
      CountAppend(front + [c], parts[|parts| - 1], c);
      assert Count([c], c) == 1 by { assert [c][..0] == []; }
    }
  }

  /** `s.rfind(c)`: the index of the last `c` in `s`, or -1 when there is none. */
  function RFind(s: string, c: char): (i: int)
    ensures -1 <= i < |s|
    ensures 0 <= i ==> s[i] == c
    ensures forall k :: i < k < |s| ==> s[k] != c
  {
    if |s| == 0 then -1
    else if s[|s| - 1] == c then |s| - 1
    else RFind(s[..|s| - 1], c)
  }

  /** A suffix free of `c` does not move the last `c`, and cutting there
      gives the two parts back. */
  lemma {:induction false} SplitAtLast(front: string, c: char, back: string)
    requires c !in back
    ensures RFind(front + [c] + back, c) == |front|
    ensures (front + [c] + back)[..|front|] == front
    ensures (front + [c] + back)[|front| + 1..] == back
    decreases |back|
  {
    var s := front + [c] + back;
    if back != [] {
      var shorter := back[..|back| - 1];
      assert s[|s| - 1] == back[|back| - 1];
      assert s[..|s| - 1] == front + [c] + shorter;
      SplitAtLast(front, c, shorter);
    }
    assert s[..|front|] == front;
    assert s[|front| + 1..] == back;
  }

  /** Python's `str.isspace()` for one character: the characters `strip()`
      with no argument removes. */
  predicate IsSpace(ch: char)
  {
    ch == ' ' || ('\t' <= ch <= '\r') || ('\U{1C}' <= ch <= '\U{1F}') ||
    ch == '\U{85}' || ch == '\U{A0}' || ch == '\U{1680}' ||
    ('\U{2000}' <= ch <= '\U{200A}') || ch == '\U{2028}' || ch == '\U{2029}' ||
    ch == '\U{202F}' || ch == '\U{205F}' || ch == '\U{3000}'
  }

  /** How many whitespace characters `s` starts with. */
  function LeadingSpaces(s: string): (n: nat)
    ensures n <= |s|
    ensures forall k :: 0 <= k < n ==> IsSpace(s[k])
    ensures n == |s| || !IsSpace(s[n])
  {
    if s == [] || !IsSpace(s[0]) then 0 else 1 + LeadingSpaces(s[1..])
  }

  /** The length of `s` without the run of characters satisfying `drop` at
      its end. */
  function KeptLength(s: string, drop: char -> bool): (n: nat)
    ensures n <= |s|
    ensures forall k :: n <= k < |s| ==> drop(s[k])
    ensures n == 0 || !drop(s[n - 1])
  {
    if s == [] || !drop(s[|s| - 1]) then |s| else KeptLength(s[..|s| - 1], drop)
  }

  /** `s.lstrip()` */
  function LStrip(s: string): string
  {
    s[LeadingSpaces(s)..]
  }

  /** `s.rstrip()` */
  function RStrip(s: string): string
  {
    s[..KeptLength(s, IsSpace)]
  }

  /** `s.strip()`: no longer than `s`, neither starting nor ending with
      whitespace, and empty exactly when `s` is all whitespace. */
  function Strip(s: string): (t: string)
    ensures |t| <= |s|
    ensures t == "" || (!IsSpace(t[0]) && !IsSpace(t[|t| - 1]))
    ensures t == "" <==> forall k :: 0 <= k < |s| ==> IsSpace(s[k])
  {
    var i := LeadingSpaces(s);
    var l := LStrip(s);
    var t := RStrip(l);
    assert l == s[i..];
    assert |l| > 0 ==> !IsSpace(l[0]);
    assert |t| > 0 ==> t[0] == l[0];
    assert |l| > 0 ==> |t| > 0;
    t
  }

  /** What `strip()` keeps is a slice of its input with only whitespace
      around it, and it starts and ends with a non-space character. */
  lemma StripIsTrimmedSlice(s: string)
    ensures exists i, j :: 0 <= i <= j <= |s| && Strip(s) == s[i..j] &&
                           (forall k :: 0 <= k < i ==> IsSpace(s[k])) &&
                           (forall k :: j <= k < |s| ==> IsSpace(s[k]))
    ensures Strip(s) == "" || (!IsSpace(Strip(s)[0]) && !IsSpace(Strip(s)[|Strip(s)| - 1]))
    ensures Strip(s) == "" <==> forall k :: 0 <= k < |s| ==> IsSpace(s[k])
  {
    var i := LeadingSpaces(s);
    var l := s[i..];
    var j := i + KeptLength(l, IsSpace);
    assert Strip(s) == s[i..j];
    assert forall k :: j <= k < |s| ==> s[k] == l[k - i];
    if i < j {
      assert Strip(s)[0] == s[i];
    }
  }

  /** `s.rstrip(c)`: every trailing `c` removed. What is kept is a prefix
      of `s` that does not end with `c`, and only copies of `c` were cut. */
  function RStripChar(s: string, c: char): (t: string)
    ensures t <= s
    ensures t == "" || t[|t| - 1] != c
    ensures forall k :: |t| <= k < |s| ==> s[k] == c
  {
    s[..KeptLength(s, ch => ch == c)]
  }

  /** The ASCII decimal digit for `d`. */
  function DigitChar(d: nat): (ch: char)
    requires d < 10
    ensures '0' <= ch <= '9'
  {
    ['0', '1', '2', '3', '4', '5', '6', '7', '8', '9'][d]
  }

  predicate IsDigit(ch: char)
  {
    '0' <= ch <= '9'
  }

  predicate AllDigits(s: string)
  {
    forall k :: 0 <= k < |s| ==> IsDigit(s[k])
  }

  /** `str(n)` for a non-negative int: no leading zero except for 0 itself. */
  function Decimal(n: nat): (r: string)
    ensures 1 <= |r|
    ensures AllDigits(r)
    ensures r[0] == '0' ==> n == 0 && r == "0"
  {
    if n < 10 then [DigitChar(n)] else Decimal(n / 10) + [DigitChar(n % 10)]
  }

  /** Reads a string of decimal digits, leading zeros allowed, as `int(s)`
      does; unlike `int`, it reads the empty string as 0 rather than
      failing. */
  function ParseDecimal(s: string): (n: nat)
    requires AllDigits(s)
  {
    if s == [] then 0
    else 10 * ParseDecimal(s[..|s| - 1]) + (s[|s| - 1] as int - '0' as int)
  }

  lemma DigitCharValue(d: nat)
    requires d < 10
    ensures DigitChar(d) as int - '0' as int == d
  {
  }

  lemma {:induction false} ParseDecimalRoundTrip(n: nat)
    ensures ParseDecimal(Decimal(n)) == n
  {
    DigitCharValue(n % 10);
    if n >= 10 {
      var s := Decimal(n);
      assert s[..|s| - 1] == Decimal(n / 10);
      ParseDecimalRoundTrip(n / 10);
    }
  }

  /** Leading zeros do not change the value read. */
  lemma {:induction false} ParseDecimalZeros(z: nat, s: string)
    requires AllDigits(s)
    ensures AllDigits(Repeat('0', z) + s)
    ensures ParseDecimal(Repeat('0', z) + s) == ParseDecimal(s)
    decreases |s| + z
  {
    var t := Repeat('0', z) + s;
    if s == [] {
      assert t == Repeat('0', z);
      if z > 0 {
        assert t[..|t| - 1] == Repeat('0', z - 1) + [];
        ParseDecimalZeros(z - 1, []);
      }
    } else {
      assert t[..|t| - 1] == Repeat('0', z) + s[..|s| - 1];
      ParseDecimalZeros(z, s[..|s| - 1]);
    }
  }

  /** `'%*d' % (width, n)` (zero = false) and `'%0*d' % (width, n)`
      (zero = true): the decimal digits of `n`, its `-` sign, padded on the
      left to `width` characters with spaces before the sign or with zeros
      after it. */
  function FormatInt(n: int, width: nat, zero: bool): (r: string)
    ensures var digits := |Decimal(if n < 0 then -n else n)| + (if n < 0 then 1 else 0);
            |r| >= width && |r| >= digits && (|r| == width || |r| == digits)
  {
    Pad(if n < 0 then "-" else "", Decimal(if n < 0 then -n else n), width, zero)
  }

  /** The padding step of `%d`: `sign` and `digits` brought to `width`. */
  function Pad(sign: string, digits: string, width: nat, zero: bool): (r: string)
  {
    var pad := if |sign| + |digits| < width then width - |sign| - |digits| else 0;
    if zero then sign + Repeat('0', pad) + digits
    else Repeat(' ', pad) + sign + digits
  }

  /** Without a sign, padding puts zeros or spaces in front of the digits. */
  lemma PadUnsigned(digits: string, width: nat, zero: bool)
    ensures var pad := if |digits| < width then width - |digits| else 0;
            Pad("", digits, width, zero) == Repeat(if zero then '0' else ' ', pad) + digits
  {
    var pad := if |digits| < width then width - |digits| else 0;
    var fill := Repeat(if zero then '0' else ' ', pad);
    assert "" + fill + digits == fill + digits;
    assert fill + "" + digits == fill + digits;
  }

  /** A non-negative number is its digits, padded on the left to `width`
      with zeros or spaces. */
  lemma FormatIntNonNegativeText(n: nat, width: nat)
    ensures var pad := if |Decimal(n)| < width then width - |Decimal(n)| else 0;
            FormatInt(n, width, true) == Repeat('0', pad) + Decimal(n) &&
            FormatInt(n, width, false) == Repeat(' ', pad) + Decimal(n)
  {
    PadUnsigned(Decimal(n), width, true);
    PadUnsigned(Decimal(n), width, false);
  }

  /** A non-negative number comes out at least `width` wide, and its
      zero-padded form reads back as the number. */
  lemma FormatIntNonNegative(n: nat, width: nat)
    ensures var pad := if |Decimal(n)| < width then width - |Decimal(n)| else 0;
            FormatInt(n, width, true) == Repeat('0', pad) + Decimal(n) &&
            FormatInt(n, width, false) == Repeat(' ', pad) + Decimal(n)
    ensures AllDigits(FormatInt(n, width, true))
    ensures ParseDecimal(FormatInt(n, width, true)) == n
  {
    var d := Decimal(n);
    var pad := if |d| < width then width - |d| else 0;
    FormatIntNonNegativeText(n, width);
    var digits := Repeat('0', pad) + d;
    assert FormatInt(n, width, true) == digits;
    ParseDecimalZeros(pad, d);
    ParseDecimalRoundTrip(n);
  }

  /** A negative number keeps its sign in front of the padding zeros. */
  lemma FormatIntNegative(n: int, width: nat)
    requires n < 0
    ensures FormatInt(n, width, true)[0] == '-'
    ensures ParseDecimal(FormatInt(n, width, true)[1..]) == -n
  {
    var d := Decimal(-n);
    var pad := if 1 + |d| < width then width - 1 - |d| else 0;
    var t := FormatInt(n, width, true);
    assert t == "-" + Repeat('0', pad) + d;
    var digits := Repeat('0', pad) + d;
    assert t[1..] == digits;
    ParseDecimalZeros(pad, d);
    ParseDecimalRoundTrip(-n);
    assert ParseDecimal(digits) == -n;
  }
}
