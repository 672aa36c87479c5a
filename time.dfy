/** Python's `time.struct_time` as the feed parser hands it over, and the
    order Python uses when it compares two of them. A `struct_time` compares
    like the tuple of its nine visible fields. */
module StructTimes {

  datatype StructTime = StructTime(
    tm_year: int, tm_mon: int, tm_mday: int,
    tm_hour: int, tm_min: int, tm_sec: int,
    tm_wday: int, tm_yday: int, tm_isdst: int)

  /** The tuple view of a `struct_time`, in field order. */
  function Fields(t: StructTime): (r: seq<int>)
    ensures |r| == 9
    ensures r[0] == t.tm_year && r[1] == t.tm_mon && r[2] == t.tm_mday
  {
    [t.tm_year, t.tm_mon, t.tm_mday, t.tm_hour, t.tm_min, t.tm_sec,
     t.tm_wday, t.tm_yday, t.tm_isdst]
  }

  /** Python's `<` on tuples of ints: the first differing position decides;
      a proper prefix is smaller than the longer tuple, and no tuple is
      smaller than one of its own prefixes (itself included). */
  function LexLess(x: seq<int>, y: seq<int>): (r: bool)
    ensures x < y ==> r
    ensures y <= x ==> !r
  {
    if |x| == 0 then |y| > 0
    else if |y| == 0 then false
    else if x[0] != y[0] then x[0] < y[0]
    else
      assert x < y ==> x[1..] < y[1..];
      assert y <= x ==> y[1..] <= x[1..];
      LexLess(x[1..], y[1..])
  }

  /** `a < b` on two `struct_time` values: never between equal values, and
      an earlier year decides it. */
  function Before(a: StructTime, b: StructTime): (r: bool)
    ensures r ==> a != b && a.tm_year <= b.tm_year
    ensures a.tm_year < b.tm_year ==> r
  {
    LexLess(Fields(a), Fields(b))
  }

  /** Two `struct_time` values are `==` exactly when their tuples are. */
  lemma FieldsInjective(a: StructTime, b: StructTime)
    ensures a == b <==> Fields(a) == Fields(b)
  {
    if Fields(a) == Fields(b) {
      assert Fields(a)[3] == Fields(b)[3] && Fields(a)[4] == Fields(b)[4];
      assert Fields(a)[5] == Fields(b)[5] && Fields(a)[6] == Fields(b)[6];
      assert Fields(a)[7] == Fields(b)[7] && Fields(a)[8] == Fields(b)[8];
    }
  }

  /** Tuple `<` is a first-difference comparison. */
  lemma {:induction false} LexLessWitness(x: seq<int>, y: seq<int>)
    requires LexLess(x, y)
    ensures exists k :: 0 <= k <= |x| && k <= |y| && x[..k] == y[..k] &&
                        ((k == |x| && k < |y|) || (k < |x| && k < |y| && x[k] < y[k]))
  {
    if |x| == 0 {
      assert x[..0] == y[..0];
    } else if x[0] < y[0] {
      assert x[..0] == y[..0];
    } else {
      LexLessWitness(x[1..], y[1..]);
      var k :| 0 <= k <= |x[1..]| && k <= |y[1..]| && x[1..][..k] == y[1..][..k] &&
               ((k == |x[1..]| && k < |y[1..]|) || (k < |x[1..]| && k < |y[1..]| && x[1..][k] < y[1..][k]));
      assert x[..k + 1] == [x[0]] + x[1..][..k];
      assert y[..k + 1] == [y[0]] + y[1..][..k];
    }
  }

  lemma {:induction false} LexLessIrreflexive(x: seq<int>)
    ensures !LexLess(x, x)
  {
    if |x| > 0 {
      LexLessIrreflexive(x[1..]);
    }
  }

  lemma {:induction false} LexLessTransitive(x: seq<int>, y: seq<int>, z: seq<int>)
    requires LexLess(x, y) && LexLess(y, z)
    ensures LexLess(x, z)
  {
    if |x| > 0 && |y| > 0 && |z| > 0 && x[0] == y[0] && y[0] == z[0] {
      LexLessTransitive(x[1..], y[1..], z[1..]);
    }
  }

  /** Any two distinct tuples are ordered one way or the other. */
  lemma {:induction false} LexLessTotal(x: seq<int>, y: seq<int>)
    requires x != y
    ensures LexLess(x, y) || LexLess(y, x)
  {
    if |x| > 0 && |y| > 0 && x[0] == y[0] {
      assert x == [x[0]] + x[1..] && y == [y[0]] + y[1..];
      LexLessTotal(x[1..], y[1..]);
    }
  }

  /** `Before` is a strict total order on `struct_time` values, which is what
      a sort on them relies on. */
  lemma BeforeIrreflexive(a: StructTime)
    ensures !Before(a, a)
  {
    LexLessIrreflexive(Fields(a));
  }

  lemma BeforeAsymmetric(a: StructTime, b: StructTime)
    requires Before(a, b)
    ensures !Before(b, a) && a != b
  {
    if Before(b, a) {
      LexLessTransitive(Fields(a), Fields(b), Fields(a));
      LexLessIrreflexive(Fields(a));
    }
    BeforeIrreflexive(a);
  }

  lemma BeforeTransitive(a: StructTime, b: StructTime, c: StructTime)
    requires Before(a, b) && Before(b, c)
    ensures Before(a, c)
  {
    LexLessTransitive(Fields(a), Fields(b), Fields(c));
  }

  lemma BeforeTotal(a: StructTime, b: StructTime)
    requires a != b
    ensures Before(a, b) || Before(b, a)
  {
    FieldsInjective(a, b);
    LexLessTotal(Fields(a), Fields(b));
  }

  /** Not-before (the non-strict order `>=`) is transitive too: this is
      what lets a descending sort extend a sorted prefix. */
  lemma NotBeforeTransitive(a: StructTime, b: StructTime, c: StructTime)
    requires !Before(a, b) && !Before(b, c)
    ensures !Before(a, c)
  {
    if Before(a, c) {
      if a != b {
        BeforeTotal(a, b);
        BeforeTransitive(b, a, c);
      }
    }
  }
}
