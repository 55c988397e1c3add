/** Segment file names (storage/wal.py): the log is read in name order, which must be segment order. */
module SegmentNames {
  import opened Names

  function Digit(d: nat): char
    requires d < 10
  {
    '0' + d as char
  }

  function Decimal(n: nat): string {
    if n < 10 then [Digit(n)] else Decimal(n / 10) + [Digit(n % 10)]
  }

  function Zeros(k: nat): string {
    if k == 0 then "" else Zeros(k - 1) + ['0']
  }

  /** `f"{n:06d}.wal"`. */
  function SegmentName(n: nat): string {
    (if |Decimal(n)| < 6 then Zeros(6 - |Decimal(n)|) else "") + Decimal(n) + ".wal"
  }

  /** The last `k` decimal digits. */
  function Digits(n: nat, k: nat): (s: string)
    ensures |s| == k
  {
    if k == 0 then "" else Digits(n / 10, k - 1) + [Digit(n % 10)]
  }

  function Pow10(k: nat): nat {
    if k == 0 then 1 else 10 * Pow10(k - 1)
  }

  lemma {:induction false} PaddedIsDigits(n: nat, k: nat)
    requires k >= 1 && n < Pow10(k)
    ensures |Decimal(n)| <= k && Digits(n, k) == Zeros(k - |Decimal(n)|) + Decimal(n)
    decreases k
  {
    if n < 10 {
      DigitsOfZero(k - 1);
    } else {
      PaddedIsDigits(n / 10, k - 1);
    }
  }

  lemma {:induction false} DigitsOfZero(k: nat)
    ensures Digits(0, k) == Zeros(k)
  {
    if k > 0 {
      DigitsOfZero(k - 1);
    }
  }

  lemma {:induction false} LessSnoc(a: string, b: string, x: char, y: char)
    requires |a| == |b|
    ensures Less(a + [x], b + [y]) <==> Less(a, b) || (a == b && x < y)
    decreases |a|
  {
    if a != "" {
      LessSnoc(a[1..], b[1..], x, y);
      assert (a + [x])[1..] == a[1..] + [x] && (b + [y])[1..] == b[1..] + [y];
      assert a == [a[0]] + a[1..] && b == [b[0]] + b[1..];
    }
  }

  lemma {:induction false} DigitsOrder(i: nat, j: nat, k: nat)
    requires i < j < Pow10(k)
    ensures Less(Digits(i, k), Digits(j, k))
  {
    LessSnoc(Digits(i / 10, k - 1), Digits(j / 10, k - 1), Digit(i % 10), Digit(j % 10));
    if i / 10 < j / 10 {
      DigitsOrder(i / 10, j / 10, k - 1);
    }
  }

  // ---------------------------------------------------------------- the exact order of the names

  /** How many digits a name has: six, or more where six do not hold the number. */
  function NameWidth(n: nat): nat {
    if |Decimal(n)| < 6 then 6 else |Decimal(n)|
  }

  lemma {:induction false} DecimalBounds(n: nat)
    ensures n < Pow10(|Decimal(n)|) && |Decimal(n)| >= 1 && (n >= 10 ==> Pow10(|Decimal(n)| - 1) <= n)
  {
    if n >= 10 {
      DecimalBounds(n / 10);
    }
  }

  lemma {:induction false} Pow10Grows(a: nat, b: nat)
    requires a <= b
    ensures Pow10(a) <= Pow10(b) && Pow10(b) >= 1
    decreases b
  {
    if a < b {
      Pow10Grows(a, b - 1);
    } else if b > 0 {
      Pow10Grows(a - 1, b - 1);
    }
  }

  lemma NameIsDigits(n: nat)
    ensures n < Pow10(NameWidth(n)) && SegmentName(n) == Digits(n, NameWidth(n)) + ".wal"
  {
    DecimalBounds(n);
    Pow10Grows(|Decimal(n)|, NameWidth(n));
    PaddedIsDigits(n, NameWidth(n));
  }

  lemma WiderName(i: nat, j: nat)
    requires i <= j
    ensures NameWidth(i) <= NameWidth(j)
  {
    DecimalBounds(i);
    DecimalBounds(j);
    if |Decimal(j)| < |Decimal(i)| {
      Pow10Grows(|Decimal(j)|, |Decimal(i)| - 1);
    }
  }

  /** The number without its last `d` digits. */
  function Leading(n: nat, d: nat): nat {
    if d == 0 then n else Leading(n / 10, d - 1)
  }

  /** Digits split anywhere: the first ones are those of the leading number. */
  lemma {:induction false} DigitsSplit(n: nat, k: nat, d: nat)
    ensures Digits(n, k + d) == Digits(Leading(n, d), k) + Digits(n, d)
    decreases d
  {
    if d > 0 {
      DigitsSplit(n / 10, k, d - 1);
      assert Digits(n, k + d) == Digits(n / 10, k + d - 1) + [Digit(n % 10)];
    }
  }

  lemma {:induction false} LeadingBelow(n: nat, k: nat, d: nat)
    requires n < Pow10(k + d)
    ensures Leading(n, d) < Pow10(k)
    decreases d
  {
    if d > 0 {
      LeadingBelow(n / 10, k, d - 1);
    }
  }

  lemma {:induction false} LessConcat(a: string, b: string, s: string, t: string)
    requires |a| == |b|
    ensures Less(a + s, b + t) <==> Less(a, b) || (a == b && Less(s, t))
    decreases |a|
  {
    if a == "" {
      assert a + s == s && b + t == t;
    } else {
      LessConcat(a[1..], b[1..], s, t);
      assert (a + s)[1..] == a[1..] + s && (b + t)[1..] == b[1..] + t;
      assert a == [a[0]] + a[1..] && b == [b[0]] + b[1..];
    }
  }

  lemma DigitsCompare(i: nat, j: nat, k: nat)
    requires i < Pow10(k) && j < Pow10(k)
    ensures Less(Digits(i, k), Digits(j, k)) <==> i < j
    ensures Digits(i, k) == Digits(j, k) <==> i == j
  {
    LessTotal(Digits(i, k), Digits(j, k));
    if i < j {
      DigitsOrder(i, j, k);
    } else if j < i {
      DigitsOrder(j, i, k);
    }
  }

  /**
    When two names sort like their numbers: exactly when the smaller number is at
    most the leading digits, as many as its own name has, of the larger.
    */
  lemma NamesSortIff(i: nat, j: nat)
    requires i < j
    ensures NameWidth(i) <= NameWidth(j)
    ensures Less(SegmentName(i), SegmentName(j)) <==> i <= Leading(j, NameWidth(j) - NameWidth(i))
  {
    WiderName(i, j);
    NameIsDigits(i);
    NameIsDigits(j);
    DigitsSortIff(i, j, NameWidth(i), NameWidth(j) - NameWidth(i));
  }

  lemma DigitsSortIff(i: nat, j: nat, k: nat, d: nat)
    requires i < j && i < Pow10(k) && j < Pow10(k + d)
    ensures Less(Digits(i, k) + ".wal", Digits(j, k + d) + ".wal") <==> i <= Leading(j, d)
  {
    var q := Leading(j, d);
    DigitsSplit(j, k, d);
    LeadingBelow(j, k, d);
    assert Digits(j, k + d) + ".wal" == Digits(q, k) + (Digits(j, d) + ".wal");
    LessConcat(Digits(i, k), Digits(q, k), ".wal", Digits(j, d) + ".wal");
    DigitsCompare(i, q, k);
    if d > 0 {
      DotBeforeDigits(Digits(j, d), j, d);
    }
  }

  lemma DotBeforeDigits(s: string, n: nat, d: nat)
    requires d > 0 && s == Digits(n, d)
    ensures Less(".wal", s + ".wal")
  {
    FirstIsDigit(n, d);
  }

  lemma {:induction false} FirstIsDigit(n: nat, d: nat)
    requires d > 0
    ensures Digits(n, d)[0] >= '0'
  {
    if d > 1 {
      FirstIsDigit(n / 10, d - 1);
    }
  }

  /** Below a million segments, sorting the names sorts the numbers. */
  lemma NamesSortNumerically(i: nat, j: nat)
    requires i < j < 1_000_000
    ensures Less(SegmentName(i), SegmentName(j))
  {
    SixDigits(i);
    SixDigits(j);
    NamesSortIff(i, j);
  }

  lemma SixDigits(n: nat)
    requires n < 1_000_000
    ensures NameWidth(n) == 6
  {
    assert Pow10(6) == 1_000_000;
    PaddedIsDigits(n, 6);
  }

  predicate IsPowerFromMillion(n: nat) {
    exists k: nat :: 6 <= k <= n && n == Pow10(k)
  }

  lemma {:induction false} Pow10Exceeds(k: nat)
    ensures k < Pow10(k)
  {
    if k > 0 {
      Pow10Exceeds(k - 1);
    }
  }

  /** Consecutive segments sort in order except where the number of digits grows beyond six. */
  lemma NeighboursSortIff(i: nat)
    ensures Less(SegmentName(i), SegmentName(i + 1)) <==> !IsPowerFromMillion(i + 1)
  {
    NamesSortIff(i, i + 1);
    if IsPowerFromMillion(i + 1) {
      var k: nat :| 6 <= k <= i + 1 && i + 1 == Pow10(k);
      PowerWidens(i, k);
    }
    if NameWidth(i) < NameWidth(i + 1) {
      WidthStep(i);
      Pow10Exceeds(NameWidth(i));
      assert Leading(i + 1, 1) == Leading((i + 1) / 10, 0);
    }
  }

  lemma Million()
    ensures Pow10(6) == 1_000_000
  {
  }

  /** The width grows only by one, at a power of ten. */
  lemma WidthStep(i: nat)
    requires NameWidth(i) < NameWidth(i + 1)
    ensures i + 1 == Pow10(NameWidth(i)) && NameWidth(i + 1) == NameWidth(i) + 1 && i >= 10
  {
    var v, w := NameWidth(i), NameWidth(i + 1);
    NameIsDigits(i);
    DecimalBounds(i + 1);
    PowerBetween(i, v, w);
  }

  lemma PowerBetween(i: nat, v: nat, w: nat)
    requires 6 <= v < w && i < Pow10(v) && Pow10(w - 1) <= i + 1
    ensures i + 1 == Pow10(v) && w == v + 1 && i >= 10
  {
    Million();
    Pow10Grows(v, w - 1);
    Pow10Grows(6, v);
    if w - 1 > v {
      Pow10Grows(v + 1, w - 1);
    }
  }

  lemma PowerWidens(i: nat, k: nat)
    requires k >= 6 && i + 1 == Pow10(k)
    ensures NameWidth(i) < NameWidth(i + 1)
  {
    WidthBelowPower(i, k);
    WidthOfPower(k);
  }

  lemma WidthBelowPower(i: nat, k: nat)
    requires k >= 6 && i < Pow10(k)
    ensures NameWidth(i) <= k
  {
    PaddedIsDigits(i, k);
  }

  lemma {:induction false} WidthOfPower(k: nat)
    requires k >= 1
    ensures |Decimal(Pow10(k))| == k + 1
  {
    if k > 1 {
      WidthOfPower(k - 1);
    }
  }

  /** The segment whose name sorts last, and so the one the next index is taken from. */
  ghost predicate SortsLast(indices: set<nat>, n: nat) {
    n in indices && forall m :: m in indices && m != n ==> Less(SegmentName(m), SegmentName(n))
  }

  ghost predicate IsNextIndex(indices: set<nat>, next: nat) {
    if indices == {} then next == 1 else exists n: nat :: SortsLast(indices, n) && next == n + 1
  }

  lemma SortsLastUnique(indices: set<nat>, m: nat, n: nat)
    requires SortsLast(indices, m) && SortsLast(indices, n)
    ensures m == n
  {
    if m != n {
      LessTotal(SegmentName(m), SegmentName(n));
    }
  }

  lemma LastBelowTenMillion(indices: set<nat>)
    requires 999_999 in indices && forall n :: n in indices ==> n < 9_999_990
    ensures SortsLast(indices, 999_999)
  {
    forall n | n in indices && n != 999_999
      ensures Less(SegmentName(n), SegmentName(999_999))
    {
      if n < 999_999 {
        NamesSortNumerically(n, 999_999);
      } else {
        SevenDigits(n);
        SixDigits(999_999);
        NamesSortIff(999_999, n);
        assert Leading(n, 1) == Leading(n / 10, 0);
        LessTotal(SegmentName(n), SegmentName(999_999));
        NamesDiffer(n, 999_999);
      }
    }
  }

  /**
    With the segments 999999 and 1000000 on disk, and none that sorts later, the
    next index is one that is taken: the existing segment is opened for writing
    and truncated.
    */
  lemma MillionthSegmentIsOverwritten(indices: set<nat>, next: nat)
    requires 999_999 in indices && 1_000_000 in indices && forall n :: n in indices ==> n < 9_999_990
    requires IsNextIndex(indices, next)
    ensures next == 1_000_000 && next in indices
  {
    LastBelowTenMillion(indices);
    var n: nat :| SortsLast(indices, n) && next == n + 1;
    SortsLastUnique(indices, n, 999_999);
  }

  /** As long as the numbers stay below a million, the next index is new. */
  lemma NextIndexIsNew(indices: set<nat>, next: nat)
    requires (forall n :: n in indices ==> n < 1_000_000) && IsNextIndex(indices, next)
    ensures next !in indices && forall n :: n in indices ==> n < next
  {
    if indices != {} {
      var last: nat :| SortsLast(indices, last) && next == last + 1;
      forall n | n in indices
        ensures n < next
      {
        if n > last {
          NamesSortNumerically(last, n);
          LessTotal(SegmentName(last), SegmentName(n));
        }
      }
    }
  }

  /** The millionth name sorts before its predecessor. */
  lemma MillionthSegmentSortsEarly()
    ensures Less(SegmentName(1_000_000), SegmentName(999_999))
  {
    LastBelowTenMillion({999_999, 1_000_000});
  }

  lemma NamesDiffer(i: nat, j: nat)
    requires NameWidth(i) != NameWidth(j)
    ensures SegmentName(i) != SegmentName(j)
  {
    NameIsDigits(i);
    NameIsDigits(j);
  }

  lemma SevenDigits(n: nat)
    requires 1_000_000 <= n < 10_000_000
    ensures NameWidth(n) == 7
  {
    assert Pow10(6) == 1_000_000 && Pow10(7) == 10_000_000;
    PaddedIsDigits(n, 7);
    LengthAtLeast(n, 6);
  }

  lemma {:induction false} LengthAtLeast(n: nat, k: nat)
    requires Pow10(k) <= n
    ensures |Decimal(n)| >= k + 1
  {
    if k > 0 {
      LengthAtLeast(n / 10, k - 1);
    }
  }
}
