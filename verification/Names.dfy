/** Column names: lexicographic order, `sorted(set(...))`, and alias-qualified names. */
module Names {
  import opened Walks
  import opened Seqs

  predicate Less(a: string, b: string) {
    if a == "" then b != ""
    else if b == "" then false
    else a[0] < b[0] || (a[0] == b[0] && Less(a[1..], b[1..]))
  }

  lemma {:induction false} LessTotal(a: string, b: string)
    ensures !Less(a, a)
    ensures Less(a, b) || a == b || Less(b, a)
    ensures !(Less(a, b) && Less(b, a))
    decreases |a|
  {
    if a != "" {
      LessTotal(a[1..], if b == "" then "" else b[1..]);
      if b != "" && a[0] == b[0] && a[1..] == b[1..] {
        assert a == [a[0]] + a[1..] == b;
      }
    }
  }

  lemma {:induction false} LessTransitive(a: string, b: string, c: string)
    requires Less(a, b) && Less(b, c)
    ensures Less(a, c)
    decreases |a|
  {
    if a != "" && a[0] == b[0] == c[0] {
      LessTransitive(a[1..], b[1..], c[1..]);
    }
  }

  predicate Sorted(s: seq<string>) {
    forall i, j :: 0 <= i < j < |s| ==> Less(s[i], s[j])
  }

  function Insert(x: string, s: seq<string>): seq<string> {
    if s == [] then [x]
    else if x == s[0] then s
    else if Less(x, s[0]) then [x] + s
    else [s[0]] + Insert(x, s[1..])
  }

  /** `tuple(sorted(set(s)))`. */
  function SortUnique(s: seq<string>): seq<string> {
    if s == [] then [] else Insert(s[0], SortUnique(s[1..]))
  }

  lemma {:induction false} InsertMembers(x: string, s: seq<string>)
    ensures forall y :: y in Insert(x, s) <==> y == x || y in s
  {
    if s != [] && x != s[0] && !Less(x, s[0]) {
      InsertMembers(x, s[1..]);
      assert s == [s[0]] + s[1..];
    }
  }

  lemma {:induction false} InsertSorted(x: string, s: seq<string>)
    requires Sorted(s)
    ensures Sorted(Insert(x, s))
  {
    if s != [] && x != s[0] {
      if Less(x, s[0]) {
        forall j | 0 <= j < |s|
          ensures Less(x, s[j])
        {
          if j > 0 {
            LessTransitive(x, s[0], s[j]);
          }
        }
      } else {
        LessTotal(x, s[0]);
        InsertSorted(x, s[1..]);
        InsertMembers(x, s[1..]);
        var rest := Insert(x, s[1..]);
        forall j | 0 <= j < |rest|
          ensures Less(s[0], rest[j])
        {
          assert rest[j] in rest;
          if rest[j] != x {
            var k :| 0 <= k < |s[1..]| && s[1..][k] == rest[j];
            assert s[k + 1] == rest[j];
          }
        }
      }
    }
  }

  lemma {:induction false} SortUniqueSorted(s: seq<string>)
    ensures Sorted(SortUnique(s))
    ensures forall y :: y in SortUnique(s) <==> y in s
  {
    if s != [] {
      SortUniqueSorted(s[1..]);
      InsertSorted(s[0], SortUnique(s[1..]));
      InsertMembers(s[0], SortUnique(s[1..]));
      assert s == [s[0]] + s[1..];
    }
  }

  lemma SortedIsDistinct(s: seq<string>)
    requires Sorted(s)
    ensures Distinct(s)
  {
    forall i, j | 0 <= i < j < |s|
      ensures s[i] != s[j]
    {
      LessTotal(s[i], s[j]);
    }
  }

  /** The sorted form depends on the set of names only. */
  lemma SortUniqueExtensional(s: seq<string>, t: seq<string>)
    requires forall y :: y in s <==> y in t
    ensures SortUnique(s) == SortUnique(t)
  {
    SortUniqueSorted(s);
    SortUniqueSorted(t);
    assert TotalOrder(Less) by {
      forall x, y, z
        ensures !Less(x, x) && (Less(x, y) && Less(y, z) ==> Less(x, z)) && (Less(x, y) || x == y || Less(y, x))
      {
        LessTotal(x, y);
        if Less(x, y) && Less(y, z) {
          LessTransitive(x, y, z);
        }
      }
    }
    SortedUnique(Less, SortUnique(s), SortUnique(t));
  }

  /** `f"{alias}.{column}"`. */
  function Qualified(alias: string, column: string): string {
    alias + "." + column
  }

  function FirstDot(s: string): nat {
    if s == "" || s[0] == '.' then 0 else 1 + FirstDot(s[1..])
  }

  lemma {:induction false} FirstDotOfQualified(alias: string, column: string)
    requires '.' !in alias
    ensures FirstDot(Qualified(alias, column)) == |alias|
  {
    if alias != "" {
      FirstDotOfQualified(alias[1..], column);
      assert Qualified(alias, column)[1..] == Qualified(alias[1..], column);
    }
  }

  /** Dot-free aliases make qualification injective. */
  lemma QualifiedInjective(a: string, b: string, c: string, d: string)
    requires '.' !in a && '.' !in b && Qualified(a, c) == Qualified(b, d)
    ensures a == b && c == d
  {
    FirstDotOfQualified(a, c);
    FirstDotOfQualified(b, d);
    var x, y := Qualified(a, c), Qualified(b, d);
    assert a == x[..|a|] && b == y[..|a|];
    assert c == x[|a| + 1..] && d == y[|a| + 1..];
  }
}
