/** What is left of a sequence when some of its elements are taken out. */
module Sublists {
  /** The elements at these positions, in order. */
  ghost predicate Picks<T>(s: seq<T>, at: seq<nat>, out: seq<T>) {
    && |out| == |at| && (forall i, j :: 0 <= i < j < |at| ==> at[i] < at[j])
    && forall i :: 0 <= i < |at| ==> at[i] < |s| && out[i] == s[at[i]]
  }

  /** Just the elements to keep, in order. */
  ghost predicate PicksJust<T>(s: seq<T>, keep: T -> bool, out: seq<T>) {
    exists at: seq<nat> :: Picks(s, at, out) && forall k: nat :: k < |s| ==> (k in at <==> keep(s[k]))
  }

  lemma PicksNothing<T>(keep: T -> bool)
    ensures PicksJust([], keep, [])
  {
    var at: seq<nat> := [];
    assert Picks<T>([], at, []);
  }

  lemma PicksNext<T>(s: seq<T>, at: seq<nat>, out: seq<T>, x: T)
    requires Picks(s, at, out)
    ensures Picks(s + [x], at, out) && Picks(s + [x], at + [|s|], out + [x])
  {
  }

  lemma PicksBelow<T>(s: seq<T>, at: seq<nat>, out: seq<T>)
    requires Picks(s, at, out)
    ensures forall k :: k in at ==> k < |s|
  {
  }

  lemma PicksJustNext<T>(s: seq<T>, keep: T -> bool, out: seq<T>, x: T)
    requires PicksJust(s, keep, out)
    ensures PicksJust(s + [x], keep, if keep(x) then out + [x] else out)
  {
    var at: seq<nat> :| Picks(s, at, out) && forall k: nat :: k < |s| ==> (k in at <==> keep(s[k]));
    PicksNext(s, at, out, x);
    PicksBelow(s, at, out);
    KeptNext(s, keep, at, x);
  }

  lemma EndsWith<T>(longer: seq<T>, s: seq<T>)
    requires longer != [] && s == longer[..|longer| - 1]
    ensures longer == s + [longer[|s|]]
  {
  }

  lemma PicksJustTo<T>(s: seq<T>, keep: T -> bool, out: seq<T>, longer: seq<T>, out': seq<T>)
    requires longer != [] && s == longer[..|longer| - 1]
    requires PicksJust(s, keep, out)
    requires out' == if keep(longer[|s|]) then out + [longer[|s|]] else out
    ensures PicksJust(longer, keep, out')
  {
    EndsWith(longer, s);
    PicksJustEnd(s, keep, out, longer[|s|], longer, out');
  }

  lemma PicksJustEnd<T>(s: seq<T>, keep: T -> bool, out: seq<T>, x: T, longer: seq<T>, out': seq<T>)
    requires PicksJust(s, keep, out) && longer == s + [x] && out' == if keep(x) then out + [x] else out
    ensures PicksJust(longer, keep, out')
  {
    PicksJustNext(s, keep, out, x);
  }

  lemma KeptNext<T>(s: seq<T>, keep: T -> bool, at: seq<nat>, x: T)
    requires (forall k :: k in at ==> k < |s|) && forall k: nat :: k < |s| ==> (k in at <==> keep(s[k]))
    ensures var longer: seq<nat> := if keep(x) then at + [|s|] else at;
      forall k: nat :: k < |s + [x]| ==> (k in longer <==> keep((s + [x])[k]))
  {
  }
}
