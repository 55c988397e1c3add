/** The two relabelling branches of the GNN sampler (api.py `_sample_gnn_subgraph`). */
module Relabel {
  import opened Walks

  /** The position of `x` in a list that contains it. */
  function PositionIn(nodes: seq<nat>, x: nat): (i: nat)
    requires x in nodes
    ensures i < |nodes| && nodes[i] == x
  {
    if nodes[|nodes| - 1] == x then |nodes| - 1 else PositionIn(nodes[..|nodes| - 1], x)
  }

  /** The pairs with both ends among the nodes, in order, as positions. */
  function Relabelled(nodes: seq<nat>, src: seq<nat>, dst: seq<nat>): seq<(nat, nat)>
    requires |src| == |dst|
  {
    if src == [] then []
    else
      var n := |src| - 1;
      Relabelled(nodes, src[..n], dst[..n]) +
      if src[n] in nodes && dst[n] in nodes then [(PositionIn(nodes, src[n]), PositionIn(nodes, dst[n]))] else []
  }

  lemma RelabelledSnoc(nodes: seq<nat>, src: seq<nat>, dst: seq<nat>, i: nat)
    requires |src| == |dst| && i < |src|
    ensures Relabelled(nodes, src[..i + 1], dst[..i + 1]) == Relabelled(nodes, src[..i], dst[..i]) +
      if src[i] in nodes && dst[i] in nodes then [(PositionIn(nodes, src[i]), PositionIn(nodes, dst[i]))] else []
  {
    assert src[..i + 1][..i] == src[..i] && dst[..i + 1][..i] == dst[..i];
  }

  /** Every relabelled pair stands for one of the sampled pairs. */
  lemma {:induction false} RelabelledMapsBack(nodes: seq<nat>, src: seq<nat>, dst: seq<nat>, k: nat)
    requires |src| == |dst| && k < |Relabelled(nodes, src, dst)|
    ensures var (a, b) := Relabelled(nodes, src, dst)[k];
      a < |nodes| && b < |nodes| && exists i :: 0 <= i < |src| && nodes[a] == src[i] && nodes[b] == dst[i]
  {
    var n := |src| - 1;
    if k < |Relabelled(nodes, src[..n], dst[..n])| {
      RelabelledMapsBack(nodes, src[..n], dst[..n], k);
      var (a, b) := Relabelled(nodes, src[..n], dst[..n])[k];
      var i :| 0 <= i < n && nodes[a] == src[..n][i] && nodes[b] == dst[..n][i];
      assert nodes[a] == src[i] && nodes[b] == dst[i];
    }
  }

  /** When no endpoint is missing, nothing is dropped: the pairs correspond one to one. */
  lemma {:induction false} RelabelledKeepsAll(nodes: seq<nat>, src: seq<nat>, dst: seq<nat>)
    requires |src| == |dst| && forall i :: 0 <= i < |src| ==> src[i] in nodes && dst[i] in nodes
    ensures |Relabelled(nodes, src, dst)| == |src|
    ensures forall i :: 0 <= i < |src| ==>
      Relabelled(nodes, src, dst)[i] == (PositionIn(nodes, src[i]), PositionIn(nodes, dst[i]))
  {
    if src != [] {
      RelabelledKeepsAll(nodes, src[..|src| - 1], dst[..|src| - 1]);
    }
  }

  lemma {:induction false} RelabelledCount(nodes: seq<nat>, src: seq<nat>, dst: seq<nat>)
    requires |src| == |dst|
    ensures |Relabelled(nodes, src, dst)| <= |src|
  {
    if src != [] {
      RelabelledCount(nodes, src[..|src| - 1], dst[..|src| - 1]);
    }
  }

  /** The positions of the pairs with both ends among the nodes, in order. */
  ghost predicate BothEnds(nodes: seq<nat>, src: seq<nat>, dst: seq<nat>, at: seq<nat>)
    requires |src| == |dst|
  {
    && (forall i, j :: 0 <= i < j < |at| ==> at[i] < at[j])
    && (forall i :: 0 <= i < |at| ==> at[i] < |src|)
    && (forall k: nat :: k < |src| ==> (k in at <==> src[k] in nodes && dst[k] in nodes))
  }

  /** The pairs name, by position, just the sampled pairs with both ends among the nodes, in order. */
  ghost predicate NamesAt(nodes: seq<nat>, src: seq<nat>, dst: seq<nat>, pairs: seq<(nat, nat)>, at: seq<nat>) {
    && |src| == |dst| && BothEnds(nodes, src, dst, at) && |pairs| == |at|
    && forall k :: 0 <= k < |at| ==>
      && pairs[k].0 < |nodes| && nodes[pairs[k].0] == src[at[k]]
      && pairs[k].1 < |nodes| && nodes[pairs[k].1] == dst[at[k]]
  }

  lemma {:induction false} RelabelledNames(nodes: seq<nat>, src: seq<nat>, dst: seq<nat>) returns (at: seq<nat>)
    requires |src| == |dst|
    ensures NamesAt(nodes, src, dst, Relabelled(nodes, src, dst), at)
  {
    if src == [] {
      at := [];
    } else {
      var n := |src| - 1;
      at := RelabelledNames(nodes, src[..n], dst[..n]);
      NamesSnoc(nodes, src, dst, Relabelled(nodes, src[..n], dst[..n]), at);
      if src[n] in nodes && dst[n] in nodes {
        at := at + [n];
      }
    }
  }

  lemma NamesSnoc(nodes: seq<nat>, src: seq<nat>, dst: seq<nat>, pairs: seq<(nat, nat)>, at: seq<nat>)
    requires |src| == |dst| && src != []
    requires NamesAt(nodes, src[..|src| - 1], dst[..|src| - 1], pairs, at)
    ensures var n := |src| - 1;
      if src[n] in nodes && dst[n] in nodes
      then NamesAt(nodes, src, dst, pairs + [(PositionIn(nodes, src[n]), PositionIn(nodes, dst[n]))], at + [n])
      else NamesAt(nodes, src, dst, pairs, at)
  {
    var n := |src| - 1;
    if src[n] in nodes && dst[n] in nodes {
      BothEndsSnoc(nodes, src, dst, at);
    }
  }

  lemma BothEndsSnoc(nodes: seq<nat>, src: seq<nat>, dst: seq<nat>, at: seq<nat>)
    requires |src| == |dst| && src != [] && BothEnds(nodes, src[..|src| - 1], dst[..|src| - 1], at)
    requires src[|src| - 1] in nodes && dst[|src| - 1] in nodes
    ensures BothEnds(nodes, src, dst, at + [|src| - 1])
  {
  }

  // ---------------------------------------------------------------- dictionary branch

  /** `local` sends each node to its position and nothing else anywhere. */
  ghost predicate Locates(local: map<nat, nat>, nodes: seq<nat>) {
    forall x :: (x in local <==> x in nodes) && (x in local && x in nodes ==> local[x] == PositionIn(nodes, x))
  }

  method Enumerate(nodes: seq<nat>) returns (local: map<nat, nat>)
    requires Distinct(nodes)
    ensures Locates(local, nodes)
  {
    local := map[];
    for i := 0 to |nodes|
      invariant Locates(local, nodes[..i])
    {
      assert nodes[..i + 1] == nodes[..i] + [nodes[i]] && nodes[..i + 1][..i] == nodes[..i];
      assert nodes[i] !in nodes[..i];
      local := local[nodes[i] := i];
    }
    assert nodes[..|nodes|] == nodes;
  }

  method RelabelByDictionary(nodes: seq<nat>, src: seq<nat>, dst: seq<nat>) returns (out: seq<(nat, nat)>)
    requires Distinct(nodes) && |src| == |dst|
    ensures out == Relabelled(nodes, src, dst)
  {
    var local := Enumerate(nodes);
    out := [];
    for i := 0 to |src|
      invariant out == Relabelled(nodes, src[..i], dst[..i])
    {
      RelabelledSnoc(nodes, src, dst, i);
      if src[i] in local && dst[i] in local {
        out := out + [(local[src[i]], local[dst[i]])];
      }
    }
    assert src[..|src|] == src && dst[..|dst|] == dst;
  }

  // ---------------------------------------------------------------- dense branch

  function Largest(nodes: seq<nat>): (m: nat)
    ensures forall x :: x in nodes ==> x <= m
  {
    if nodes == [] then 0
    else
      var m := Largest(nodes[..|nodes| - 1]);
      assert nodes == nodes[..|nodes| - 1] + [nodes[|nodes| - 1]];
      if nodes[|nodes| - 1] > m then nodes[|nodes| - 1] else m
  }

  /** Slot `x` of the table holds the position of node `x`, or -1. */
  ghost predicate Tabulates(table: seq<int>, nodes: seq<nat>) {
    forall x :: 0 <= x < |table| ==> table[x] == if x in nodes then PositionIn(nodes, x) else -1
  }

  method Tabulate(nodes: seq<nat>, size: nat) returns (table: array<int>)
    requires Distinct(nodes) && forall x :: x in nodes ==> x < size
    ensures fresh(table) && table.Length == size && Tabulates(table[..], nodes)
  {
    table := new int[size](_ => -1);
    for i := 0 to |nodes|
      invariant Tabulates(table[..], nodes[..i])
    {
      assert nodes[..i + 1] == nodes[..i] + [nodes[i]] && nodes[..i + 1][..i] == nodes[..i];
      assert nodes[i] in nodes && nodes[i] !in nodes[..i];
      table[nodes[i]] := i;
    }
    assert nodes[..|nodes|] == nodes;
  }

  method RelabelByTable(nodes: seq<nat>, src: seq<nat>, dst: seq<nat>) returns (out: seq<(nat, nat)>)
    requires Distinct(nodes) && |src| == |dst|
    ensures out == Relabelled(nodes, src, dst)
  {
    var table := Tabulate(nodes, Largest(nodes) + 1);
    out := [];
    for i := 0 to |src|
      invariant Tabulates(table[..], nodes) && out == Relabelled(nodes, src[..i], dst[..i])
    {
      RelabelledSnoc(nodes, src, dst, i);
      assert (src[i] in nodes ==> src[i] < table.Length) && (dst[i] in nodes ==> dst[i] < table.Length);
      if src[i] < table.Length && dst[i] < table.Length {
        var a, b := table[src[i]], table[dst[i]];
        assert a == table[..][src[i]] && b == table[..][dst[i]];
        if a >= 0 && b >= 0 {
          out := out + [(a, b)];
        }
      }
    }
    assert src[..|src|] == src && dst[..|dst|] == dst;
  }

  /** The branch on density: the same result either way. */
  method RelabelEdges(nodes: seq<nat>, src: seq<nat>, dst: seq<nat>) returns (out: seq<(nat, nat)>)
    requires Distinct(nodes) && |src| == |dst|
    ensures out == Relabelled(nodes, src, dst)
  {
    if src == [] {
      return [];
    }
    if nodes != [] && (Largest(nodes) < 4 * |nodes| || Largest(nodes) < 1024) {
      out := RelabelByTable(nodes, src, dst);
    } else {
      out := RelabelByDictionary(nodes, src, dst);
    }
  }
}
