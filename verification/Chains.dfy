/** The planner of a mount: delta chains, folding, and which layer hides under which delta. */
module Chains {
  import opened Bytes
  import opened Tree
  import opened ZipIndex

  datatype LayerType = DirLayer | ZipLayer | FileLayer | DeltaLayer

  /**
   * One layer as declared, lowest first. `file` is what an archive, a delta or a single file holds, None when it
   * cannot be read; `tree` is what a directory holds.
   */
  datatype LayerSpec = LayerSpec(
    ty: LayerType, target: Path, baseTargets: seq<Path>, submounts: seq<(Path, Path)>,
    tree: Fs, base: Name, file: Option<seq<byte>>)

  /**
   * What planning takes from elsewhere: a delta file applied over its base bytes, if it fits them, and the index of
   * an archive, if it has one.
   */
  datatype Host = Host(
    build: (seq<byte>, seq<byte>) -> Option<seq<byte>>,
    index: seq<byte> -> Option<(map<Path, ZipEntry>, Kids)>)

  // ---- chains ----

  predicate IsByteLayer(l: LayerSpec) {
    l.ty.ZipLayer? || l.ty.DeltaLayer?
  }

  /** A delta built over what lies beneath it at its own target. */
  predicate Continues(l: LayerSpec) {
    l.ty.DeltaLayer? && (l.baseTargets == [] || l.target in l.baseTargets)
  }

  /** The next zip or delta above `g` at the same target, looking from `from` on. */
  function NextFrom(specs: seq<LayerSpec>, g: nat, from: nat): (r: Option<nat>)
    requires g < |specs| && g < from <= |specs|
    ensures r.Some? ==> from <= r.value < |specs| && IsByteLayer(specs[r.value])
    ensures r.Some? ==> specs[r.value].target == specs[g].target
    ensures forall k :: from <= k < (if r.Some? then r.value else |specs|) ==>
      !(IsByteLayer(specs[k]) && specs[k].target == specs[g].target)
    decreases |specs| - from
  {
    if from == |specs| then None
    else if IsByteLayer(specs[from]) && specs[from].target == specs[g].target then Some(from)
    else NextFrom(specs, g, from + 1)
  }

  function Next(specs: seq<LayerSpec>, g: nat): Option<nat>
    requires g < |specs|
  {
    NextFrom(specs, g, g + 1)
  }

  /** A delta built over `g` comes right after it at its target. */
  predicate BuiltUpon(specs: seq<LayerSpec>, g: nat)
    requires g < |specs|
  {
    Next(specs, g).Some? && Continues(specs[Next(specs, g).value])
  }

  /**
   * The chain goes on from `g` exactly if the next zip or delta at its target is a delta that declares no base, or its
   * own target among its bases.
   */
  lemma BuiltUponIff(specs: seq<LayerSpec>, g: nat, n: nat)
    requires g < n < |specs| && specs[n].target == specs[g].target && specs[n].ty in {ZipLayer, DeltaLayer}
    requires forall k :: g < k < n ==> specs[k].target != specs[g].target || specs[k].ty in {DirLayer, FileLayer}
    ensures Next(specs, g) == Some(n)
    ensures BuiltUpon(specs, g) <==>
      specs[n].ty == DeltaLayer && (|specs[n].baseTargets| == 0 || specs[n].target in specs[n].baseTargets)
  {
    NextIs(specs, g, g + 1, n);
  }

  lemma {:induction false} NextIs(specs: seq<LayerSpec>, g: nat, from: nat, n: nat)
    requires g < from <= n < |specs| && IsByteLayer(specs[n]) && specs[n].target == specs[g].target
    requires forall k :: from <= k < n ==> !(IsByteLayer(specs[k]) && specs[k].target == specs[g].target)
    ensures NextFrom(specs, g, from) == Some(n)
    decreases n - from
  {
    if from < n { NextIs(specs, g, from + 1, n); }
  }

  /** Where no zip or delta follows at its target, nothing is built upon `g`. */
  lemma NothingBuiltUpon(specs: seq<LayerSpec>, g: nat)
    requires g < |specs|
    requires forall k :: g < k < |specs| ==> specs[k].target != specs[g].target || specs[k].ty in {DirLayer, FileLayer}
    ensures !BuiltUpon(specs, g)
  {
    if Next(specs, g).Some? { assert IsByteLayer(specs[Next(specs, g).value]); }
  }

  /** The last of the deltas built one over the other, from `g` on. */
  function Top(specs: seq<LayerSpec>, g: nat): (r: nat)
    requires g < |specs|
    ensures g <= r < |specs| && specs[r].target == specs[g].target
    decreases |specs| - g
  {
    if BuiltUpon(specs, g) then Top(specs, Next(specs, g).value) else g
  }

  /** In a chain: any delta, and a zip a delta is built upon. */
  predicate InChain(specs: seq<LayerSpec>, g: nat)
    requires g < |specs|
  {
    specs[g].ty.DeltaLayer? || (specs[g].ty.ZipLayer? && BuiltUpon(specs, g))
  }

  function ChainTop(specs: seq<LayerSpec>, g: nat): Option<nat>
    requires g < |specs|
  {
    if InChain(specs, g) then Some(Top(specs, g)) else None
  }

  /** Two members with the same top are joined by deltas built one over the other, nothing at their target between. */
  lemma {:induction false} ChainIsARun(specs: seq<LayerSpec>, g: nat, h: nat)
    requires g < h < |specs| && specs[h].target == specs[g].target && IsByteLayer(specs[h])
    ensures h <= Top(specs, g) ==> BuiltUpon(specs, g) && Continues(specs[h]) && Top(specs, h) == Top(specs, g)
    ensures h > Top(specs, g) ==> Top(specs, h) > Top(specs, g)
    decreases h - g
  {
    if BuiltUpon(specs, g) {
      var n := Next(specs, g).value;
      assert n <= h;
      if n < h { ChainIsARun(specs, n, h); }
    }
  }

  /**
   * Every delta lies in one chain; a chain's members are a run of its target's zips and deltas, deltas built one over
   * the other after the first; its top, and no other member, is its own top; nothing is built upon the top.
   */
  lemma ChainsPartition(specs: seq<LayerSpec>, g: nat)
    requires g < |specs|
    ensures specs[g].ty.DeltaLayer? ==> ChainTop(specs, g).Some?
    ensures ChainTop(specs, g).Some? ==>
      var top := ChainTop(specs, g).value;
      && g <= top < |specs| && specs[top].target == specs[g].target && specs[top].ty.DeltaLayer?
      && ChainTop(specs, top) == Some(top) && !BuiltUpon(specs, top)
      && forall h :: g < h < |specs| && specs[h].target == specs[g].target && IsByteLayer(specs[h]) ==>
           (h <= top <==> ChainTop(specs, h) == Some(top)) && (h <= top ==> Continues(specs[h]))
  {
    if InChain(specs, g) {
      var top := Top(specs, g);
      TopIsLast(specs, g);
      forall h | g < h < |specs| && specs[h].target == specs[g].target && IsByteLayer(specs[h])
        ensures (h <= top <==> ChainTop(specs, h) == Some(top)) && (h <= top ==> Continues(specs[h]))
      {
        ChainIsARun(specs, g, h);
      }
    }
  }

  lemma {:induction false} TopIsLast(specs: seq<LayerSpec>, g: nat)
    requires g < |specs|
    ensures !BuiltUpon(specs, Top(specs, g)) && Top(specs, Top(specs, g)) == Top(specs, g)
    ensures Top(specs, g) != g ==> specs[Top(specs, g)].ty.DeltaLayer?
    decreases |specs| - g
  {
    if BuiltUpon(specs, g) { TopIsLast(specs, Next(specs, g).value); }
  }

  // ---- the grouping loop ----

  /** The zips and deltas at one target, in order. */
  ghost predicate MembersOf(specs: seq<LayerSpec>, t: Path, n: nat, idx: seq<nat>)
    requires n <= |specs|
  {
    && (forall i :: 0 <= i < |idx| ==> idx[i] < n && IsByteLayer(specs[idx[i]]) && specs[idx[i]].target == t)
    && (forall i, j :: 0 <= i < j < |idx| ==> idx[i] < idx[j])
    && (forall g :: 0 <= g < n && IsByteLayer(specs[g]) && specs[g].target == t ==> g in idx)
  }

  lemma NextMember(specs: seq<LayerSpec>, t: Path, idx: seq<nat>, i: nat)
    requires MembersOf(specs, t, |specs|, idx) && i < |idx|
    ensures Next(specs, idx[i]) == if i + 1 < |idx| then Some(idx[i + 1]) else None
  {
    var r := Next(specs, idx[i]);
    if r.Some? {
      var j :| 0 <= j < |idx| && idx[j] == r.value;
      assert i < j;
    }
  }

  /** Position `j` ends the run that position `i` is in. */
  ghost predicate RunTo(specs: seq<LayerSpec>, idx: seq<nat>, i: nat, j: nat)
    requires forall k :: 0 <= k < |idx| ==> idx[k] < |specs|
  {
    && i < j <= |idx| && (forall k :: i < k < j ==> Continues(specs[idx[k]]))
    && (j < |idx| ==> !Continues(specs[idx[j]]))
  }

  lemma {:induction false} RunTop(specs: seq<LayerSpec>, t: Path, idx: seq<nat>, i: nat, k: nat, j: nat)
    requires MembersOf(specs, t, |specs|, idx) && RunTo(specs, idx, i, j) && i <= k < j
    ensures Top(specs, idx[k]) == idx[j - 1] && (BuiltUpon(specs, idx[k]) <==> k + 1 < j)
    decreases j - k
  {
    NextMember(specs, t, idx, k);
    if k + 1 < j { RunTop(specs, t, idx, i, k + 1, j); }
  }

  /** The zips and deltas of every target, grouped. */
  method GroupByTarget(specs: seq<LayerSpec>) returns (byTarget: map<Path, seq<nat>>)
    ensures forall t :: t in byTarget ==> MembersOf(specs, t, |specs|, byTarget[t])
    ensures forall g :: 0 <= g < |specs| && IsByteLayer(specs[g]) ==> specs[g].target in byTarget
  {
    hide MembersOf;
    byTarget := map[];
    for g := 0 to |specs|
      invariant forall t :: t in byTarget ==> MembersOf(specs, t, g, byTarget[t])
      invariant forall k :: 0 <= k < g && IsByteLayer(specs[k]) ==> specs[k].target in byTarget
    {
      ghost var before := byTarget;
      if IsByteLayer(specs[g]) {
        var t := specs[g].target;
        var idx := if t in byTarget then byTarget[t] else [];
        byTarget := byTarget[t := idx + [g]];
        NoMembersYet(specs, t, g, before);
        OneMember(specs, t, g, idx);
      }
      forall t | t in before && !(IsByteLayer(specs[g]) && specs[g].target == t)
        ensures MembersOf(specs, t, g + 1, before[t])
      {
        SameMembers(specs, t, g, before[t]);
      }
    }
  }

  lemma NoMembersYet(specs: seq<LayerSpec>, t: Path, g: nat, byTarget: map<Path, seq<nat>>)
    requires g < |specs|
    requires forall k :: 0 <= k < g && IsByteLayer(specs[k]) ==> specs[k].target in byTarget
    ensures t !in byTarget ==> MembersOf(specs, t, g, [])
  {
  }

  lemma SameMembers(specs: seq<LayerSpec>, t: Path, g: nat, idx: seq<nat>)
    requires g < |specs| && MembersOf(specs, t, g, idx) && !(IsByteLayer(specs[g]) && specs[g].target == t)
    ensures MembersOf(specs, t, g + 1, idx)
  {
  }

  lemma OneMember(specs: seq<LayerSpec>, t: Path, g: nat, idx: seq<nat>)
    requires g < |specs| && MembersOf(specs, t, g, idx) && IsByteLayer(specs[g]) && specs[g].target == t
    ensures MembersOf(specs, t, g + 1, idx + [g])
  {
    var all := idx + [g];
    assert all[|idx|] == g;
    forall k | 0 <= k < g + 1 && IsByteLayer(specs[k]) && specs[k].target == t
      ensures k in all
    {
      if k < g { assert k in idx; }
    }
  }

  lemma MembersAre(specs: seq<LayerSpec>, t: Path, idx: seq<nat>)
    requires MembersOf(specs, t, |specs|, idx)
    ensures forall g :: 0 <= g < |specs| ==> (g in idx <==> IsByteLayer(specs[g]) && specs[g].target == t)
    ensures forall k :: 0 <= k < |idx| ==> idx[k] < |specs| && specs[idx[k]].target == t
  {
  }

  lemma MembersFit(specs: seq<LayerSpec>, t: Path, idx: seq<nat>)
    requires MembersOf(specs, t, |specs|, idx)
    ensures forall k :: 0 <= k < |idx| ==> idx[k] < |specs| && IsByteLayer(specs[idx[k]])
    ensures forall i, j :: 0 <= i < j < |idx| ==> idx[i] < idx[j]
  {
  }

  /** Writes `top` for the positions from `i` to `j`. */
  method MarkRun(tops: seq<Option<nat>>, idx: seq<nat>, i: nat, j: nat, top: nat) returns (r: seq<Option<nat>>)
    requires i <= j <= |idx| && forall k :: 0 <= k < |idx| ==> idx[k] < |tops|
    requires forall a, b :: 0 <= a < b < |idx| ==> idx[a] < idx[b]
    ensures |r| == |tops|
    ensures forall k :: 0 <= k < |idx| ==> r[idx[k]] == if i <= k < j then Some(top) else tops[idx[k]]
    ensures forall g :: 0 <= g < |tops| && g !in idx ==> r[g] == tops[g]
  {
    r := tops;
    for m := i to j
      invariant |r| == |tops|
      invariant forall k :: 0 <= k < |idx| ==> r[idx[k]] == if i <= k < m then Some(top) else tops[idx[k]]
      invariant forall g :: 0 <= g < |tops| && g !in idx ==> r[g] == tops[g]
    {
      r := r[idx[m] := Some(top)];
    }
  }

  lemma RunIsChain(specs: seq<LayerSpec>, t: Path, idx: seq<nat>, i: nat, j: nat)
    requires MembersOf(specs, t, |specs|, idx) && RunTo(specs, idx, i, j)
    requires !Continues(specs[idx[i]]) || i == 0
    ensures specs[idx[i]].ty.ZipLayer? && j == i + 1 ==> ChainTop(specs, idx[i]) == None
    ensures !(specs[idx[i]].ty.ZipLayer? && j == i + 1) ==>
      forall k :: i <= k < j ==> ChainTop(specs, idx[k]) == Some(idx[j - 1])
  {
    hide Top, BuiltUpon;
    forall k | i <= k < j
      ensures Top(specs, idx[k]) == idx[j - 1] && (BuiltUpon(specs, idx[k]) <==> k + 1 < j)
    {
      RunTop(specs, t, idx, i, k, j);
    }
  }

  /** The runs of one target, each given its top. */
  method ChainsAt(specs: seq<LayerSpec>, t: Path, idx: seq<nat>, tops: seq<Option<nat>>) returns (r: seq<Option<nat>>)
    requires MembersOf(specs, t, |specs|, idx) && |tops| == |specs|
    requires forall k :: 0 <= k < |idx| ==> idx[k] < |specs| && tops[idx[k]] == None
    ensures |r| == |specs| && (forall k :: 0 <= k < |idx| ==> r[idx[k]] == ChainTop(specs, idx[k]))
    ensures forall g :: 0 <= g < |specs| && g !in idx ==> r[g] == tops[g]
  {
    hide MembersOf, ChainTop, Continues;
    MembersFit(specs, t, idx);
    r := tops;
    var i := 0;
    while i < |idx|
      invariant i <= |idx| && |r| == |specs|
      invariant i == 0 || i == |idx| || !Continues(specs[idx[i]])
      invariant forall k :: 0 <= k < |idx| ==> r[idx[k]] == if k < i then ChainTop(specs, idx[k]) else None
      invariant forall g :: 0 <= g < |specs| && g !in idx ==> r[g] == tops[g]
    {
      var isZip := specs[idx[i]].ty.ZipLayer?;
      var j := i + 1;
      while j < |idx| && Continues(specs[idx[j]])
        invariant i < j <= |idx| && forall k :: i < k < j ==> Continues(specs[idx[k]])
      {
        j := j + 1;
      }
      RunIsChain(specs, t, idx, i, j);
      if isZip && j == i + 1 {
        i := i + 1;
        continue;
      }
      r := MarkRun(r, idx, i, j, idx[j - 1]);
      i := j;
    }
  }

  /** The chain grouping of Init: every layer's chain top. */
  method GroupChains(specs: seq<LayerSpec>) returns (tops: seq<Option<nat>>)
    ensures |tops| == |specs| && forall g :: 0 <= g < |specs| ==> tops[g] == ChainTop(specs, g)
  {
    hide MembersOf;
    tops := seq(|specs|, _ => None);
    var byTarget := GroupByTarget(specs);
    var rest := byTarget.Keys;
    while rest != {}
      invariant rest <= byTarget.Keys && |tops| == |specs|
      invariant forall g :: 0 <= g < |specs| && specs[g].target in byTarget.Keys - rest ==>
        tops[g] == ChainTop(specs, g)
      invariant forall g :: 0 <= g < |specs| && specs[g].target in rest ==> tops[g] == None
      invariant forall g :: 0 <= g < |specs| && !IsByteLayer(specs[g]) ==> tops[g] == None
      decreases rest
    {
      var t :| t in rest;
      MembersAre(specs, t, byTarget[t]);
      tops := ChainsAt(specs, t, byTarget[t], tops);
      rest := rest - {t};
    }
  }
}
