/** Runs of operations inside a kept folder: an ordinary tree while mounted, and the same tree the next time. */
module KeptRun {
  import opened Bytes
  import opened Tree
  import opened OverlayState
  import opened OverlaySteps
  import opened OverlayViews
  import opened OverlayRename
  import opened OverlaySeed
  import opened OverlayRun
  import opened VfsOps
  import opened Kept

  /**
   * A renamed directory replaces a deleted one, or no name of the layers joins what moves; and the layers show nothing
   * at the destination that rename(2) would not replace.
   */
  ghost predicate KeptFree(s: State, l: Lower, op: Op) {
    op.RenameOp? && op.to != [] ==>
      && ((op.to in s.wh && Visible(s, l, op.v) == Some(Dir)) ||
          DestinationIsFree(DropWhiteout(s, op.to), l, op.v, op.to))
      && Replaceable(s, l, op.v, op.to)
  }

  lemma KeptRenamedIsPlain(s: State, s': State, l: Lower, a: Path, b: Path, over: bool)
    requires b != [] && Clean(a) && Clean(b) && KeptRenamed(s, s', l, a, b, over)
    ensures View(s', l) == Moved(View(s, l), a, b) <==> over || DestinationIsFree(DropWhiteout(s, b), l, a, b)
  {
    hide Visible, DestinationIsFree, Moved, View;
    if MovedView(s, s', l, a, b) { MovesAsPlain(s, s', l, a, b); }
    if View(s', l) == Moved(View(s, l), a, b) { PlainShowsMoved(s, s', l, a, b); }
  }

  /**
   * One operation the kernel admits inside the folder, on a host that can write an opaque marker. Success is a step the
   * plain tree allows and takes exactly when it was free of the layers. What the plain tree allows fails only at the
   * seams and when the host failed a call of the operation. A failure keeps the view, unless something of the folder's
   * own went and its deletion could not be recorded: then the layers' subtree is back, whole.
   */
  method KeptStep(fs: VfsState, op: Op) returns (e: int, ghost unrecorded: bool)
    requires fs.Valid() && Admitted(View(fs.Snap(), fs.lower), op)
    modifies fs
    ensures fs.Valid()
    ensures e == 0 ==>
      (KeptFree(old(fs.Snap()), fs.lower, op) <==>
        Allowed(View(old(fs.Snap()), fs.lower), op) &&
        View(fs.Snap(), fs.lower) == Plain(View(old(fs.Snap()), fs.lower), op))
    ensures old(fs.calls) <= fs.calls && (e == EIO ==> Faulty(fs.faulty, old(fs.calls), fs.calls))
    ensures Allowed(View(old(fs.Snap()), fs.lower), op) ==>
      && (e == 0 ==> !Seam(old(fs.Snap()), fs.lower, op))
      && (e != 0 ==> Seam(old(fs.Snap()), fs.lower, op) || Faulty(fs.faulty, old(fs.calls), fs.calls))
    ensures e != 0 && !unrecorded ==> View(fs.Snap(), fs.lower) == View(old(fs.Snap()), fs.lower)
    ensures unrecorded ==> e == EIO && LowerShows(fs.Snap(), fs.lower, op.v)
    ensures unrecorded ==> op.UnlinkOp? || op.RmdirOp? || op.RenameOp?
  {
    hide View, Visible, Inv, LowerOk, ViewSet, ViewKept, KeptRenamed, Moved, Resized, DropWhiteout, LowerShows, Arrived,
      Denied, Children, SameOutside, Replaceable, DestinationIsFree, DiskAllows, Refusal, CanRename, HasChild,
      MarkerNamesIn, ResolvesAs, GoneFrom, Faulty, Allowed;
    var l := fs.lower;
    FaultyOne(fs.faulty, fs.calls);
    ghost var s := fs.Snap();
    unrecorded := false;
    AdmittedFacts(s, l, op);
    AllowedIff(View(s, l), op);
    SameView0(s, l);
    match op {
      case MkdirOp(v) =>
        e := KeptMkdir(fs, v);
        if e == 0 { SetIsPlain(s, fs.Snap(), l, v, Dir); }
      case CreateOp(v) =>
        e := KeptCreate(fs, v);
        if e == 0 { SetIsPlain(s, fs.Snap(), l, v, File([])); }
      case UnlinkOp(v) =>
        e, unrecorded := KeptUnlink(fs, v);
        if e == 0 { FileGoneIsPlain(s, fs.Snap(), l, v); }
      case RmdirOp(v) =>
        e := KeptRmdir(fs, v);
        unrecorded := e != 0 && e != ENOTEMPTY;
        if e == 0 {
          GoneIsPlain(s, fs.Snap(), l, v);
          NothingInside(s, l, v);
        }
      case TruncateOp(v, size) =>
        e := fs.VfsTruncate(v, size);
        if e == 0 { TruncatedIsPlain(s, fs.Snap(), l, v, size); }
      case RenameOp(v, to) =>
        ghost var ending, shown;
        e, ending, shown := KeptRename(fs, v, to, true);
        unrecorded := ending.NotHidden?;
        if e == 0 {
          KeptRenamedIsPlain(s, fs.Snap(), l, v, to, to in s.wh && Visible(s, l, v) == Some(Dir));
          ReplaceableIff(s, l, v, to);
        }
        if e == 0 || Refusal(s, l, v, to, e) { RenameSeam(s, l, v, to, e); }
    }
    if e != 0 && !unrecorded { KeptIsSameView(s, fs.Snap(), l); }
  }

  /** One step of a run from `s` to `s'`, whatever its outcome; `faulty` if the host failed a call in it. */
  ghost predicate KeptRan(l: Lower, faulty: bool, s: State, s': State, op: Op, r: Outcome, unrecorded: bool) {
    && (r.Refused? <==> !Admitted(View(s, l), op)) && (r.Refused? ==> s' == s)
    && (r.Done? ==> (KeptFree(s, l, op) <==> Allowed(View(s, l), op) && View(s', l) == Plain(View(s, l), op)))
    && (r.Done? && Allowed(View(s, l), op) ==> !Seam(s, l, op))
    && (!r.Done? && Allowed(View(s, l), op) ==> Seam(s, l, op) || faulty)
    && (r.Failed? && r.error == EIO ==> faulty)
    && (r.Failed? && !unrecorded ==> View(s', l) == View(s, l))
    && (unrecorded ==> r.Failed? && r.error == EIO && LowerShows(s', l, op.v))
  }

  /** A whole run, step by step, on a host that fails the calls `faulty` says. */
  ghost predicate IsKeptRun(l: Lower, faulty: nat -> bool, t: Trace, ops: seq<Op>, results: seq<Outcome>,
                            unrecorded: seq<bool>) {
    && |results| == |ops| == |unrecorded| && |t.states| == |t.calls| == |ops| + 1
    && forall i :: 0 <= i < |ops| ==>
      KeptRan(l, Faulty(faulty, t.calls[i], t.calls[i + 1]), t.states[i], t.states[i + 1], ops[i], results[i],
        unrecorded[i])
  }

  /** Every deletion was recorded, and no rename met names of the layers. */
  ghost predicate KeptSmooth(l: Lower, states: seq<State>, ops: seq<Op>, results: seq<Outcome>, unrecorded: seq<bool>)
    requires |results| == |ops| == |unrecorded| && |states| == |ops| + 1
  {
    && (forall i :: 0 <= i < |ops| && results[i].Done? ==> KeptFree(states[i], l, ops[i]))
    && (forall i :: 0 <= i < |ops| ==> !unrecorded[i])
  }

  lemma KeptRunIsPlain(l: Lower, faulty: nat -> bool, t: Trace, ops: seq<Op>, results: seq<Outcome>,
                       unrecorded: seq<bool>)
    requires IsKeptRun(l, faulty, t, ops, results, unrecorded) && KeptSmooth(l, t.states, ops, results, unrecorded)
    ensures Applied(View(t.states[0], l), ops, results) == Some(View(t.states[|ops|], l))
  {
    hide View, Plain, KeptFree, Admitted, Allowed, Seam, LowerShows, Applied, Faulty;
    var ts := seq(|t.states|, i requires 0 <= i < |t.states| => View(t.states[i], l));
    AppliedAlong(ts, ops, results);
  }

  /**
   * Any run inside the folder, on a host that can write an opaque marker, whatever is refused or fails on the way. An
   * ordinary tree allows the operations carried out and shows after them what the folder shows, as long as every
   * deletion was recorded and no rename met names of the layers at its destination. Step by step, what the ordinary
   * tree allows is carried out unless the host fails or a seam is met. Markers and masks stay in step in any case.
   */
  method RunKept(fs: VfsState, ops: seq<Op>)
    returns (results: seq<Outcome>, ghost t: Trace, ghost unrecorded: seq<bool>)
    requires fs.Valid()
    modifies fs
    ensures fs.Valid() && IsKeptRun(fs.lower, fs.faulty, t, ops, results, unrecorded)
    ensures t.states[0] == old(fs.Snap()) && t.states[|ops|] == fs.Snap()
    ensures KeptSmooth(fs.lower, t.states, ops, results, unrecorded) ==>
      Applied(View(old(fs.Snap()), fs.lower), ops, results) == Some(View(fs.Snap(), fs.lower))
  {
    hide View, Plain, KeptFree, Inv, LowerOk, Admitted, Allowed, Seam, LowerShows, Applied, KeptSmooth, Faulty,
      CanRename, HasChild;
    results, unrecorded := [], [];
    t := Trace([fs.Snap()], [fs.calls]);
    for n := 0 to |ops|
      invariant fs.Valid() && IsKeptRun(fs.lower, fs.faulty, t, ops[..n], results, unrecorded)
      invariant t.states[0] == old(fs.Snap()) && t.states[n] == fs.Snap() && t.calls[n] == fs.calls
    {
      var r := Refused;
      ghost var lost := false;
      AllowedIff(View(fs.Snap(), fs.lower), ops[n]);
      if Admitted(View(fs.Snap(), fs.lower), ops[n]) {
        var e;
        e, lost := KeptStep(fs, ops[n]);
        r := if e == 0 then Done else Failed(e);
      }
      KeptRunGrows(fs.lower, fs.faulty, t, ops[..n], results, unrecorded, fs.Snap(), fs.calls, ops[n], r, lost);
      assert ops[..n + 1] == ops[..n] + [ops[n]];
      results := results + [r];
      t := Trace(t.states + [fs.Snap()], t.calls + [fs.calls]);
      unrecorded := unrecorded + [lost];
    }
    assert ops[..|ops|] == ops;
    if KeptSmooth(fs.lower, t.states, ops, results, unrecorded) {
      KeptRunIsPlain(fs.lower, fs.faulty, t, ops, results, unrecorded);
    }
  }

  lemma KeptRunGrows(l: Lower, faulty: nat -> bool, t: Trace, ops: seq<Op>, results: seq<Outcome>,
                     unrecorded: seq<bool>, s: State, c: nat, op: Op, r: Outcome, lost: bool)
    requires IsKeptRun(l, faulty, t, ops, results, unrecorded)
    requires KeptRan(l, Faulty(faulty, t.calls[|ops|], c), t.states[|ops|], s, op, r, lost)
    ensures IsKeptRun(l, faulty, Trace(t.states + [s], t.calls + [c]), ops + [op], results + [r], unrecorded + [lost])
  {
    hide KeptRan, Faulty;
  }

  /**
   * Deletions in a kept folder are durable: after any run, whatever failed in it, a later session that seeds its masks
   * from the folder alone, under a writelayer that leaves the folder alone, resolves every path strictly inside as this
   * one did.
   */
  method RunAndReopen(top: Path, layers: Lower, folder: Fs, w: State, later: State, faulty: nat -> bool, ops: seq<Op>)
    returns (fs: VfsState, again: VfsState, results: seq<Outcome>, ghost t: Trace, ghost unrecorded: seq<bool>)
    requires LowerOk(layers) && Mountable(folder) && LeavesAlone(w, top) && LeavesAlone(later, top)
    ensures fs.Valid() && again.Valid() && fs.lower == again.lower && Seeded(fs.disk, again.Snap())
    ensures IsKeptRun(fs.lower, faulty, t, ops, results, unrecorded)
    ensures Seeded(folder, t.states[0]) && t.states[|ops|] == fs.Snap()
    ensures forall rel :: rel != [] ==>
      NodeOf(ResolveWithKept(later, again.Snap(), top, layers, top + rel)) ==
      NodeOf(ResolveWithKept(w, fs.Snap(), top, layers, top + rel))
  {
    hide Mountable, Inv, LowerOk, LeavesAlone, ResolveWithKept, LowerUnder, View, KeptRan, Applied, KeptFree, Seeded,
      Faulty;
    LowerUnderOk(layers, top);
    fs := new VfsState(LowerUnder(layers, top), folder, faulty);
    results, t, unrecorded := RunKept(fs, ops);
    SeedingOfRun(fs.Snap());
    again := new VfsState(LowerUnder(layers, top), fs.disk, faulty);
    RemountIsSame(fs.Snap(), again.Snap());
    forall rel: Path | rel != []
      ensures NodeOf(ResolveWithKept(later, again.Snap(), top, layers, top + rel)) ==
        NodeOf(ResolveWithKept(w, fs.Snap(), top, layers, top + rel))
    {
      KeptInside(w, fs.Snap(), top, layers, rel);
      KeptInside(later, again.Snap(), top, layers, rel);
    }
  }
}
