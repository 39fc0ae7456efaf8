/** Whole runs of operations, against an ordinary directory tree. */
module OverlayRun {
  import opened Bytes
  import opened Tree
  import opened OverlayState
  import opened OverlaySteps
  import opened OverlayViews
  import opened OverlayRename
  import opened OverlaySeed
  import opened VfsOps

  /** All that a guest sees, as one tree. */
  function View(s: State, l: Lower): Fs {
    map p | p in s.disk.Keys + l.nodes.Keys && Clean(p) && Visible(s, l, p).Some? :: Visible(s, l, p).value
  }

  lemma ViewAt(s: State, l: Lower, p: Path)
    ensures p in View(s, l) <==> Clean(p) && Visible(s, l, p).Some?
    ensures p in View(s, l) ==> Visible(s, l, p) == Some(View(s, l)[p])
  {
  }

  /** It is a proper tree: a root, and everything else inside a directory. */
  lemma ViewIsTree(s: State, l: Lower)
    requires Inv(s)
    ensures TreeOk(View(s, l))
  {
    RootIsVisible(s, l);
    forall p | p in View(s, l) && p != []
      ensures Parent(p) in View(s, l) && View(s, l)[Parent(p)] == Dir
    {
      CleanParent(p);
      ViewAt(s, l, Parent(p));
    }
  }

  lemma KeptIsSameView(s: State, s': State, l: Lower)
    requires ViewKept(s, s', l)
    ensures View(s', l) == View(s, l)
  {
    forall p
      ensures p in View(s', l) <==> p in View(s, l)
      ensures p in View(s, l) ==> View(s', l)[p] == View(s, l)[p]
    {
      ViewAt(s, l, p);
      ViewAt(s', l, p);
    }
  }

  // ---- the plain tree's operations ----

  datatype Op =
    | MkdirOp(v: Path)
    | CreateOp(v: Path)
    | UnlinkOp(v: Path)
    | RmdirOp(v: Path)
    | TruncateOp(v: Path, size: nat)
    | RenameOp(v: Path, to: Path)

  /** What the kernel looks up before it passes an operation on. */
  predicate Admitted(t: Fs, op: Op) {
    && op.v != [] && Clean(op.v) && IsDirIn(t, Parent(op.v))
    && match op
       case MkdirOp(v) => v !in t
       case CreateOp(v) => v !in t
       case UnlinkOp(v) => v in t && t[v].File?
       case RmdirOp(v) => IsDirIn(t, v)
       case TruncateOp(v, _) => v in t && t[v].File?
       case RenameOp(v, to) => v in t && to != [] && Clean(to) && to != v && IsDirIn(t, Parent(to))
  }

  /** What an ordinary tree demands, of a guest that names no markers. */
  ghost predicate Allowed(t: Fs, op: Op) {
    && op.v != [] && Clean(op.v) && IsDirIn(t, Parent(op.v))
    && match op
       case MkdirOp(v) => v !in t
       case CreateOp(v) => v !in t
       case UnlinkOp(v) => v in t && t[v] != Dir
       case RmdirOp(v) => v in t && t[v] == Dir && !HasChild(t, v)
       case TruncateOp(v, _) => v in t && t[v] != Dir
       case RenameOp(v, to) => to != v && Clean(to) && CanRename(t, v, to)
  }

  /** The kernel admits all of that, and leaves to the filesystem what it does not look up. */
  lemma AllowedIff(t: Fs, op: Op)
    ensures Allowed(t, op) <==>
      Admitted(t, op) && (op.RmdirOp? ==> !HasChild(t, op.v)) && (op.RenameOp? ==> CanRename(t, op.v, op.to))
  {
  }

  /** What an operation does to an ordinary tree that allows it. */
  function Plain(t: Fs, op: Op): Fs {
    match op
    case MkdirOp(v) => t[v := Dir]
    case CreateOp(v) => t[v := File([])]
    case UnlinkOp(v) => t - {v}
    case RmdirOp(v) => t - {v}
    case TruncateOp(v, size) => if v in t && t[v].File? then t[v := File(Resized(t[v].data, size))] else t
    case RenameOp(v, to) => Moved(t, v, to)
  }

  /** How an operation of a run ended: not passed on by the kernel, failed with an error, or carried out. */
  datatype Outcome = Refused | Failed(error: int) | Done

  /** The ordinary tree after those operations of a run that were carried out, if it allows each of them. */
  ghost function Applied(t: Fs, ops: seq<Op>, results: seq<Outcome>): Option<Fs>
    requires |results| == |ops|
  {
    if ops == [] then Some(t) else
    var last := |ops| - 1;
    var before := Applied(t, ops[..last], results[..last]);
    if before.None? || !results[last].Done? then before
    else if Allowed(before.value, ops[last]) then Some(Plain(before.value, ops[last])) else None
  }

  /** From one tree to the next: the operation if it was carried out, else nothing. */
  ghost predicate Follows(t: Fs, t': Fs, op: Op, r: Outcome) {
    if r.Done? then Allowed(t, op) && t' == Plain(t, op) else t' == t
  }

  /** Trees that follow one another so end where Applied ends. */
  lemma {:induction false} AppliedAlong(ts: seq<Fs>, ops: seq<Op>, results: seq<Outcome>)
    requires |results| == |ops| && |ts| == |ops| + 1
    requires forall i :: 0 <= i < |ops| ==> Follows(ts[i], ts[i + 1], ops[i], results[i])
    ensures Applied(ts[0], ops, results) == Some(ts[|ops|])
    decreases |ops|
  {
    hide Plain, Allowed;
    if ops != [] {
      var last := |ops| - 1;
      AppliedAlong(ts[..|ops|], ops[..last], results[..last]);
      assert Follows(ts[last], ts[last + 1], ops[last], results[last]);
    }
  }

  /** A path that shows `n` after a step, with nothing below it, as in the plain tree. */
  lemma SetIsPlain(s: State, s': State, l: Lower, v: Path, n: Node)
    requires ViewSet(s, s', l, v, Some(n)) && Clean(v)
    requires Visible(s, l, v) != Some(Dir)
    ensures View(s', l) == View(s, l)[v := n]
  {
    hide View, Visible, Clean;
    forall p
      ensures p in View(s', l) <==> p in View(s, l)[v := n]
      ensures p in View(s', l) ==> View(s', l)[p] == View(s, l)[v := n][p]
    {
      ViewAt(s, l, p);
      ViewAt(s', l, p);
      if Under(v, p) && p != v { NothingBelow(s, l, v, p); }
    }
  }

  lemma GoneIsPlain(s: State, s': State, l: Lower, v: Path)
    requires ViewSet(s, s', l, v, None) && Clean(v)
    requires forall p :: Clean(p) && Under(v, p) && p != v ==> Visible(s, l, p) == None
    ensures View(s', l) == View(s, l) - {v}
  {
    hide View, Visible, Clean;
    forall p
      ensures p in View(s', l) <==> p in View(s, l) - {v}
      ensures p in View(s', l) ==> View(s', l)[p] == View(s, l)[p]
    {
      ViewAt(s, l, p);
      ViewAt(s', l, p);
    }
  }

  /** A rename that shows the moved subtree at its new place moves it as rename(2) does in an ordinary tree. */
  lemma MovesAsPlain(s: State, s': State, l: Lower, a: Path, b: Path)
    requires b != [] && Clean(a) && Clean(b) && MovedView(s, s', l, a, b)
    requires forall p :: Clean(p) && !Under(a, p) && !Under(b, p) ==> Visible(s', l, p) == Visible(s, l, p)
    requires forall p :: Clean(p) && Under(a, p) ==> Visible(s', l, p) == None
    ensures View(s', l) == Moved(View(s, l), a, b)
  {
    hide Visible, Moved, View;
    forall p
      ensures p in View(s', l) <==> p in Moved(View(s, l), a, b)
      ensures p in View(s', l) ==> View(s', l)[p] == Moved(View(s, l), a, b)[p]
    {
      MovedAt(View(s, l), a, b, p);
      ViewAt(s, l, p);
      ViewAt(s', l, p);
      if Under(b, p) {
        var q := p[|b|..];
        assert b + q == p;
        assert Swap(p, b, a) == a + q;
        ViewAt(s, l, a + q);
        SwapClean(p, b, a);
        if Clean(a + q) { SwapSwap(p, b, a); SwapClean(a + q, a, b); TailClean(b, q); }
        if Clean(p) { TailClean(b, q); }
      }
    }
  }

  /** And one that moves it so shows it there. */
  lemma PlainShowsMoved(s: State, s': State, l: Lower, a: Path, b: Path)
    requires Clean(a) && Clean(b) && View(s', l) == Moved(View(s, l), a, b)
    ensures MovedView(s, s', l, a, b)
  {
    hide Visible, Moved, View;
    forall q | Clean(q)
      ensures Visible(s', l, b + q) == Visible(s, l, a + q)
    {
      AtEnds(s, a, b, q);
      ViewAt(s, l, a + q);
      ViewAt(s', l, b + q);
      MovedAt(View(s, l), a, b, b + q);
      assert Swap(b + q, b, a) == a + q;
    }
  }

  lemma RenamedIsPlain(s: State, s': State, l: Lower, a: Path, b: Path)
    requires b != [] && Clean(a) && Clean(b) && RenamedView(s, s', l, a, b)
    ensures View(s', l) == Moved(View(s, l), a, b) <==> DestinationIsFree(DropWhiteout(s, b), l, a, b)
  {
    hide Visible, DestinationIsFree, Moved, View;
    if MovedView(s, s', l, a, b) { MovesAsPlain(s, s', l, a, b); }
    if View(s', l) == Moved(View(s, l), a, b) { PlainShowsMoved(s, s', l, a, b); }
  }

  /**
   * A rename the host lets through is one rename(2) allows on the view exactly when the layers put nothing of another
   * kind, and nothing inside a directory, in its way.
   */
  lemma ReplaceableIff(s: State, l: Lower, a: Path, b: Path)
    requires Inv(s) && LowerOk(l) && Clean(a) && Clean(b) && b != []
    requires Visible(s, l, a).Some? && Visible(s, l, Parent(b)) == Some(Dir) && DiskAllows(s, l, a, b)
    ensures CanRename(View(s, l), a, b) <==> Replaceable(s, l, a, b)
  {
    hide Inv, LowerOk, View, Visible, Resolve;
    CleanParent(b);
    ViewAt(s, l, a);
    ViewAt(s, l, b);
    ViewAt(s, l, Parent(b));
    if Visible(s, l, b) == Some(Dir) { ChildFromBelow(s, l, b); }
  }

  /** Inside a directory of which the writelayer holds nothing only the layers show. */
  lemma ChildFromBelow(s: State, l: Lower, b: Path)
    requires Inv(s) && LowerOk(l) && Clean(b) && Visible(s, l, b) == Some(Dir) && !HasChild(s.disk, b)
    ensures HasChild(View(s, l), b) <==> exists n :: Resolve(s, l, b + [n]).InLower?
  {
    hide Inv, LowerOk, View, Visible, Clean, Resolve;
    if HasChild(View(s, l), b) {
      var q :| q in View(s, l) && q != [] && Parent(q) == b;
      ViewAt(s, l, q);
      ParentLast(q);
      ShowsFromBelow(s, l, b, Last(q));
    }
    if n :| Resolve(s, l, b + [n]).InLower? {
      LowerIsClean(s, l, b, n);
      ShowsFromBelow(s, l, b, n);
      ChildOf(b, n);
      CleanChild(b, n);
      ViewAt(s, l, b + [n]);
      assert b + [n] in View(s, l);
    }
  }

  lemma LowerIsClean(s: State, l: Lower, b: Path, n: Name)
    requires LowerOk(l) && Resolve(s, l, b + [n]).InLower?
    ensures GoodName(n)
  {
    ChildOf(b, n);
  }

  lemma ShowsFromBelow(s: State, l: Lower, b: Path, n: Name)
    requires Visible(s, l, b) == Some(Dir) && !HasChild(s.disk, b)
    ensures Visible(s, l, b + [n]).Some? <==> Resolve(s, l, b + [n]).InLower?
  {
    ChildOf(b, n);
  }

  /** The other way round: the host refuses what rename(2) allows exactly when the destination holds markers. */
  lemma MarkedIff(s: State, l: Lower, a: Path, b: Path)
    requires Inv(s) && LowerOk(l) && Clean(a) && Clean(b) && b != []
    requires Visible(s, l, a).Some? && Visible(s, l, Parent(b)) == Some(Dir) && CanRename(View(s, l), a, b)
    ensures DiskAllows(s, l, a, b) <==> MarkerNamesIn(s.disk, b) == {}
  {
    hide Inv, LowerOk, View, Visible, MarkerNamesIn, OwnNames;
    ViewAt(s, l, a);
    ViewAt(s, l, b);
    OwnIsVisible(s, l, b);
    NoNamesNoChild(s.disk, b);
    if OwnNames(s.disk, b) != {} { OwnNameShows(s, l, b); }
  }

  lemma OwnNameShows(s: State, l: Lower, b: Path)
    requires Inv(s) && Clean(b) && b != [] && Visible(s, l, Parent(b)) == Some(Dir) && OwnNames(s.disk, b) != {}
    ensures Visible(s, l, b) == Some(Dir) && HasChild(View(s, l), b)
  {
    var n :| n in OwnNames(s.disk, b);
    OwnNameResolves(s, l, b, n);
    ChildOf(b, n);
    CleanChild(b, n);
    OwnIsVisible(s, l, b);
    ViewAt(s, l, b + [n]);
  }

  lemma TailClean(b: Path, q: Path)
    requires Clean(b + q)
    ensures Clean(q)
  {
    forall i | 0 <= i < |q| ensures GoodName(q[i]) { assert q[i] == (b + q)[|b| + i]; }
  }

  /**
   * Nothing the layers hold joins what a rename moves, and they show nothing at the destination that rename(2) would
   * not replace; any other operation needs no such care.
   */
  ghost predicate Free(s: State, l: Lower, op: Op) {
    op.RenameOp? && op.to != [] ==>
      DestinationIsFree(DropWhiteout(s, op.to), l, op.v, op.to) && Replaceable(s, l, op.v, op.to)
  }

  /**
   * What an ordinary tree allows and the overlay refuses: to remove a directory that lists a name, though none shows,
   * to rename one that lists a name that does not resolve, and to rename onto a directory that holds markers.
   */
  ghost predicate Seam(s: State, l: Lower, op: Op) {
    match op
    case RmdirOp(v) => Children(s, l, v) != {}
    case RenameOp(v, to) => Denied(s, l, v) || MarkerNamesIn(s.disk, to) != {}
    case _ => false
  }

  lemma FilesAreFree(s: State, l: Lower, a: Path, b: Path)
    requires Inv(s) && Clean(a) && Clean(b) && b != [] && Visible(s, l, a).Some? && Visible(s, l, a) != Some(Dir)
    requires Disjoint(a, b)
    ensures DestinationIsFree(DropWhiteout(s, b), l, a, b)
  {
    var x := DropWhiteout(s, b);
    DropWhiteoutKeeps(s, l, b);
    OutsideStays(s, x, l, b, a);
    forall q
      ensures !JoinsMoved(x, l, a, b, q)
    {
      if q != [] && Clean(q) && Visible(x, l, a + Parent(q)).Some? {
        CleanParent(q);
        AtEnds(x, a, b, Parent(q));
        VisiblePrefix(x, l, a, a + Parent(q));
      }
    }
  }

  lemma AdmittedFacts(s: State, l: Lower, op: Op)
    requires Admitted(View(s, l), op)
    ensures op.v != [] && Clean(op.v) && Visible(s, l, Parent(op.v)) == Some(Dir)
    ensures op.MkdirOp? || op.CreateOp? ==> Visible(s, l, op.v) == None
    ensures op.UnlinkOp? || op.TruncateOp? ==> Visible(s, l, op.v).Some? && Visible(s, l, op.v).value.File?
    ensures op.RmdirOp? ==> Visible(s, l, op.v) == Some(Dir)
    ensures op.RenameOp? ==> Visible(s, l, op.v).Some? && op.to != [] && Clean(op.to) && op.to != op.v
    ensures op.RenameOp? ==> Visible(s, l, Parent(op.to)) == Some(Dir)
  {
    ViewAt(s, l, Parent(op.v));
    ViewAt(s, l, op.v);
    if op.RenameOp? { ViewAt(s, l, Parent(op.to)); }
  }

  lemma TruncatedIsPlain(s: State, s': State, l: Lower, v: Path, size: nat)
    requires Clean(v) && Visible(s, l, v).Some? && Visible(s, l, v).value.File?
    requires ViewSet(s, s', l, v, Some(File(Resized(Visible(s, l, v).value.data, size))))
    ensures View(s', l) == Plain(View(s, l), TruncateOp(v, size))
  {
    ViewAt(s, l, v);
    SetIsPlain(s, s', l, v, File(Resized(Visible(s, l, v).value.data, size)));
  }

  lemma FileGoneIsPlain(s: State, s': State, l: Lower, v: Path)
    requires ViewSet(s, s', l, v, None) && Clean(v) && Visible(s, l, v) != Some(Dir)
    ensures View(s', l) == View(s, l) - {v}
  {
    forall p | Clean(p) && Under(v, p) && p != v
      ensures Visible(s, l, p) == None
    {
      NothingBelow(s, l, v, p);
    }
    GoneIsPlain(s, s', l, v);
  }

  /** The name whose deletion an operation lifts before it can still fail. */
  function Lifted(op: Op): Path {
    if op.RenameOp? then op.to else op.v
  }

  /** A failure of the operation shows nothing: it lifts no deletion, or none that hid a copy in the layers. */
  ghost predicate Quiet(s: State, l: Lower, op: Op) {
    op.MkdirOp? || op.CreateOp? || op.RenameOp? ==> SafeToLift(s, l, Lifted(op))
  }

  /**
   * One operation the kernel admits. Success is a step the plain tree allows and takes exactly when it was free of the
   * layers. What the plain tree allows fails exactly at the seams and when the host failed a call of the operation. A
   * failure that shows nothing keeps the view, and any other only brings back the layers' subtree whose deletion it
   * lifted.
   */
  method Step(fs: VfsState, op: Op) returns (e: int)
    requires fs.Valid() && Admitted(View(fs.Snap(), fs.lower), op)
    modifies fs
    ensures fs.Valid()
    ensures e == 0 ==>
      (Free(old(fs.Snap()), fs.lower, op) <==>
        Allowed(View(old(fs.Snap()), fs.lower), op) &&
        View(fs.Snap(), fs.lower) == Plain(View(old(fs.Snap()), fs.lower), op))
    ensures old(fs.calls) <= fs.calls && (e == EIO <==> Faulty(fs.faulty, old(fs.calls), fs.calls))
    ensures Allowed(View(old(fs.Snap()), fs.lower), op) ==>
      (e == 0 <==> !Seam(old(fs.Snap()), fs.lower, op) && !Faulty(fs.faulty, old(fs.calls), fs.calls))
    ensures e != 0 && Quiet(old(fs.Snap()), fs.lower, op) ==>
      View(fs.Snap(), fs.lower) == View(old(fs.Snap()), fs.lower)
    ensures e != 0 && View(fs.Snap(), fs.lower) != View(old(fs.Snap()), fs.lower) ==>
      Restored(old(fs.Snap()), fs.Snap(), fs.lower, Lifted(op))
  {
    hide View, Visible, Inv, LowerOk, ViewSet, ViewKept, RenamedView, DestinationIsFree, Moved, Resized, SafeToLift,
      Restored, Denied, Children, Replaceable, DiskAllows, Refusal, CanRename, HasChild, MarkerNamesIn, Faulty, Allowed;
    var l := fs.lower;
    ghost var c0 := fs.calls;
    FaultyOne(fs.faulty, c0);
    ghost var s := fs.Snap();
    AdmittedFacts(s, l, op);
    AllowedIff(View(s, l), op);
    match op {
      case MkdirOp(v) =>
        e := fs.VfsMkdir(v);
        if e == 0 { SetIsPlain(s, fs.Snap(), l, v, Dir); }
      case CreateOp(v) =>
        e := fs.VfsCreate(v);
        if e == 0 { SetIsPlain(s, fs.Snap(), l, v, File([])); }
      case UnlinkOp(v) =>
        e := fs.VfsUnlink(v);
        if e == 0 { FileGoneIsPlain(s, fs.Snap(), l, v); }
      case RmdirOp(v) =>
        e := fs.VfsRmdir(v);
        if e == 0 {
          GoneIsPlain(s, fs.Snap(), l, v);
          NothingInside(s, l, v);
        }
      case TruncateOp(v, size) =>
        e := fs.VfsTruncate(v, size);
        if e == 0 { TruncatedIsPlain(s, fs.Snap(), l, v, size); }
      case RenameOp(v, to) =>
        e := fs.VfsRename(v, to);
        if e == 0 {
          RenamedIsPlain(s, fs.Snap(), l, v, to);
          ReplaceableIff(s, l, v, to);
        }
        RenameSeam(s, l, v, to, e);
    }
    if e != 0 && ViewKept(s, fs.Snap(), l) { KeptIsSameView(s, fs.Snap(), l); }
  }

  lemma NothingInside(s: State, l: Lower, v: Path)
    requires Clean(v) && forall p :: Clean(p) && Under(v, p) && p != v ==> Visible(s, l, p) == None
    ensures !HasChild(View(s, l), v)
  {
    forall q | q in View(s, l) && q != []
      ensures Parent(q) != v
    {
      ViewAt(s, l, q);
      UnderParent(v, q);
      NotUnderParent(q);
    }
  }

  /** A rename that rename(2) allows is refused, host errors aside, exactly at a denied name or a marker in its way. */
  lemma RenameSeam(s: State, l: Lower, a: Path, b: Path, e: int)
    requires Inv(s) && LowerOk(l) && Clean(a) && Clean(b) && a != [] && b != []
    requires Visible(s, l, a).Some? && Visible(s, l, Parent(b)) == Some(Dir)
    requires e == 0 ==> !Denied(s, l, a) && DiskAllows(s, l, a, b)
    requires e != 0 ==> Refusal(s, l, a, b, e)
    ensures CanRename(View(s, l), a, b) ==>
      (e == 0 ==> !Seam(s, l, RenameOp(a, b))) && (e != 0 && e != EIO ==> Seam(s, l, RenameOp(a, b)))
  {
    hide Inv, LowerOk, View, Visible, Denied, MarkerNamesIn, HasChild;
    AtVisible(s, l, a);
    ViewAt(s, l, a);
    if CanRename(View(s, l), a, b) { MarkedIff(s, l, a, b); }
  }

  /** One step of a run from `s` to `s'`, whatever its outcome; `faulty` if the host failed a call in it. */
  ghost predicate Ran(l: Lower, faulty: bool, s: State, s': State, op: Op, r: Outcome) {
    && (r.Refused? <==> !Admitted(View(s, l), op)) && (r.Refused? ==> s' == s && !faulty)
    && (r.Done? ==> (Free(s, l, op) <==> Allowed(View(s, l), op) && View(s', l) == Plain(View(s, l), op)))
    && (Allowed(View(s, l), op) ==> (r.Done? <==> !Seam(s, l, op) && !faulty))
    && (r.Done? ==> !faulty) && (r.Failed? ==> (r.error == EIO <==> faulty))
    && (r.Failed? && Quiet(s, l, op) ==> View(s', l) == View(s, l))
    && (r.Failed? && View(s', l) != View(s, l) ==> Restored(s, s', l, Lifted(op)))
  }

  /** A run's trace: the states it went through, and the number of host calls made before each. */
  datatype Trace = Trace(states: seq<State>, calls: seq<nat>)

  /** A whole run, step by step, on a host that fails the calls `faulty` says. */
  ghost predicate IsRun(l: Lower, faulty: nat -> bool, t: Trace, ops: seq<Op>, results: seq<Outcome>) {
    && |results| == |ops| && |t.states| == |t.calls| == |ops| + 1
    && forall i :: 0 <= i < |ops| ==>
      Ran(l, Faulty(faulty, t.calls[i], t.calls[i + 1]), t.states[i], t.states[i + 1], ops[i], results[i])
  }

  /** Every operation carried out was free of the layers' names, and every failed one showed nothing. */
  ghost predicate Smooth(l: Lower, states: seq<State>, ops: seq<Op>, results: seq<Outcome>)
    requires |results| == |ops| && |states| == |ops| + 1
  {
    && (forall i :: 0 <= i < |ops| && results[i].Done? ==> Free(states[i], l, ops[i]))
    && (forall i :: 0 <= i < |ops| && results[i].Failed? ==> Quiet(states[i], l, ops[i]))
  }

  lemma RunIsPlain(l: Lower, faulty: nat -> bool, t: Trace, ops: seq<Op>, results: seq<Outcome>)
    requires IsRun(l, faulty, t, ops, results) && Smooth(l, t.states, ops, results)
    ensures Applied(View(t.states[0], l), ops, results) == Some(View(t.states[|ops|], l))
  {
    hide View, Plain, Free, Quiet, Admitted, Allowed, Seam, Restored, Applied, Faulty;
    var ts := seq(|t.states|, i requires 0 <= i < |t.states| => View(t.states[i], l));
    AppliedAlong(ts, ops, results);
  }

  /**
   * Any run of operations on one mount, whatever is refused or fails on the way. An ordinary tree allows the operations
   * that were carried out and shows after them what the guest sees, as long as no rename met names of the layers at its
   * destination and no operation failed after it lifted a deletion that hid a copy in the layers. Step by step, what
   * the ordinary tree allows is carried out unless the host fails or a seam is met. The masks stay in step with the
   * markers on disk whatever happened.
   */
  method Run(fs: VfsState, ops: seq<Op>) returns (results: seq<Outcome>, ghost t: Trace)
    requires fs.Valid()
    modifies fs
    ensures fs.Valid() && IsRun(fs.lower, fs.faulty, t, ops, results)
    ensures t.states[0] == old(fs.Snap()) && t.states[|ops|] == fs.Snap()
    ensures Smooth(fs.lower, t.states, ops, results) ==>
      Applied(View(old(fs.Snap()), fs.lower), ops, results) == Some(View(fs.Snap(), fs.lower))
  {
    hide View, Plain, Free, Quiet, Inv, LowerOk, Admitted, Allowed, Seam, Restored, Smooth, Applied, Faulty, CanRename,
      HasChild;
    results := [];
    t := Trace([fs.Snap()], [fs.calls]);
    for n := 0 to |ops|
      invariant fs.Valid() && IsRun(fs.lower, fs.faulty, t, ops[..n], results)
      invariant t.states[0] == old(fs.Snap()) && t.states[n] == fs.Snap() && t.calls[n] == fs.calls
    {
      var r := Refused;
      FaultyOne(fs.faulty, fs.calls);
      AllowedIff(View(fs.Snap(), fs.lower), ops[n]);
      if Admitted(View(fs.Snap(), fs.lower), ops[n]) {
        var e := Step(fs, ops[n]);
        r := if e == 0 then Done else Failed(e);
      }
      RunGrows(fs.lower, fs.faulty, t, ops[..n], results, fs.Snap(), fs.calls, ops[n], r);
      assert ops[..n + 1] == ops[..n] + [ops[n]];
      results := results + [r];
      t := Trace(t.states + [fs.Snap()], t.calls + [fs.calls]);
    }
    assert ops[..|ops|] == ops;
    if Smooth(fs.lower, t.states, ops, results) { RunIsPlain(fs.lower, fs.faulty, t, ops, results); }
  }

  lemma RunGrows(l: Lower, faulty: nat -> bool, t: Trace, ops: seq<Op>, results: seq<Outcome>, s: State, c: nat,
                 op: Op, r: Outcome)
    requires IsRun(l, faulty, t, ops, results)
    requires Ran(l, Faulty(faulty, t.calls[|ops|], c), t.states[|ops|], s, op, r)
    ensures IsRun(l, faulty, Trace(t.states + [s], t.calls + [c]), ops + [op], results + [r])
  {
    hide Ran, Faulty;
  }

  /** After any run, mounting the same layers over the same writelayer again resolves every path as before. */
  method RunAndRemount(lower: Lower, writelayer: Fs, faulty: nat -> bool, ops: seq<Op>)
    returns (first: VfsState, again: VfsState, results: seq<Outcome>, ghost t: Trace)
    requires LowerOk(lower) && Mountable(writelayer)
    ensures first.Valid() && again.Valid() && first.lower == again.lower == lower
    ensures IsRun(lower, faulty, t, ops, results)
    ensures Seeded(writelayer, t.states[0]) && t.states[|ops|] == first.Snap()
    ensures again.Snap() == first.Snap()
    ensures forall p :: Resolve(again.Snap(), lower, p) == Resolve(first.Snap(), lower, p)
  {
    hide Mountable, Inv, LowerOk, Resolve, View, Applied, Ran, Smooth, Seeded, Faulty;
    first := new VfsState(lower, writelayer, faulty);
    results, t := Run(first, ops);
    SeedingOfRun(first.Snap());
    again := new VfsState(lower, first.disk, faulty);
    RemountIsSame(first.Snap(), again.Snap());
  }

  lemma SeedingOfRun(s: State)
    requires Inv(s)
    ensures Mountable(s.disk)
  {
    forall v | v != [] && Wh(Last(v)) != OPQ && WhPath(v) in s.disk
      ensures v !in s.disk
    {
      MarkerPathLast(v);
      MarkerNames(Last(v));
      ParentLast(v);
    }
  }
}
