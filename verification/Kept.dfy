/**
 * A kept folder: the durable upper store of its own subtree, with its deletion markers inside it. Paths are relative
 * to the folder's root, and the layers below are seen from there. A `VfsState` holds the folder, its two masks and
 * that lower view.
 */
module Kept {
  import opened Bytes
  import opened Tree
  import opened OverlayState
  import opened OverlaySteps
  import opened OverlayViews
  import opened OverlayRename
  import opened VfsOps

  // ---- resolution ----

  /** The upward walk of KeptMasked, from `cur` to the folder's root. */
  predicate MaskedFrom(s: State, cur: Path) {
    || (cur != [] && cur in s.wh)
    || cur in s.opq
    || (cur != [] && MaskedFrom(s, Parent(cur)))
  }

  /** KeptMasked: the path or an ancestor deleted here, or an ancestor made again. */
  predicate KeptMasked(s: State, rel: Path) {
    rel != [] && (rel in s.wh || MaskedFrom(s, Parent(rel)))
  }

  /** The folder's own names first, never masked by its markers; then the layers below, unless masked. */
  function KeptResolve(s: State, l: Lower, rel: Path): Hit {
    if rel in s.disk then InWriteLayer(s.disk[rel])
    else if KeptMasked(s, rel) then Miss
    else if rel in l.nodes then InLower(l.nodes[rel]) else Miss
  }

  lemma {:induction false} MaskedIsBlocked(s: State, rel: Path)
    requires rel != []
    ensures MaskedFrom(s, Parent(rel)) <==> Blocked(s, rel)
    decreases |rel|
  {
    var up := Parent(rel);
    assert UnderOpaque(s.opq, rel) <==> up in s.opq || UnderOpaque(s.opq, up);
    assert UnderWhiteout(s.wh, rel) <==> up != [] && (up in s.wh || UnderWhiteout(s.wh, up));
    if up != [] { MaskedIsBlocked(s, up); } else { assert UnderOpaque(s.opq, up) <==> [] in s.opq; }
  }

  /** While nothing is both present and deleted, a kept folder resolves as a writelayer with the same entries would. */
  lemma KeptAgrees(s: State, l: Lower, rel: Path)
    requires Inv(s)
    ensures KeptResolve(s, l, rel) == Resolve(s, l, rel)
  {
    if rel != [] { MaskedIsBlocked(s, rel); }
  }

  // ---- a kept folder inside the whole mount ----

  /** The layers below, seen from the folder's root at `top`. */
  function LowerUnder(l: Lower, top: Path): Lower {
    var rels := set q | q in l.nodes && Under(top, q) :: q[|top|..];
    Lower(map r | r in rels && top + r in l.nodes :: l.nodes[top + r], r => l.names(top + r))
  }

  lemma LowerUnderHas(l: Lower, top: Path, r: Path)
    ensures r in LowerUnder(l, top).nodes <==> top + r in l.nodes
    ensures r in LowerUnder(l, top).nodes ==> LowerUnder(l, top).nodes[r] == l.nodes[top + r]
  {
    if top + r in l.nodes { assert Under(top, top + r) && (top + r)[|top|..] == r; }
  }

  /** The view from inside is as well-formed as the whole. */
  lemma LowerUnderOk(l: Lower, top: Path)
    requires LowerOk(l)
    ensures LowerOk(LowerUnder(l, top))
  {
    forall p | p in LowerUnder(l, top).nodes && p != []
      ensures Parent(p) in LowerUnder(l, top).nodes && Last(p) in LowerUnder(l, top).names(Parent(p))
    {
      LowerUnderHas(l, top, p);
      LowerUnderHas(l, top, Parent(p));
      assert Parent(top + p) == top + Parent(p) && Last(top + p) == Last(p);
    }
  }

  /** Resolve with one kept folder `k` on top of the layers, at `top`, and a writelayer `w` over everything. */
  function ResolveWithKept(w: State, k: State, top: Path, l: Lower, v: Path): Hit {
    if v != [] && v in w.wh then Miss else
    if v in w.disk then InWriteLayer(w.disk[v]) else
    if Blocked(w, v) then Miss else
    if Under(top, v) && v[|top|..] in k.disk then InLower(k.disk[v[|top|..]]) else
    if Under(top, v) && KeptMasked(k, v[|top|..]) then Miss else
    if v in l.nodes then InLower(l.nodes[v]) else Miss
  }

  /** The writelayer leaves the folder alone: nothing of its own inside, no mask on the way there or inside. */
  ghost predicate LeavesAlone(w: State, top: Path) {
    && (forall v :: Under(top, v) && v != top ==> v !in w.disk && v !in w.wh && v !in w.opq)
    && (top in w.disk ==> w.disk[top] == Dir) && top !in w.wh && top !in w.opq && !Blocked(w, top)
  }

  lemma {:induction false} NotBlockedInside(w: State, top: Path, v: Path)
    requires LeavesAlone(w, top) && Under(top, v)
    ensures !Blocked(w, v)
    decreases |v|
  {
    if v != top {
      UnderParent(top, v);
      NotBlockedInside(w, top, Parent(v));
    }
  }

  /** Strictly inside, the whole mount resolves as the folder alone does over the layers seen from its root. */
  lemma KeptInside(w: State, k: State, top: Path, l: Lower, rel: Path)
    requires LeavesAlone(w, top) && Inv(k) && rel != []
    ensures NodeOf(ResolveWithKept(w, k, top, l, top + rel)) == At(k, LowerUnder(l, top), rel)
  {
    var v := top + rel;
    assert Under(top, v) && v[|top|..] == rel;
    NotBlockedInside(w, top, v);
    KeptAgrees(k, LowerUnder(l, top), rel);
    LowerUnderHas(l, top, rel);
  }

  // ---- markers ----

  /** HideLower, for a name inside the folder: the marker, then the mask; recording may fail. */
  method HideLower(fs: VfsState, v: Path) returns (e: int)
    requires v != [] && DirsFree(fs.disk, Parent(v))
    modifies fs`disk, fs`whiteouts, fs`calls
    ensures e == 0 ==> fs.Snap() == AddWhiteout(old(fs.Snap()), v)
    ensures e != 0 ==> fs.Snap() == old(fs.Snap()) || fs.Snap() == MakeDirs(old(fs.Snap()), Parent(v))
    ensures e == 0 || e == EIO
    ensures old(fs.calls) <= fs.calls && (e == EIO <==> Faulty(fs.faulty, old(fs.calls), fs.calls))
  {
    e := fs.EnsureWriteParent(v);
    if e != 0 { return; }
    var failed := fs.Fails();
    if failed { return EIO; }
    fs.disk := fs.disk[WhPath(v) := File([])];
    fs.whiteouts := fs.whiteouts + {v};
  }

  /** UnhideLower: the marker and the mask go, if there are any. */
  method UnhideLower(fs: VfsState, v: Path)
    requires v != []
    modifies fs`disk, fs`whiteouts
    ensures fs.Snap() == Unhidden(old(fs.Snap()), v, old(fs.whiteouts))
  {
    if v in fs.whiteouts {
      fs.disk := fs.disk - {WhPath(v)};
      fs.whiteouts := fs.whiteouts - {v};
    }
  }

  method KeptMarkOpaque(fs: VfsState, d: Path) returns (e: int)
    modifies fs`disk, fs`opaques, fs`calls
    ensures e == 0 ==> fs.Snap() == AddOpaque(old(fs.Snap()), d)
    ensures e != 0 ==> fs.Snap() == old(fs.Snap()) && e == EIO
    ensures old(fs.calls) <= fs.calls && (e == EIO <==> Faulty(fs.faulty, old(fs.calls), fs.calls))
  {
    var failed := fs.Fails();
    if failed { return EIO; }
    fs.disk := fs.disk[OpqPath(d) := File([])];
    fs.opaques := fs.opaques + {d};
    e := 0;
  }

  // ---- making ----

  /** A name made while its marker still stands, and the marker dropped after: the same as the other way round. */
  lemma UnhideAfter(t: State, v: Path, n: Node)
    requires Inv(t) && v != [] && Clean(v)
    ensures Unhidden(Put(t, v, n), v, t.wh) == Put(DropWhiteout(t, v), v, n)
    ensures Unhidden(AddOpaque(Put(t, v, n), v), v, t.wh) == AddOpaque(Put(DropWhiteout(t, v), v, n), v)
  {
    hide TreeOk, DiskClean, Mirrors;
    MarkerPathsNotClean(v);
    CleanParent(v);
    OpqIsNoWh(v, v);
    NoMarkerNoMask(t, v);
  }

  /** UnhideLower's result. */
  function Unhidden(s: State, v: Path, wh: set<Path>): State
    requires v != []
  {
    if v in wh then DropWhiteout(s, v) else s
  }

  lemma NoMarkerNoMask(t: State, v: Path)
    requires Inv(t) && v != [] && Clean(v)
    ensures v !in t.wh ==> DropWhiteout(t, v) == t
  {
    WhOnDisk(t, v);
    if v !in t.wh { assert t.disk - {WhPath(v)} == t.disk && t.wh - {v} == t.wh; }
  }

  /** A folder that was only made ready shows what it showed. */
  lemma ReadyKeepsView(s: State, t: State, l: Lower, v: Path)
    requires Inv(s) && LowerOk(l) && v != [] && Clean(v) && Visible(s, l, Parent(v)) == Some(Dir)
    requires DirsFree(s.disk, Parent(v)) && t == MakeDirs(s, Parent(v))
    ensures Inv(t) && ViewKept(s, t, l) && Visible(t, l, Parent(v)) == Some(Dir)
  {
    CleanParent(v);
    MakeDirsKeeps(s, l, Parent(v));
    SameEverywhere(s, t, l);
  }

  lemma ParentIsReady(s: State, l: Lower, v: Path)
    requires Inv(s) && v != [] && Clean(v) && Visible(s, l, Parent(v)) == Some(Dir)
    ensures DirsFree(s.disk, Parent(v))
    ensures IsDirIn(s.disk, Parent(v)) ==> s == MakeDirs(s, Parent(v))
  {
    CleanParent(v);
    MakeDirsKeeps(s, l, Parent(v));
  }

  /** VfsCreate in a kept folder: the empty file, nothing else; a failure leaves the view as it was, deletions too. */
  method KeptCreate(fs: VfsState, v: Path) returns (e: int)
    requires fs.Valid() && fs.ParentThere(v)
    modifies fs
    ensures fs.Valid()
    ensures e == 0 && Visible(old(fs.Snap()), fs.lower, v) == None ==>
      ViewSet(old(fs.Snap()), fs.Snap(), fs.lower, v, Some(File([])))
    ensures e != 0 ==> ViewKept(old(fs.Snap()), fs.Snap(), fs.lower)
    ensures old(fs.calls) <= fs.calls && (e == EIO ==> Faulty(fs.faulty, old(fs.calls), fs.calls))
    ensures Visible(old(fs.Snap()), fs.lower, v) == None && !Faulty(fs.faulty, old(fs.calls), fs.calls) ==> e == 0
  {
    hide Faulty, Inv, LowerOk, Visible, ViewSet, ViewKept, Blocked, SameOutside, Put, DropWhiteout, MakeDirs;
    ghost var l := fs.lower;
    ghost var s := fs.Snap();
    ParentIsReady(s, l, v);
    SameView0(s, l);
    ghost var c0 := fs.calls;
    FaultyOne(fs.faulty, c0);
    var ready := fs.EnsureWriteParent(v);
    ghost var c1 := fs.calls;
    ghost var t := fs.Snap();
    assert t == if ready == 0 then MakeDirs(s, Parent(v)) else s by { MadeReady(s, t, v, ready); }
    if ready == 0 { ReadyKeepsView(s, t, l, v); }
    if ready == 0 { KeptNothingInTheWay(s, t, l, v); }
    e := fs.HostCreate(v);
    FaultyParts(fs.faulty, c0, c1, fs.calls);
    if e != 0 { return; }
    CreatedInKept(s, t, l, v);
    assert fs.Snap() == (if v in t.disk then t else Put(t, v, File([]))) by { IsPut(t, fs.Snap(), v, File([])); }
    UnhideLower(fs, v);
  }

  lemma MadeReady(s: State, t: State, v: Path, e: int)
    requires v != [] && t.wh == s.wh && t.opq == s.opq
    requires e == 0 ==> DirsFree(s.disk, Parent(v)) && t.disk == CreateDirs(s.disk, Parent(v))
    requires e != 0 ==> t.disk == s.disk
    ensures e == 0 ==> t == MakeDirs(s, Parent(v))
    ensures e != 0 ==> t == s
  {
  }

  /** Where nothing shows, once the directory is there, the host finds nothing in the way. */
  lemma KeptNothingInTheWay(s: State, t: State, l: Lower, v: Path)
    requires Inv(s) && v != [] && Clean(v) && Visible(s, l, Parent(v)) == Some(Dir)
    requires DirsFree(s.disk, Parent(v)) && t == MakeDirs(s, Parent(v))
    ensures Visible(s, l, v) == None ==> CanMake(t.disk, v)
  {
    hide Inv, Visible, MakeDirs;
    CleanParent(v);
    OwnIsVisible(s, l, v);
    MakeDirsKeeps(s, l, Parent(v));
    NotUnderParent(v);
  }

  lemma IsPut(t: State, u: State, v: Path, n: Node)
    requires u.wh == t.wh && u.opq == t.opq
    ensures u.disk == t.disk ==> u == t
    ensures u.disk == t.disk[v := n] ==> u == Put(t, v, n)
  {
  }

  lemma SameView0(s: State, l: Lower)
    ensures ViewKept(s, s, l)
  {
  }

  /** The file made at `v` over a folder `t` that shows what `s` showed. */
  lemma CreatedInKept(s: State, t: State, l: Lower, v: Path)
    requires Inv(t) && LowerOk(l) && v != [] && Clean(v) && ViewKept(s, t, l) && Visible(t, l, Parent(v)) == Some(Dir)
    requires v in t.disk || CanMake(t.disk, v)
    ensures var made := if v in t.disk then t else Put(t, v, File([]));
      var r := Unhidden(made, v, made.wh);
      Inv(r) && (Visible(s, l, v) == None ==> ViewSet(s, r, l, v, Some(File([]))))
  {
    hide Visible, Blocked;
    var x := DropWhiteout(t, v);
    DropWhiteoutKeeps(t, l, v);
    MarkerPathsNotClean(v);
    UnhideAfter(t, v, File([]));
    NoMarkerNoMask(t, v);
    CleanParent(v);
    if v in t.disk {
      PresentNotDeleted(t, v);
      CreateRefines(t, t, t, t, l, v);
    } else {
      CreateRefines(t, x, x, Put(x, v, File([])), l, v);
    }
    ViewChain(s, t, if v in t.disk then t else Put(x, v, File([])), l, v, Some(File([])));
  }

  lemma PresentNotDeleted(s: State, v: Path)
    requires Inv(s) && v in s.disk && v != [] && Clean(v)
    ensures v !in s.wh && s == DropWhiteout(s, v)
  {
    NoMarkerNoMask(s, v);
  }

  lemma ViewChain(a: State, b: State, c: State, l: Lower, v: Path, n: Option<Node>)
    requires ViewKept(a, b, l) && Clean(v)
    ensures ViewSet(b, c, l, v, n) ==> ViewSet(a, c, l, v, n)
    ensures Visible(a, l, v) == Visible(b, l, v)
  {
  }

  /**
   * VfsMkdir in a kept folder: an empty directory, whatever was deleted under that name before. A failure, also one
   * to write the opaque marker, leaves the view as it was.
   */
  method KeptMkdir(fs: VfsState, v: Path) returns (e: int)
    requires fs.Valid() && fs.ParentThere(v)
    modifies fs
    ensures fs.Valid()
    ensures e == 0 && Visible(old(fs.Snap()), fs.lower, v) == None ==>
      ViewSet(old(fs.Snap()), fs.Snap(), fs.lower, v, Some(Dir))
    ensures e != 0 ==> ViewKept(old(fs.Snap()), fs.Snap(), fs.lower)
    ensures old(fs.calls) <= fs.calls && (e == EIO ==> Faulty(fs.faulty, old(fs.calls), fs.calls))
    ensures Visible(old(fs.Snap()), fs.lower, v) == None && !Faulty(fs.faulty, old(fs.calls), fs.calls) ==> e == 0
  {
    hide Faulty, Inv, LowerOk, Visible, ViewSet, ViewKept, Blocked, SameOutside, Put, DropWhiteout, MakeDirs, AddOpaque,
      HasChild;
    ghost var l := fs.lower;
    ghost var s := fs.Snap();
    var overDeleted := v in fs.whiteouts;
    ParentIsReady(s, l, v);
    SameView0(s, l);
    ghost var c0 := fs.calls;
    FaultyOne(fs.faulty, c0);
    var ready := fs.EnsureWriteParent(v);
    ghost var c1 := fs.calls;
    ghost var t := fs.Snap();
    MadeReady(s, t, v, ready);
    if ready == 0 { ReadyKeepsView(s, t, l, v); }
    if ready == 0 { KeptNothingInTheWay(s, t, l, v); }
    e := fs.HostMkdir(v);
    ghost var c2 := fs.calls;
    FaultyParts(fs.faulty, c0, c1, c2);
    if e != 0 { return; }
    IsPut(t, fs.Snap(), v, Dir);
    MadeInKept(s, t, l, v);
    if overDeleted {
      e := KeptMarkOpaque(fs, v);
      FaultyParts(fs.faulty, c0, c2, fs.calls);
      if e != 0 {
        fs.HostRmdir(v);
        MadeAndRemoved(t, fs.disk, v);
        return;
      }
    }
    SameDeleted(s, t, v);
    UnhideLower(fs, v);
    e := 0;
  }

  lemma SameDeleted(s: State, t: State, v: Path)
    requires v != []
    ensures DirsFree(s.disk, Parent(v)) && t == MakeDirs(s, Parent(v)) ==> t.wh == s.wh
    ensures AddOpaque(Put(t, v, Dir), v).wh == t.wh && Put(t, v, Dir).wh == t.wh
  {
  }

  lemma MadeAndRemoved(t: State, d: Fs, v: Path)
    requires Inv(t) && v !in t.disk
    requires var made := t.disk[v := Dir];
      d == if IsDirIn(made, v) && !HasChild(made, v) then made - {v} else made
    ensures d == t.disk
  {
    AbsentHasNoChild(t.disk, v);
    forall q | q in t.disk[v := Dir] && q != [] ensures Parent(q) != v {
      if q == v { NotUnderParent(v); }
    }
    assert t.disk[v := Dir] - {v} == t.disk;
  }

  lemma MadeInKept(s: State, t: State, l: Lower, v: Path)
    requires Inv(t) && LowerOk(l) && v != [] && Clean(v) && ViewKept(s, t, l) && Visible(t, l, Parent(v)) == Some(Dir)
    requires CanMake(t.disk, v)
    ensures var made := if v in t.wh then AddOpaque(Put(t, v, Dir), v) else Put(t, v, Dir);
      var r := Unhidden(made, v, made.wh);
      Inv(r) && (Visible(s, l, v) == None ==> ViewSet(s, r, l, v, Some(Dir)))
  {
    hide Visible, Blocked, Inv, SameOutside, CanMake, LowerOk;
    var x := DropWhiteout(t, v);
    DropWhiteoutKeeps(t, l, v);
    MarkerPathsNotClean(v);
    CleanParent(v);
    UnhideAfter(t, v, Dir);
    NoMarkerNoMask(t, v);
    CanMakeStill(t, x, v);
    var last := if v in t.wh then AddOpaque(Put(x, v, Dir), v) else Put(x, v, Dir);
    MkdirRefines(t, x, x, last, l, v, v in t.wh);
    ViewChain(s, t, last, l, v, Some(Dir));
  }

  lemma CanMakeStill(t: State, x: State, v: Path)
    requires v != [] && Clean(v) && CanMake(t.disk, v) && x == DropWhiteout(t, v)
    ensures CanMake(x.disk, v)
  {
    MarkerPathsNotClean(v);
    CleanParent(v);
  }

  // ---- removing ----

  /**
   * VfsUnlink in a kept folder. Success hides the name for good. A failure keeps the view, unless the own copy went
   * and its deletion could not be recorded: then the layers' subtree is back.
   */
  method KeptUnlink(fs: VfsState, v: Path) returns (e: int, ghost unrecorded: bool)
    requires fs.Valid() && fs.ParentThere(v) && Visible(fs.Snap(), fs.lower, v).Some?
    modifies fs
    ensures fs.Valid()
    ensures e == 0 ==> ViewSet(old(fs.Snap()), fs.Snap(), fs.lower, v, None)
    ensures e != 0 && !unrecorded ==> ViewKept(old(fs.Snap()), fs.Snap(), fs.lower)
    ensures e != 0 ==> e == EIO || Visible(old(fs.Snap()), fs.lower, v) == Some(Dir)
    ensures old(fs.calls) <= fs.calls && (e == EIO <==> Faulty(fs.faulty, old(fs.calls), fs.calls))
    ensures unrecorded ==> e == EIO && v in old(fs.disk) && Restored(old(fs.Snap()), fs.Snap(), fs.lower, v)
  {
    hide Faulty, Inv, LowerOk, Visible, ViewSet, ViewKept, Blocked, SameOutside, MakeDirs, AddWhiteout, Restored;
    ghost var l := fs.lower;
    ghost var s := fs.Snap();
    ghost var c0 := fs.calls;
    FaultyOne(fs.faulty, c0);
    unrecorded := false;
    SameView0(s, l);
    OwnIsVisible(s, l, v);
    e := fs.HostUnlink(v);
    ghost var c1 := fs.calls;
    if e != 0 && e != ENOENT { return; }
    ghost var s1 := fs.Snap();
    if e == 0 { UnlinkKeeps(s, l, v); } else { OutsideSame(s, l, v); assert s1 == s; }
    HideRest(s, s1, l, v);
    KeptAgrees(s1, l, v);
    if KeptResolve(fs.Snap(), fs.lower, v) != Miss {
      ghost var own := e == 0;
      e := HideLower(fs, v);
      FaultyParts(fs.faulty, c0, c1, fs.calls);
      if e != 0 {
        Unrecorded(s, s1, fs.Snap(), l, v);
        unrecorded := own;
      }
      return;
    }
    if e == ENOENT { VisibleIsThere(s, l, v); }
  }

  lemma VisibleIsThere(s: State, l: Lower, v: Path)
    requires Inv(s) && Visible(s, l, v).Some?
    ensures KeptResolve(s, l, v) != Miss && Resolve(s, l, v) != Miss
    ensures v !in s.disk ==> v in l.nodes && At(s, l, v) == Some(l.nodes[v])
  {
    KeptAgrees(s, l, v);
  }

  /** The folder's own entry is off the disk and the deletion was not recorded. */
  lemma Unrecorded(s: State, s1: State, s2: State, l: Lower, v: Path)
    requires Inv(s1) && LowerOk(l) && SameOutside(s, s1, l, v) && v != [] && Clean(v) && v !in s1.disk
    requires Visible(s, l, Parent(v)) == Some(Dir) && Resolve(s1, l, v) != Miss
    requires DirsFree(s1.disk, Parent(v)) && (s2 == s1 || s2 == MakeDirs(s1, Parent(v)))
    ensures Inv(s2) && (s == s1 ==> ViewKept(s, s2, l)) && Restored(s, s2, l, v)
  {
    hide Inv, Visible, MakeDirs, DirsFree;
    NotUnderParent(v);
    ParentStays(s, s1, l, v);
    CleanParent(v);
    MakeDirsKeeps(s1, l, Parent(v));
    SameEverywhere(s1, s2, l);
    LayersShowWhole(s1, l, v);
  }

  /** KeptDropMarkersUnder: the markers directly in `v` go, on disk and in memory. */
  method DropMarkersUnder(fs: VfsState, v: Path)
    modifies fs`disk, fs`whiteouts, fs`opaques
    ensures fs.Snap() == Swept(old(fs.Snap()), v)
  {
    var listing := set q | q in fs.disk && q != [] && Parent(q) == v;
    ghost var before, seen: set<Path> := fs.disk, {};
    while listing != {}
      invariant listing !! seen && listing + seen == set q | q in before && q != [] && Parent(q) == v
      invariant fs.disk == before - (set q | q in seen && IsMarker(Last(q)))
      invariant fs.whiteouts == old(fs.whiteouts) && fs.opaques == old(fs.opaques)
      decreases listing
    {
      var q :| q in listing;
      if IsMarker(Last(q)) {
        fs.disk := fs.disk - {q};
      }
      listing := listing - {q};
      seen := seen + {q};
    }
    assert (set q | q in seen && IsMarker(Last(q))) == MarkersIn(before, v);
    fs.whiteouts := SweepMask(fs.whiteouts, v);
    fs.opaques := fs.opaques - {v};
  }

  /** The names directly in `v` are erased from a mask. */
  method SweepMask(m: set<Path>, v: Path) returns (r: set<Path>)
    ensures r == set w | w in m && !(w != [] && Parent(w) == v)
  {
    r := m;
    var rest := m;
    while rest != {}
      invariant rest <= m && r == set w | w in m && (w in rest || !(w != [] && Parent(w) == v))
      decreases rest
    {
      var w :| w in rest;
      if Under(v, w) && |w| == |v| + 1 {
        r := r - {w};
      }
      assert Under(v, w) && |w| == |v| + 1 <==> w != [] && Parent(w) == v;
      rest := rest - {w};
    }
  }

  function MarkersIn(t: Fs, v: Path): set<Path> {
    set q | q in t && q != [] && Parent(q) == v && IsMarker(Last(q))
  }

  function Swept(s: State, v: Path): State {
    State(s.disk - MarkersIn(s.disk, v), (set w | w in s.wh && !(w != [] && Parent(w) == v)), s.opq - {v})
  }

  lemma {:induction false} SameMasksBut(s: State, s': State, v: Path, q: Path)
    requires forall w :: !Under(v, w) ==> (w in s'.wh <==> w in s.wh) && (w in s'.opq <==> w in s.opq)
    requires v != [] && (!Under(v, q) || q == v)
    ensures Blocked(s', q) == Blocked(s, q)
    decreases |q|
  {
    if q != [] {
      UnderParent(v, q);
      NotUnderParent(v);
      SameMasksBut(s, s', v, Parent(q));
    }
  }

  lemma SweptInv(s: State, v: Path)
    requires Inv(s) && v != [] && Clean(v)
    ensures Inv(Swept(s, v))
  {
    var s' := Swept(s, v);
    var gone := MarkersIn(s.disk, v);
    forall m | m in gone ensures !HasChild(s.disk, m) { FileHasNoChild(s.disk, m); }
    assert [] in s'.disk;
    forall w | w in s'.wh
      ensures w != [] && Clean(w) && WhPath(w) in s'.disk
    {
      ChildOf(Parent(w), Wh(Last(w)));
    }
    forall p | p in s'.disk && p != [] && IsMarker(Last(p)) && Last(p) != OPQ
      ensures Parent(p) + [Unwh(Last(p))] in s'.wh
    {
      ChildOf(Parent(p), Unwh(Last(p)));
    }
    forall w ensures w in s'.opq <==> OpqPath(w) in s'.disk {
      ChildOf(w, OPQ);
      MarkerNames("");
    }
  }

  lemma SweptKeeps(s: State, l: Lower, v: Path)
    requires Inv(s) && v != [] && Clean(v)
    ensures Inv(Swept(s, v)) && SameOutside(s, Swept(s, v), l, v)
    ensures MarkerNamesIn(Swept(s, v).disk, v) == {} && OwnNames(Swept(s, v).disk, v) == OwnNames(s.disk, v)
    ensures v in Swept(s, v).disk <==> v in s.disk
    ensures v in s.disk ==> Swept(s, v).disk[v] == s.disk[v]
    ensures v in Swept(s, v).wh <==> v in s.wh
    ensures Blocked(Swept(s, v), v) == Blocked(s, v)
  {
    hide Inv, Blocked;
    var s' := Swept(s, v);
    SweptInv(s, v);
    NotUnderParent(v);
    forall w | !Under(v, w)
      ensures (w in s'.wh <==> w in s.wh) && (w in s'.opq <==> w in s.opq)
    {
      if w != [] && Parent(w) == v { UnderParent(v, w); }
    }
    forall q | Clean(q) && !Under(v, q)
      ensures At(s', l, q) == At(s, l, q)
    {
      SameMasksBut(s, s', v, q);
      if q != [] && Parent(q) == v { UnderParent(v, q); }
    }
    SameMasksBut(s, s', v, v);
    SweptNames(s.disk, s'.disk, v);
  }

  lemma SweptNames(d: Fs, d': Fs, v: Path)
    requires d' == d - MarkersIn(d, v)
    ensures MarkerNamesIn(d', v) == {} && OwnNames(d', v) == OwnNames(d, v)
  {
    forall n ensures n in OwnNames(d', v) <==> n in OwnNames(d, v) {
      if n in OwnNames(d, v) {
        var q :| q in d && q != [] && Parent(q) == v && !IsMarker(Last(q)) && Last(q) == n;
        assert q in d';
      }
    }
  }

  /**
   * CollectChildren in a kept folder: its own names and, unless it is opaque, the layers', less the names its markers
   * delete; a marker never hides an own name.
   */
  method CollectKept(fs: VfsState, v: Path) returns (names: set<Name>)
    requires fs.Valid() && Clean(v)
    ensures names == Children(fs.Snap(), fs.lower, v)
  {
    hide Inv, LowerOk, IsMarker, Unwh;
    var own, deleted: set<Name> := {}, {};
    var listing := set q | q in fs.disk && q != [] && Parent(q) == v;
    ghost var seen: set<Path> := {};
    while listing != {}
      invariant listing !! seen && listing + seen == set q | q in fs.disk && q != [] && Parent(q) == v
      invariant own == set q | q in seen && !IsMarker(Last(q)) :: Last(q)
      invariant deleted == set q | q in seen && IsMarker(Last(q)) && Last(q) != OPQ :: Unwh(Last(q))
      decreases listing
    {
      var q :| q in listing;
      var n := Last(q);
      if IsMarker(n) {
        if n != OPQ { deleted := deleted + {Unwh(n)}; }
      } else {
        own := own + {n};
      }
      listing := listing - {q};
      seen := seen + {q};
    }
    assert seen == set q | q in fs.disk && q != [] && Parent(q) == v;
    assert own == OwnNames(fs.disk, v) && deleted == WhiteoutNames(fs.disk, v);
    names := own + (if v in fs.opaques then {} else fs.lower.names(v));
    names := names - (set n | n in deleted && n !in own);
    CollectedAgree(fs.Snap(), v);
  }

  lemma CollectedAgree(s: State, v: Path)
    requires Inv(s) && Clean(v)
    ensures OwnNames(s.disk, v) !! WhiteoutNames(s.disk, v)
    ensures v in s.opq <==> OpqPath(v) in s.disk
  {
    forall n | n in OwnNames(s.disk, v)
      ensures n !in WhiteoutNames(s.disk, v)
    {
      var q :| q in s.disk && q != [] && Parent(q) == v && !IsMarker(Last(q)) && Last(q) == n;
      ParentLast(q);
      WhiteoutNamesAreDeleted(s, v, n);
    }
  }

  /**
   * VfsRmdir in a kept folder. A directory that lists a name is refused and left as it was. Any other showed nothing
   * and goes for good; if that cannot be recorded, the call fails, and with the directory's markers gone the layers'
   * subtree is back whole, names deleted inside it included.
   */
  method KeptRmdir(fs: VfsState, v: Path) returns (e: int)
    requires fs.Valid() && fs.ParentThere(v) && Visible(fs.Snap(), fs.lower, v) == Some(Dir)
    modifies fs
    ensures fs.Valid()
    ensures e == ENOTEMPTY <==> Children(old(fs.Snap()), fs.lower, v) != {}
    ensures e == ENOTEMPTY ==> fs.Snap() == old(fs.Snap())
    ensures e != ENOTEMPTY ==>
      forall p :: Clean(p) && Under(v, p) && p != v ==> Visible(old(fs.Snap()), fs.lower, p) == None
    ensures e == 0 ==> ViewSet(old(fs.Snap()), fs.Snap(), fs.lower, v, None)
    ensures e == 0 || e == ENOTEMPTY || e == EIO
    ensures old(fs.calls) <= fs.calls && (e == EIO <==> Faulty(fs.faulty, old(fs.calls), fs.calls))
    ensures e != 0 && e != ENOTEMPTY ==> Restored(old(fs.Snap()), fs.Snap(), fs.lower, v)
  {
    hide Faulty, Inv, Visible, HasChild, LowerOk, Blocked, ViewSet, SameOutside, MakeDirs, AddWhiteout, Swept, Children,
      Restored;
    ghost var l := fs.lower;
    ghost var s := fs.Snap();
    FaultyOne(fs.faulty, fs.calls);
    var children := CollectKept(fs, v);
    if children != {} { return ENOTEMPTY; }
    OwnIsVisible(s, l, v);
    EmptyDirectory(s, l, v);
    VisibleIsThere(s, l, v);
    DropMarkersUnder(fs, v);
    SweptKeeps(s, l, v);
    ghost var s1 := fs.Snap();
    var there := v in fs.disk;
    fs.HostRmdir(v);
    RmdirLeaves(s, s1, fs.Snap(), l, v);
    ghost var s2 := fs.Snap();
    HideRest(s, s2, l, v);
    KeptAgrees(s2, l, v);
    SameMasks(s1, s2, v);
    if KeptResolve(fs.Snap(), fs.lower, v) != Miss {
      e := HideLower(fs, v);
      if e != 0 { Unrecorded(s, s2, fs.Snap(), l, v); e := EIO; }
      return;
    }
    e := if there then 0 else ENOENT;
    StillThere(s, s1, s2, l, v);
  }

  /** A directory only the layers have is still there after the sweep, so there is something to hide. */
  lemma StillThere(s: State, s1: State, s2: State, l: Lower, v: Path)
    requires v in s1.disk <==> v in s.disk
    requires Resolve(s, l, v) != Miss && Resolve(s2, l, v) == Miss && v !in s2.disk && v != []
    requires s2.wh == s1.wh && (v in s1.wh <==> v in s.wh) && Blocked(s2, v) == Blocked(s, v)
    ensures v in s1.disk
  {
    hide Blocked;
  }

  // ---- renaming ----

  /** What lies strictly below an opaque directory comes from the folder alone. */
  lemma AtOpaque(s: State, l: Lower, d: Path, p: Path)
    requires Inv(s) && Clean(p) && Under(d, p)
    ensures p != d ==>
      At(AddOpaque(s, d), l, p) == if p in s.wh then None else if p in s.disk then Some(s.disk[p]) else None
    ensures p == d && d != [] && d in s.disk ==> At(AddOpaque(s, d), l, p) == At(s, l, p)
  {
    hide Mirrors, DiskClean, TreeOk;
    MarkerPathsNotClean(d);
    var s' := AddOpaque(s, d);
    if p != d { MaskBlocks(s', d, p); }
  }

  /** A subtree moved to a name made opaque shows exactly what it showed. */
  lemma {:induction false} OpaqueMoved(s: State, l: Lower, a: Path, b: Path, q: Path)
    requires Inv(s) && Renamable(s, a, b) && UpFrom(s, l, a) && Clean(q) && Inv(Renamed(s, a, b))
    requires Visible(s, l, a).Some? && Visible(AddOpaque(Renamed(s, a, b), b), l, Parent(b)) == Some(Dir)
    ensures Visible(AddOpaque(Renamed(s, a, b), b), l, b + q) == Visible(s, l, a + q)
    decreases |q|
  {
    hide Inv, UpFrom, AddOpaque, Moved, RenameSet, Blocked;
    var s5 := Renamed(s, a, b);
    RenamableFacts(s, a, b);
    AtEnds(s, a, b, q);
    RenamedAtDest(s, l, a, b, q);
    RenamedEntries(s, a, b, q);
    AtOpaque(s5, l, b, b + q);
    SourceEntries(s, l, a, q);
    if q != [] {
      CleanParent(q);
      OpaqueMoved(s, l, a, b, Parent(q));
    }
  }

  lemma RenamedEntries(s: State, a: Path, b: Path, q: Path)
    requires Inv(s) && Renamable(s, a, b)
    ensures b + q in Renamed(s, a, b).wh <==> a + q in s.wh
    ensures b + q in Renamed(s, a, b).disk <==> a + q in s.disk
    ensures a + q in s.disk ==> Renamed(s, a, b).disk[b + q] == s.disk[a + q]
  {
    var p := b + q;
    assert p[|b|..] == q;
    NoMasksBelowLeaf(s, b);
    RenameSetEntries(s.wh, a, b, p);
    MovedAt(s.disk, a, b, p);
  }

  lemma SourceEntries(s: State, l: Lower, a: Path, q: Path)
    requires Inv(s) && UpFrom(s, l, a) && Clean(a + q) && Under(a, a + q)
    ensures a + q in s.disk ==> a + q !in s.wh
    ensures a + q !in s.disk ==> Visible(s, l, a + q) == None
    ensures a + q in s.disk ==> At(s, l, a + q) == Some(s.disk[a + q])
  {
  }

  /** The view after a rename in a kept folder; a directory moved over a deleted one is never joined. */
  ghost predicate KeptRenamed(s: State, s': State, l: Lower, a: Path, b: Path, over: bool)
    requires b != []
  {
    && Arrived(s, s', l, a, b, over)
    && (forall p :: Clean(p) && Under(a, p) ==> Visible(s', l, p) == None)
  }

  /** The new place is as after a rename, and away from both ends nothing changed. */
  ghost predicate Arrived(s: State, s': State, l: Lower, a: Path, b: Path, over: bool)
    requires b != []
  {
    && (forall p :: Clean(p) && !Under(a, p) && !Under(b, p) ==> Visible(s', l, p) == Visible(s, l, p))
    && (MovedView(s, s', l, a, b) <==> over || DestinationIsFree(DropWhiteout(s, b), l, a, b))
  }

  lemma PlainRenamed(s: State, s': State, l: Lower, a: Path, b: Path)
    requires b != [] && RenamedView(s, s', l, a, b)
    ensures KeptRenamed(s, s', l, a, b, false)
  {
    hide MovedView, DestinationIsFree, DropWhiteout;
  }

  /** The opaque case, from the state before the copies to the one after the source is hidden. */
  lemma OpaqueRenamed(s0: State, s2: State, l: Lower, a: Path, b: Path)
    requires Inv(s0) && LowerOk(l) && Inv(s2) && Copied(s0, s2, l) && UpFrom(s2, l, a)
    requires Clean(a) && Clean(b) && a != [] && b != []
    requires Visible(s0, l, a).Some? && Visible(s0, l, Parent(b)) == Some(Dir)
    requires Visible(s0, l, Parent(a)) == Some(Dir)
    requires Inv(DropWhiteout(s2, b)) && Renamable(DropWhiteout(s2, b), a, b) && IsDirIn(s2.disk, a)
    ensures var s5 := AddOpaque(Renamed(DropWhiteout(s2, b), a, b), b);
      && Inv(s5) && DirsFree(s5.disk, Parent(a)) && Inv(AddWhiteout(s5, a))
      && KeptRenamed(s0, if Resolve(s5, l, a) != Miss then AddWhiteout(s5, a) else s5, l, a, b, true)
  {
    hide Inv, Copied, UpFrom, Moved, RenameSet, Visible, At, DropWhiteout, AddOpaque, AddWhiteout, SameOutside,
      Blocked, Renamable, Clean, Disjoint, DestinationIsFree, LowerOk, DirsFree, Resolve;
    var s3 := DropWhiteout(s2, b);
    var r := Renamed(s3, a, b);
    var s5 := AddOpaque(r, b);
    RenamableFacts(s3, a, b);
    StartFacts(s0, s2, l, a, b);
    RenamedInv(s3, a, b);
    SourceGone(s3, r, l, a, b);
    MovedDir(s2, a, b);
    AddOpaqueKeeps(r, l, b);
    OpaqueAway(r, s5, l, a, b);
    AddWhiteoutKeeps(s5, l, a);
    var s6 := if Resolve(s5, l, a) != Miss then AddWhiteout(s5, a) else s5;
    HiddenSource(s5, s6, l, a);
    forall p | Clean(p) && !Under(a, p) && !Under(b, p)
      ensures Visible(s6, l, p) == Visible(s0, l, p)
    {
      OutsideStays(s5, s6, l, a, p);
      OutsideStays(r, s5, l, b, p);
      RenamedParents(s3, l, a, b, p);
    }
    forall p | Clean(p) && Under(a, p)
      ensures Visible(s6, l, p) == None
    {
      Gone(s6, l, a, p);
    }
    NotUnderParent(b);
    UnderParent(a, b);
    CleanParent(b);
    OutsideStays(r, s5, l, b, Parent(b));
    RenamedParents(s3, l, a, b, Parent(b));
    assert Visible(s3, l, a) == Visible(s0, l, a);
    forall q | Clean(q)
      ensures Visible(s6, l, b + q) == Visible(s0, l, a + q)
    {
      AtEnds(s3, a, b, q);
      DisjointBelow(a, b, a + q);
      DisjointBelow(b, a, b + q);
      OutsideStays(s5, s6, l, a, b + q);
      OpaqueMoved(s3, l, a, b, q);
    }
  }

  lemma MovedDir(s2: State, a: Path, b: Path)
    requires b != [] && Clean(b) && Clean(a) && IsDirIn(s2.disk, a) && Renamable(DropWhiteout(s2, b), a, b)
    ensures IsDirIn(Renamed(DropWhiteout(s2, b), a, b).disk, b)
  {
    var s3 := DropWhiteout(s2, b);
    MarkerPathsNotClean(b);
    SwapSelf(b, a);
    MovedAt(s3.disk, a, b, b);
  }

  lemma OpaqueAway(r: State, s5: State, l: Lower, a: Path, b: Path)
    requires s5 == AddOpaque(r, b) && SameOutside(r, s5, l, b) && a != [] && Clean(a) && a !in r.disk
    requires Visible(r, l, Parent(a)) == Some(Dir) && !Under(b, Parent(a))
    ensures a !in s5.disk && Visible(s5, l, Parent(a)) == Some(Dir)
  {
    MarkerPathsNotClean(b);
    CleanParent(a);
    OutsideStays(r, s5, l, b, Parent(a));
  }

  /** The steps of the code, rename first and marker after, end where the model's steps end. */
  lemma UnhideAfterMove(s2: State, a: Path, b: Path)
    requires Inv(s2) && Clean(a) && Clean(b) && a != [] && b != [] && Disjoint(a, b) && a in s2.disk
    requires forall q :: q in s2.wh && q != b ==> !Under(b, q)
    ensures var s3 := DropWhiteout(s2, b);
      var moved := State(Moved(s2.disk, a, b), RenameSet(s2.wh, a, b), RenameSet(s2.opq, a, b));
      && Unhidden(moved, b, s2.wh) == Renamed(s3, a, b)
      && Unhidden(AddOpaque(moved, b), b, s2.wh) == AddOpaque(Renamed(s3, a, b), b)
  {
    hide Moved, RenameSet, TreeOk, DiskClean, Mirrors, Clean, Disjoint, WhPath, OpqPath;
    NoMarkerNoMask(s2, b);
    if b in s2.wh {
      MarkerMoves(s2.disk, a, b);
      MaskMoves(s2, a, b);
      GoodLast(b);
      OpqIsNoWh(b, b);
      AddThenDrop(Moved(s2.disk, a, b), OpqPath(b), WhPath(b));
    }
  }

  lemma GoodLast(b: Path)
    requires Clean(b) && b != []
    ensures GoodName(Last(b))
  {
  }

  lemma AddThenDrop(t: Fs, k: Path, m: Path)
    requires k != m
    ensures t[k := File([])] - {m} == (t - {m})[k := File([])]
  {
  }

  /** The marker of the destination is not part of what moves. */
  lemma MarkerMoves(t: Fs, a: Path, b: Path)
    requires b != [] && Clean(a) && Clean(b) && a != [] && Disjoint(a, b)
    ensures Moved(t, a, b) - {WhPath(b)} == Moved(t - {WhPath(b)}, a, b)
  {
    var m := WhPath(b);
    MarkerPathsNotClean(b);
    ChildOf(Parent(b), Wh(Last(b)));
    UnderParent(a, b);
    UnderParent(a, m);
    UnderParent(b, m);
    NotUnderParent(b);
    assert !Under(a, m) && !Under(b, m);
    var l, r := Moved(t, a, b) - {m}, Moved(t - {m}, a, b);
    forall p
      ensures p in l <==> p in r
      ensures p in l ==> l[p] == r[p]
    {
      MovedAt(t, a, b, p);
      MovedAt(t - {m}, a, b, p);
      if Under(b, p) { SwapSwap(p, b, a); }
    }
  }

  lemma MaskMoves(s: State, a: Path, b: Path)
    requires Inv(s) && b != [] && Disjoint(a, b) && b in s.wh && a in s.disk
    requires forall q :: q in s.wh && q != b ==> !Under(b, q)
    ensures RenameSet(s.wh, a, b) - {b} == RenameSet(s.wh - {b}, a, b)
  {
    hide TreeOk, DiskClean, Mirrors;
    var n := s.wh - {b};
    RenameSetEntries(n, a, b, b);
    SwapSelf(b, a);
    assert b[|b|..] == [] && a + [] == a;
    assert s.wh == n + {b};
    OneMaskMore(n, a, b);
    assert b !in RenameSet(n, a, b);
  }

  lemma OneMaskMore(n: set<Path>, a: Path, b: Path)
    requires !Under(a, b)
    ensures RenameSet(n + {b}, a, b) == RenameSet(n, a, b) + {b}
  {
    var m := n + {b};
    forall p ensures p in RenameSet(m, a, b) <==> p in RenameSet(n, a, b) + {b} {
      if p in RenameSet(m, a, b) && !(p in m && !Under(a, p)) {
        var r :| r in m && Under(a, r) && b + r[|a|..] == p;
        assert r in n;
      }
      if p in RenameSet(n, a, b) && !(p in n && !Under(a, p)) {
        var r :| r in n && Under(a, r) && b + r[|a|..] == p;
        assert r in m;
      }
    }
  }

  /** What the host demanded carries over to the folder without the destination's marker. */
  lemma ReadyInKept(s2: State, l: Lower, a: Path, b: Path)
    requires Inv(s2) && Clean(a) && Clean(b) && a != [] && b != [] && Disjoint(a, b)
    requires a in s2.disk && IsDirIn(s2.disk, Parent(b)) && (IsDirIn(s2.disk, b) ==> !HasChild(s2.disk, b))
    ensures Inv(DropWhiteout(s2, b)) && Renamable(DropWhiteout(s2, b), a, b)
    ensures forall q :: q in s2.wh && q != b ==> !Under(b, q)
  {
    hide Mirrors, DiskClean, TreeOk;
    var s3 := DropWhiteout(s2, b);
    DropWhiteoutKeeps(s2, l, b);
    MarkerPathsNotClean(b);
    CleanParent(b);
    assert HasChild(s3.disk, b) ==> HasChild(s2.disk, b);
    ReadyToRename(s2, s3, l, a, b);
    NoMasksBelowLeaf(s3, b);
    assert forall q :: q in s2.wh && q != b ==> q in s3.wh;
  }

  lemma FileHasNoKeptMasks(s2: State, a: Path, b: Path)
    requires b != [] && Inv(DropWhiteout(s2, b)) && Renamable(DropWhiteout(s2, b), a, b) && a in s2.disk
    requires s2.disk[a] != Dir
    ensures RenameSet(s2.wh, a, b) == s2.wh && RenameSet(s2.opq, a, b) == s2.opq
  {
    hide Inv, RenameSet;
    var s3 := DropWhiteout(s2, b);
    RenamableFacts(s3, a, b);
    MarkerPathsNotClean(b);
    FileHasNoMasks(s3, a, b);
    OneMaskMore(s3.wh, a, b);
    if b in s2.wh { assert s2.wh == s3.wh + {b}; } else { assert s2.wh == s3.wh; }
  }

  /** After the move: what the folder holds, and what hiding the old name makes of it. */
  lemma MovedInKept(s0: State, s2: State, l: Lower, a: Path, b: Path, isOpaque: bool)
    requires Inv(s0) && LowerOk(l) && Inv(s2) && Copied(s0, s2, l) && UpFrom(s2, l, a)
    requires Clean(a) && Clean(b) && a != [] && b != []
    requires Visible(s0, l, a).Some? && Visible(s0, l, Parent(b)) == Some(Dir)
    requires Visible(s0, l, Parent(a)) == Some(Dir)
    requires Inv(DropWhiteout(s2, b)) && Renamable(DropWhiteout(s2, b), a, b) && (isOpaque ==> IsDirIn(s2.disk, a))
    ensures var r := Renamed(DropWhiteout(s2, b), a, b);
      var s5 := if isOpaque then AddOpaque(r, b) else r;
      && Inv(s5) && DirsFree(s5.disk, Parent(a)) && Inv(AddWhiteout(s5, a)) && Inv(MakeDirs(s5, Parent(a)))
      && a !in s5.disk && Visible(s5, l, Parent(a)) == Some(Dir)
      && KeptRenamed(s0, if KeptResolve(s5, l, a) != Miss then AddWhiteout(s5, a) else s5, l, a, b, isOpaque)
  {
    hide Inv, Copied, UpFrom, Renamable, Renamed, RenamedView, KeptRenamed, Visible, Resolve, KeptResolve, AddOpaque,
      AddWhiteout, DropWhiteout, MakeDirs, DirsFree;
    var r := Renamed(DropWhiteout(s2, b), a, b);
    var s5 := if isOpaque then AddOpaque(r, b) else r;
    if isOpaque {
      OpaqueRenamed(s0, s2, l, a, b);
    } else {
      RenameRefinesForAll(s0, s2, l, a, b);
      PlainRenamed(s0, if Resolve(s5, l, a) != Miss then AddWhiteout(s5, a) else s5, l, a, b);
    }
    KeptAgrees(s5, l, a);
    EndsAfterMove(s2, a, b, isOpaque);
    DirsAfterMove(s0, s2, s5, l, a, b, isOpaque);
  }

  lemma EndsAfterMove(s2: State, a: Path, b: Path, isOpaque: bool)
    requires b != [] && Clean(a) && Clean(b) && Renamable(DropWhiteout(s2, b), a, b)
    ensures var r := Renamed(DropWhiteout(s2, b), a, b);
      var s5 := if isOpaque then AddOpaque(r, b) else r;
      a !in s5.disk
  {
    hide Moved;
    var s3 := DropWhiteout(s2, b);
    MovedAt(s3.disk, a, b, a);
    SwapSelf(a, b);
    MarkerPathsNotClean(b);
  }

  /** Making the old name's directory chain ready keeps everything in order. */
  lemma DirsAfterMove(s0: State, s2: State, s5: State, l: Lower, a: Path, b: Path, isOpaque: bool)
    requires a != [] && b != [] && Clean(a) && Clean(b) && Inv(s5) && DirsFree(s5.disk, Parent(a))
    requires Inv(s2) && Inv(DropWhiteout(s2, b)) && Renamable(DropWhiteout(s2, b), a, b)
    requires (isOpaque ==> IsDirIn(s2.disk, a)) && Copied(s0, s2, l) && UpFrom(s2, l, a)
    requires Visible(s0, l, Parent(a)) == Some(Dir)
    requires s5 == if isOpaque then AddOpaque(Renamed(DropWhiteout(s2, b), a, b), b)
      else Renamed(DropWhiteout(s2, b), a, b)
    ensures Inv(MakeDirs(s5, Parent(a))) && Visible(s5, l, Parent(a)) == Some(Dir)
  {
    hide Inv, Copied, UpFrom, Moved, RenameSet, Visible, At, DropWhiteout, AddOpaque, MakeDirs, SameOutside,
      Renamable, DirsFree;
    var s3 := DropWhiteout(s2, b);
    var r := Renamed(s3, a, b);
    RenamableFacts(s3, a, b);
    DropWhiteoutKeeps(s2, l, b);
    CleanParent(a);
    UnderParent(b, a);
    CopiedView(s0, s2, l, Parent(a));
    OutsideStays(s2, s3, l, b, Parent(a));
    SourceGone(s3, r, l, a, b);
    if isOpaque {
      RenamedInv(s3, a, b);
      MovedDir(s2, a, b);
      AddOpaqueKeeps(r, l, b);
      OpaqueAway(r, s5, l, a, b);
    }
    MakeDirsKeeps(s5, l, Parent(a));
  }

  /** The source made wholly the folder's own: a directory with everything it shows, a file when it is not yet. */
  method BringUp(fs: VfsState, a: Path, rr: Hit) returns (e: int)
    requires fs.Valid() && fs.ParentThere(a) && rr == Resolve(fs.Snap(), fs.lower, a) && rr != Miss
    requires Visible(fs.Snap(), fs.lower, a) == Some(rr.node)
    modifies fs`disk, fs`calls
    ensures fs.Valid() && Copied(old(fs.Snap()), fs.Snap(), fs.lower)
    ensures e == 0 ==> a in fs.disk && UpFrom(fs.Snap(), fs.lower, a)
    ensures e == 0 ==> !Denied(old(fs.Snap()), fs.lower, a)
    ensures e == 0 || e == EIO || (e == ENOENT && Denied(old(fs.Snap()), fs.lower, a))
    ensures forall q :: q in fs.disk && q !in old(fs.disk) ==> Under(q, a) || Under(a, q)
    ensures old(fs.calls) <= fs.calls && (e == EIO <==> Faulty(fs.faulty, old(fs.calls), fs.calls))
  {
    hide Denied, Inv, LowerOk, Visible, UpFrom, Blocked;
    ghost var s0 := fs.Snap();
    if rr.node == Dir {
      ghost var depth := Deepest(fs.disk.Keys + fs.lower.nodes.Keys + {a});
      e := fs.DeepCopyUp(a, depth);
    } else {
      e := 0;
      CopiedSelf(s0, fs.lower);
      if !rr.InWriteLayer? {
        e := fs.CopyUp(a, rr);
      }
      if e == 0 {
        UpToDate(s0, fs.Snap(), fs.lower, a);
        FileIsUp(fs.Snap(), fs.lower, a);
        FileNotDenied(s0, fs.lower, a);
      }
    }
  }

  /**
   * What follows the host rename: the masks inside, the opaque marker, the destination's own marker. If the opaque
   * marker cannot be written, the rest is not done.
   */
  method FinishMove(fs: VfsState, a: Path, b: Path, isDir: bool, over: bool, marks: bool, ghost s2: State)
    returns (e: int)
    requires a != [] && b != [] && Inv(s2) && a in s2.disk && Clean(a) && Clean(b) && Disjoint(a, b)
    requires fs.Snap() == State(Moved(s2.disk, a, b), s2.wh, s2.opq) && (isDir <==> s2.disk[a] == Dir)
    requires Inv(DropWhiteout(s2, b)) && Renamable(DropWhiteout(s2, b), a, b) && (over <==> b in s2.wh)
    requires forall q :: q in s2.wh && q != b ==> !Under(b, q)
    modifies fs`disk, fs`whiteouts, fs`opaques
    ensures e == if isDir && over && !marks then EIO else 0
    ensures var r := Renamed(DropWhiteout(s2, b), a, b);
      var s5 := if isDir && over then AddOpaque(r, b) else r;
      if e == 0 then fs.Snap() == s5
      else b in fs.whiteouts && b in fs.disk && s5 == DropWhiteout(AddOpaque(fs.Snap(), b), b)
  {
    hide Inv, Moved, RenameSet, Renamable, AddOpaque, DropWhiteout, Unhidden, Clean;
    UnhideAfterMove(s2, a, b);
    if isDir {
      fs.RenameMaskPrefix(a, b);
    } else {
      FileHasNoKeptMasks(s2, a, b);
    }
    ghost var s4 := fs.Snap();
    MoveIs(s2, s4, a, b);
    MovedKeepsMark(s2, a, b);
    if isDir && over {
      if !marks {
        NotUnhidden(s2, s4, a, b);
        return EIO;
      }
      fs.MarkOpaque(b);
    }
    OpaqueSameWh(s4, b);
    UnhideLower(fs, b);
    UnhiddenBoth(s2, s4, fs.Snap(), b, over && isDir);
    e := 0;
  }

  lemma NotUnhidden(s2: State, s4: State, a: Path, b: Path)
    requires b != [] && b in s2.wh && a in s2.disk && s4.disk == Moved(s2.disk, a, b)
    ensures Unhidden(AddOpaque(s4, b), b, s2.wh) == DropWhiteout(AddOpaque(s4, b), b) && b in s4.disk
  {
    hide Moved;
    MovedAt(s2.disk, a, b, b);
    SwapSelf(b, a);
  }

  /** How a rename ended: as it should, with the old name's deletion unrecorded, or with the new name still marked. */
  datatype Ending = Clear | NotHidden | Unmarked

  /** Every path of the folder resolves in `s` as it does in `t`. */
  ghost predicate ResolvesAs(s: State, t: State, l: Lower) {
    forall p :: Clean(p) ==> KeptResolve(s, l, p) == Resolve(t, l, p)
  }

  /**
   * VfsRename within one kept folder. Success empties the old place for good; the new place shows exactly what moved
   * if a directory replaced a deleted one, and otherwise if and only if no name of the layers joins it. A failure
   * keeps the view, with two exceptions after everything moved. If the old name's deletion could not be recorded, the
   * new place is as after success and the layers' subtree is back, whole, at the old one. If the opaque marker could
   * not be written (`marks` says whether the host can), the folder resolves as it would after that, and the new name
   * stays marked deleted though it is there: what it holds shows, and nothing of the layers below it.
   */
  method KeptRename(fs: VfsState, a: Path, b: Path, marks: bool)
    returns (e: int, ghost ending: Ending, ghost shown: State)
    requires fs.Valid() && a != b && fs.ParentThere(a) && fs.ParentThere(b) && Visible(fs.Snap(), fs.lower, a).Some?
    modifies fs
    ensures !ending.Unmarked? ==> fs.Valid() && shown == fs.Snap()
    ensures e == 0 ==> KeptRenamed(old(fs.Snap()), fs.Snap(), fs.lower, a, b,
      b in old(fs.whiteouts) && Visible(old(fs.Snap()), fs.lower, a) == Some(Dir))
    ensures e == 0 ==> !Denied(old(fs.Snap()), fs.lower, a) && DiskAllows(old(fs.Snap()), fs.lower, a, b)
    ensures e != 0 ==>
      Refusal(old(fs.Snap()), fs.lower, a, b, e) ||
        (e == ENOENT && Parent(b) !in old(fs.disk) && Faulty(fs.faulty, old(fs.calls), fs.calls))
    ensures old(fs.calls) <= fs.calls
    ensures e == EIO && !ending.Unmarked? ==> Faulty(fs.faulty, old(fs.calls), fs.calls)
    ensures e != 0 && ending.Clear? ==> ViewKept(old(fs.Snap()), fs.Snap(), fs.lower)
    ensures !ending.Clear? ==> e == EIO && Arrived(old(fs.Snap()), shown, fs.lower, a, b,
      b in old(fs.whiteouts) && Visible(old(fs.Snap()), fs.lower, a) == Some(Dir))
    ensures ending.NotHidden? ==> LowerShows(fs.Snap(), fs.lower, a)
    ensures ending.Unmarked? ==> !marks && b in old(fs.whiteouts) && Visible(old(fs.Snap()), fs.lower, a) == Some(Dir)
    ensures ending.Unmarked? ==> Inv(shown) && ResolvesAs(fs.Snap(), shown, fs.lower)
    ensures ending.Unmarked? ==> b in fs.whiteouts && b in fs.disk
    ensures ending.Unmarked? ==> LowerShows(shown, fs.lower, a) || GoneFrom(shown, fs.lower, a)
  {
    hide Faulty, Denied, LowerShows, Arrived, Inv, LowerOk, Visible, Moved, RenameSet, Renamed, KeptRenamed, UpFrom,
      Renamable, Blocked, AddOpaque, AddWhiteout, DropWhiteout, MakeDirs, KeptResolve, Resolve, ViewKept, Copied,
      DiskAllows, Refusal, HostRefusal, CanRename, ResolvesAs, GoneFrom, Clean, HasChild;
    ghost var l := fs.lower;
    ghost var s0 := fs.Snap();
    ghost var c0 := fs.calls;
    FaultyOne(fs.faulty, c0);
    ending, shown := Clear, s0;
    SameView0(s0, l);
    PlainRefusals(s0, l, a, b);
    KeptAgrees(s0, l, a);
    var rr := KeptResolve(fs.Snap(), fs.lower, a);
    if rr == Miss {
      MissIsNone(s0, l, a);
      e := ENOENT;
      return;
    }
    var isDir := rr.node == Dir;
    SourceKind(s0, l, a);
    e := BringUp(fs, a, rr);
    ghost var c1 := fs.calls;
    ghost var s1 := fs.Snap();
    shown := s1;
    CopiedKeepsView(s0, s1, l);
    if e != 0 { return; }
    var over := b in fs.whiteouts;
    CleanParent(b);
    CopiedView(s0, s1, l, Parent(b));
    ParentIsFree(s1, l, b);
    var ready := fs.EnsureWriteParent(b);
    ghost var c2 := fs.calls;
    FaultyParts(fs.faulty, c0, c1, c2);
    ghost var s2 := fs.Snap();
    shown := s2;
    MadeReady(s1, s2, b, ready);
    ReadyIsCopied(s0, s1, s2, l, a, b);
    UpAndMasks(s0, s1, s2, l, a, isDir);
    CopiedView(s0, s2, l, Parent(b));
    ReadyAround(s1, s2, l, a, b);
    e := fs.HostRename(a, b);
    ghost var c3 := fs.calls;
    FaultyParts(fs.faulty, c0, c2, c3);
    InvIsTree(s2);
    AnswerCarries(s0, s2, s2.disk, l, a, b, e);
    if e != 0 { IsPut(s2, fs.Snap(), a, Dir); return; }
    AllowedFacts(s2.disk, a, b);
    ReadyInKept(s2, l, a, b);
    MovedInKept(s0, s2, l, a, b, over && isDir);
    ghost var s5 := AfterMove(s2, a, b, over && isDir);
    e := FinishMove(fs, a, b, isDir, over, marks, s2);
    if e != 0 {
      ending, shown := Unmarked, s5;
      NotMarked(s0, fs.Snap(), s5, l, a, b);
      return;
    }
    if KeptResolve(fs.Snap(), fs.lower, a) != Miss {
      e := HideLower(fs, a);
      FaultyParts(fs.faulty, c0, c3, fs.calls);
      if e != 0 {
        ending := NotHidden;
        NotRecorded(s0, s5, fs.Snap(), l, a, b, over && isDir);
      }
    }
    shown := fs.Snap();
  }

  /** Where the steps of a rename lead when every marker is written. */
  function AfterMove(s2: State, a: Path, b: Path, isOpaque: bool): State
    requires b != []
  {
    var r := Renamed(DropWhiteout(s2, b), a, b);
    if isOpaque then AddOpaque(r, b) else r
  }

  ghost predicate GoneFrom(s: State, l: Lower, a: Path) {
    forall p :: Clean(p) && Under(a, p) ==> Visible(s, l, p) == None
  }

  lemma MissIsNone(s: State, l: Lower, a: Path)
    requires Resolve(s, l, a) == Miss
    ensures At(s, l, a) == None
  {
  }

  lemma ParentIsFree(s: State, l: Lower, b: Path)
    requires Inv(s) && b != [] && Visible(s, l, Parent(b)) == Some(Dir)
    ensures DirsFree(s.disk, Parent(b))
  {
    VisibleDirsFree(s, l, Parent(b));
  }

  lemma ReadyAround(s1: State, s2: State, l: Lower, a: Path, b: Path)
    requires Inv(s1) && Inv(s2) && b != [] && Visible(s2, l, Parent(b)) == Some(Dir)
    requires s2 == s1 || (DirsFree(s1.disk, Parent(b)) && s2 == MakeDirs(s1, Parent(b)))
    ensures forall q :: q in s2.disk && q !in s1.disk ==> Under(q, Parent(b))
    ensures Parent(b) in s2.disk ==> s2.disk[Parent(b)] == Dir
    ensures DirsFree(s1.disk, Parent(b)) && s2 == MakeDirs(s1, Parent(b)) ==> Parent(b) in s2.disk
  {
    hide Inv, Visible;
    InvIsTree(s1);
    if DirsFree(s1.disk, Parent(b)) { CreateDirsMakes(s1.disk, Parent(b)); }
    AtVisible(s2, l, Parent(b));
    if Parent(b) in s2.disk { AtOwn(s2, l, Parent(b)); }
  }

  /** A name both present and marked deleted hides from the layers what an opaque directory would. */
  lemma {:induction false} MarkedMasks(s: State, t: State, b: Path, cur: Path)
    requires b != [] && b in s.wh && t.wh == s.wh - {b} && t.opq == s.opq + {b}
    ensures MaskedFrom(s, cur) == MaskedFrom(t, cur)
    decreases |cur|
  {
    if cur != [] && cur != b { MarkedMasks(s, t, b, Parent(cur)); }
  }

  /** The move is done, and the opaque marker was not written. */
  lemma NotMarked(s0: State, s4: State, s5: State, l: Lower, a: Path, b: Path)
    requires a != [] && b != [] && Clean(a) && Clean(b) && Disjoint(a, b) && LowerOk(l)
    requires b in s4.wh && b in s4.disk && s5 == DropWhiteout(AddOpaque(s4, b), b)
    requires Inv(s5) && DirsFree(s5.disk, Parent(a)) && a !in s5.disk && Visible(s5, l, Parent(a)) == Some(Dir)
    requires KeptRenamed(s0, if KeptResolve(s5, l, a) != Miss then AddWhiteout(s5, a) else s5, l, a, b, true)
    ensures ResolvesAs(s4, s5, l) && Arrived(s0, s5, l, a, b, true)
    ensures LowerShows(s5, l, a) || GoneFrom(s5, l, a)
  {
    hide Inv, LowerOk, Visible, LowerShows, AddWhiteout, DestinationIsFree, KeptResolve, Arrived;
    forall p | Clean(p)
      ensures KeptResolve(s4, l, p) == Resolve(s5, l, p)
    {
      MarkedResolves(s4, s5, l, b, p);
      KeptAgrees(s5, l, p);
    }
    if KeptResolve(s5, l, a) != Miss {
      NotRecorded(s0, s5, s5, l, a, b, true);
    }
  }

  lemma MarkedResolves(s4: State, s5: State, l: Lower, b: Path, p: Path)
    requires b != [] && b in s4.wh && b in s4.disk && s5 == DropWhiteout(AddOpaque(s4, b), b) && Clean(p)
    ensures KeptResolve(s4, l, p) == KeptResolve(s5, l, p)
  {
    MarkerPathsNotClean(b);
    assert p in s4.disk <==> p in s5.disk;
    if p != [] && p !in s4.disk { MarkedMasks(s4, s5, b, Parent(p)); }
  }

  /** The move is done, the old name resolves to the layers and its deletion was not recorded. */
  lemma NotRecorded(s0: State, s5: State, s6: State, l: Lower, a: Path, b: Path, over: bool)
    requires Inv(s5) && LowerOk(l) && a != [] && b != [] && Clean(a) && Clean(b) && Disjoint(a, b) && a !in s5.disk
    requires Visible(s5, l, Parent(a)) == Some(Dir) && KeptResolve(s5, l, a) != Miss && DirsFree(s5.disk, Parent(a))
    requires KeptRenamed(s0, AddWhiteout(s5, a), l, a, b, over)
    requires s6 == s5 || s6 == MakeDirs(s5, Parent(a))
    ensures LowerShows(s6, l, a) && Arrived(s0, s6, l, a, b, over)
  {
    hide Inv, Visible, AddWhiteout, MakeDirs, DirsFree, KeptResolve, At, SameOutside, DestinationIsFree, DropWhiteout;
    KeptAgrees(s5, l, a);
    LayersShowWhole(s5, l, a);
    CleanParent(a);
    MakeDirsKeeps(s5, l, Parent(a));
    SameEverywhere(s5, s6, l);
    AddWhiteoutKeeps(s5, l, a);
    var w := AddWhiteout(s5, a);
    forall p | Clean(p) && !Under(a, p)
      ensures Visible(s6, l, p) == Visible(w, l, p)
    {
      OutsideStays(s5, w, l, a, p);
    }
    forall q | Clean(q)
      ensures Visible(s6, l, b + q) == Visible(w, l, b + q)
    {
      AtEnds(s5, a, b, q);
      DisjointBelow(b, a, b + q);
    }
  }

  lemma ReadyIsCopied(s0: State, s1: State, s2: State, l: Lower, a: Path, b: Path)
    requires Inv(s1) && LowerOk(l) && Copied(s0, s1, l) && UpFrom(s1, l, a) && b != [] && Clean(Parent(b))
    requires Visible(s0, l, Parent(b)) == Some(Dir)
    requires s2 == s1 || (DirsFree(s1.disk, Parent(b)) && s2 == MakeDirs(s1, Parent(b)))
    ensures Inv(s2) && Copied(s0, s2, l) && Copied(s1, s2, l) && UpFrom(s2, l, a) && ViewKept(s0, s2, l)
  {
    hide Inv, Copied, UpFrom, Visible, MakeDirs, ViewKept, DirsFree;
    CopiedView(s0, s1, l, Parent(b));
    MakeDirsKeeps(s1, l, Parent(b));
    MakeDirsCopies(s1, l, Parent(b));
    CopiedSelf(s1, l);
    CopiedTrans(s0, s1, s2, l);
    CopiedKeepsView(s0, s2, l);
    UpFromStays(s1, s2, l, a);
  }

  lemma SourceKind(s: State, l: Lower, a: Path)
    requires Inv(s) && Visible(s, l, a).Some?
    ensures Resolve(s, l, a) != Miss && Visible(s, l, a) == Some(Resolve(s, l, a).node)
  {
  }

  lemma UpToDate(s0: State, s1: State, l: Lower, a: Path)
    requires Inv(s1) && Copied(s0, s1, l) && At(s0, l, a).Some? && At(s0, l, a) != Some(Dir)
    requires a in s0.disk || Resolve(s1, l, a).InWriteLayer?
    ensures a in s1.disk && s1.disk[a] != Dir
  {
  }

  lemma UpAndMasks(s0: State, s1: State, s2: State, l: Lower, a: Path, isDir: bool)
    requires Copied(s0, s1, l) && Copied(s1, s2, l) && Inv(s2) && a in s1.disk && Resolve(s0, l, a) != Miss
    requires isDir <==> Resolve(s0, l, a).node == Dir
    ensures a in s2.disk && (isDir <==> s2.disk[a] == Dir) && s2.wh == s0.wh && s1.wh == s0.wh
  {
    assert At(s2, l, a) == At(s0, l, a);
  }

  lemma MoveIs(s2: State, s4: State, a: Path, b: Path)
    requires s4.disk == Moved(s2.disk, a, b) && s4.wh == RenameSet(s2.wh, a, b) && s4.opq == RenameSet(s2.opq, a, b)
    ensures s4 == State(Moved(s2.disk, a, b), RenameSet(s2.wh, a, b), RenameSet(s2.opq, a, b))
  {
  }

  lemma OpaqueSameWh(s: State, b: Path)
    ensures AddOpaque(s, b).wh == s.wh
  {
  }

  /** The destination's mask stays a mask through the rewrite. */
  lemma MovedKeepsMark(s2: State, a: Path, b: Path)
    requires b != [] && Inv(s2) && a in s2.disk && Disjoint(a, b)
    requires forall q :: q in s2.wh && q != b ==> !Under(b, q)
    ensures b in RenameSet(s2.wh, a, b) <==> b in s2.wh
  {
    hide TreeOk, DiskClean, Mirrors;
    forall r | r in s2.wh && Under(a, r)
      ensures b + r[|a|..] != b
    {
      assert r != a;
      assert |b + r[|a|..]| > |b|;
    }
  }

  lemma UnhiddenBoth(s2: State, s4: State, s5: State, b: Path, isOpaque: bool)
    requires b != [] && (b in s4.wh <==> b in s2.wh)
    requires s5 == Unhidden(if isOpaque then AddOpaque(s4, b) else s4, b, s4.wh)
    ensures s5 == Unhidden(if isOpaque then AddOpaque(s4, b) else s4, b, s2.wh)
  {
  }
}
