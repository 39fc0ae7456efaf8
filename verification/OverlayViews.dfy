/** What the guest sees change when the state changes, and what a directory lists. */
module OverlayViews {
  import opened Bytes
  import opened Tree
  import opened OverlayState
  import opened OverlaySteps

  /** Children of `d` on disk whose names satisfy neither marker form. */
  function OwnNames(d: Fs, v: Path): set<Name> {
    set q | q in d && q != [] && Parent(q) == v && !IsMarker(Last(q)) :: Last(q)
  }

  function MarkerNamesIn(d: Fs, v: Path): set<Name> {
    set q | q in d && q != [] && Parent(q) == v && IsMarker(Last(q)) :: Last(q)
  }

  function WhiteoutNames(d: Fs, v: Path): set<Name> {
    set q | q in d && q != [] && Parent(q) == v && IsMarker(Last(q)) && Last(q) != OPQ :: Unwh(Last(q))
  }

  /**
   * CollectChildren: the writelayer's own names and, unless this directory is opaque, the layers', less
   * the deleted.
   */
  function Children(s: State, l: Lower, v: Path): set<Name> {
    OwnNames(s.disk, v) + (if OpqPath(v) in s.disk then {} else l.names(v)) - WhiteoutNames(s.disk, v)
  }

  /** VfsReaddirTyped: the collected names that can be served. */
  function Listed(s: State, l: Lower, v: Path): set<Name> {
    set n | n in Children(s, l, v) && At(s, l, v + [n]).Some?
  }

  /** The whiteout names in a directory are the names deleted there. */
  lemma WhiteoutNamesAreDeleted(s: State, v: Path, n: Name)
    requires Inv(s) && Clean(v) && GoodName(n)
    ensures n in WhiteoutNames(s.disk, v) <==> v + [n] in s.wh
  {
    var q := v + [n];
    ChildOf(v, n);
    CleanChild(v, n);
    WhOnDisk(s, q);
    if q in s.wh {
      MarkerNames(n);
      ChildOf(v, Wh(n));
      assert WhPath(q) in s.disk;
    }
  }

  lemma OwnNameResolves(s: State, l: Lower, v: Path, n: Name)
    requires Inv(s) && Clean(v) && n in OwnNames(s.disk, v)
    ensures GoodName(n) && v + [n] in s.disk && At(s, l, v + [n]).Some?
  {
    var q :| q in s.disk && q != [] && Parent(q) == v && !IsMarker(Last(q)) && Last(q) == n;
    ParentLast(q);
  }

  /** Every name that resolves is collected. */
  lemma ResolvedIsCollected(s: State, l: Lower, v: Path, n: Name)
    requires Inv(s) && LowerOk(l) && Clean(v) && GoodName(n) && At(s, l, v + [n]).Some?
    ensures n in Children(s, l, v)
  {
    ChildOf(v, n);
    WhiteoutNamesAreDeleted(s, v, n);
  }

  /** Exact listing: a guest name is listed exactly when it resolves. */
  lemma ListingIsExact(s: State, l: Lower, v: Path, n: Name)
    requires Inv(s) && LowerOk(l) && Clean(v) && GoodName(n)
    ensures n in Listed(s, l, v) <==> At(s, l, v + [n]).Some?
  {
    if At(s, l, v + [n]).Some? {
      ResolvedIsCollected(s, l, v, n);
    }
  }

  /** A directory with nothing to list has nothing visible below it. */
  lemma EmptyDirectory(s: State, l: Lower, v: Path)
    requires Inv(s) && LowerOk(l) && Clean(v) && Children(s, l, v) == {}
    ensures forall p :: Clean(p) && Under(v, p) && p != v ==> Visible(s, l, p) == None
    ensures OwnNames(s.disk, v) == {}
  {
    forall q | Clean(q) && q != [] && Parent(q) == v
      ensures At(s, l, q) == None
    {
      ParentLast(q);
      CleanParent(q);
      if At(s, l, q).Some? { ResolvedIsCollected(s, l, v, Last(q)); }
    }
    forall p | Clean(p) && Under(v, p) && p != v
      ensures Visible(s, l, p) == None
    {
      EmptyBelow(s, l, v, p);
    }
    forall n | n in OwnNames(s.disk, v)
      ensures n in Children(s, l, v)
    {
      OwnNameResolves(s, l, v, n);
      ResolvedIsCollected(s, l, v, n);
    }
    assert OwnNames(s.disk, v) <= {};
  }

  /** The visible directory `p` lists a name that does not resolve. */
  ghost predicate DeniedAt(s: State, l: Lower, p: Path, n: Name) {
    Clean(p) && Visible(s, l, p) == Some(Dir) && n in Children(s, l, p) && At(s, l, p + [n]) == None
  }

  /** Some visible directory at or below `v` does. */
  ghost predicate Denied(s: State, l: Lower, v: Path) {
    exists p, n :: Under(v, p) && DeniedAt(s, l, p, n)
  }

  // ---- view changes ----

  lemma Appears(s: State, s': State, l: Lower, v: Path, n: Node)
    requires v != [] && Clean(v) && Visible(s, l, Parent(v)) == Some(Dir)
    requires SameOutside(s, s', l, v) && At(s', l, v) == Some(n)
    requires n == Dir ==> forall q :: Clean(q) && q != [] && Parent(q) == v ==> At(s', l, q) == None
    ensures ViewSet(s, s', l, v, Some(n))
  {
    CleanParent(v);
    NotUnderParent(v);
    OutsideStays(s, s', l, v, Parent(v));
    forall p | Clean(p) && !Under(v, p) ensures Visible(s', l, p) == Visible(s, l, p) {
      OutsideStays(s, s', l, v, p);
    }
    forall p | Clean(p) && Under(v, p) && p != v ensures Visible(s', l, p) == None {
      if n == Dir { EmptyBelow(s', l, v, p); } else { NothingBelow(s', l, v, p); }
    }
  }

  lemma Vanishes(s: State, s': State, l: Lower, v: Path)
    requires v != [] && Clean(v) && SameOutside(s, s', l, v) && At(s', l, v) == None
    ensures ViewSet(s, s', l, v, None)
  {
    forall p | Clean(p) && !Under(v, p) ensures Visible(s', l, p) == Visible(s, l, p) {
      OutsideStays(s, s', l, v, p);
    }
    assert Visible(s', l, v) == None;
    forall p | Clean(p) && Under(v, p) && p != v ensures Visible(s', l, p) == None {
      NothingBelow(s', l, v, p);
    }
  }

  lemma SameEverywhere(s: State, s': State, l: Lower)
    requires forall q :: Clean(q) ==> At(s', l, q) == At(s, l, q)
    ensures ViewKept(s, s', l)
  {
    forall p | Clean(p) ensures Visible(s', l, p) == Visible(s, l, p) {
      SameAlong(s, s', l, p);
    }
  }

  lemma {:induction false} SameAlong(s: State, s': State, l: Lower, p: Path)
    requires Clean(p) && forall q :: Clean(q) ==> At(s', l, q) == At(s, l, q)
    ensures Visible(s', l, p) == Visible(s, l, p)
    decreases |p|
  {
    if p != [] {
      CleanParent(p);
      SameAlong(s, s', l, Parent(p));
    }
  }

  lemma OutsideTrans(a: State, b: State, c: State, l: Lower, v: Path)
    requires SameOutside(a, b, l, v) && SameOutside(b, c, l, v)
    ensures SameOutside(a, c, l, v)
  {
  }

  lemma OutsideWider(a: State, b: State, l: Lower, v: Path, w: Path)
    requires SameOutside(a, b, l, w) && Under(v, w)
    ensures SameOutside(a, b, l, v)
  {
    forall q | Clean(q) && !Under(v, q)
      ensures At(b, l, q) == At(a, l, q)
    {
      if Under(w, q) { PrefixTransitive(v, w, q); }
    }
  }

  /** A directory just made at `v`, over nothing that could show through, is empty. */
  lemma NewDirectoryIsEmpty(s: State, s': State, l: Lower, v: Path)
    requires Inv(s') && LowerOk(l) && v != [] && Clean(v)
    requires forall q :: q in s'.disk && q != [] && Parent(q) == v ==> !Clean(q)
    requires v in s'.opq || Blocked(s', v) || v !in l.nodes
    ensures forall q :: Clean(q) && q != [] && Parent(q) == v ==> At(s', l, q) == None
  {
    forall q | Clean(q) && q != [] && Parent(q) == v
      ensures At(s', l, q) == None
    {
      UnderParent(v, q);
      if v in s'.opq { MaskBlocks(s', v, q); }
      else if Blocked(s', v) { BlockedBelow(s', v, q); }
    }
  }

  lemma OutsideSame(s: State, l: Lower, v: Path)
    ensures SameOutside(s, s, l, v)
  {
  }

  /** Lifting the deletion of `v`, if there is one, shows nothing: an ancestor is masked, or no layer has it. */
  predicate SafeToLift(s: State, l: Lower, v: Path) {
    v !in s.wh || Blocked(s, v) || v !in l.nodes
  }

  /** What RemoveWhiteout lets show: the layers' copy, unless an ancestor is masked. */
  lemma Undeleted(s: State, l: Lower, v: Path)
    requires Inv(s) && LowerOk(l) && v != [] && Clean(v) && Visible(s, l, Parent(v)) == Some(Dir)
    ensures ViewKept(s, DropWhiteout(s, v), l) <==> SafeToLift(s, l, v)
  {
    hide Mirrors, DiskClean, TreeOk, Blocked, SameOutside, LowerOk;
    var s' := DropWhiteout(s, v);
    DropWhiteoutKeeps(s, l, v);
    CleanParent(v);
    NotUnderParent(v);
    OutsideStays(s, s', l, v, Parent(v));
    if v !in s.wh {
      WhOnDisk(s, v);
      assert s' == s;
    } else if Blocked(s, v) || v !in l.nodes {
      Vanishes(s, s', l, v);
      OutsideSame(s, l, v);
      Vanishes(s, s, l, v);
    } else {
      assert Visible(s', l, v) != Visible(s, l, v);
    }
  }

  // ---- what comes back from the layers ----

  function LowerNode(l: Lower, p: Path): Option<Node> {
    if p in l.nodes then Some(l.nodes[p]) else None
  }

  /** At and below `v` exactly the layers show, all of them. */
  ghost predicate LowerShows(s: State, l: Lower, v: Path) {
    forall p :: Clean(p) && Under(v, p) ==> At(s, l, p) == LowerNode(l, p)
  }

  /** From `s` to `s'` the layers' subtree at `v` came back whole, and nothing else changed. */
  ghost predicate Restored(s: State, s': State, l: Lower, v: Path) {
    SameOutside(s, s', l, v) && LowerShows(s', l, v)
  }

  /** Nothing of the writelayer's own, entry or mask, lies below what it does not hold. */
  lemma {:induction false} NothingOwnBelow(s: State, v: Path, p: Path)
    requires Inv(s) && Clean(p) && Under(v, p) && v !in s.disk && v !in s.wh && !Blocked(s, v)
    ensures p !in s.disk && p !in s.wh && p !in s.opq && !Blocked(s, p)
    decreases |p|
  {
    if p in s.disk { TreePrefix(s.disk, v, p); }
    if p != v {
      UnderParent(v, p);
      CleanParent(p);
      NothingOwnBelow(s, v, Parent(p));
      WhOnDisk(s, p);
    }
    if p in s.opq { OpqNeedsDir(s, p); }
  }

  lemma OpqNeedsDir(s: State, p: Path)
    requires Inv(s) && p in s.opq
    ensures p in s.disk
  {
    ChildOf(p, OPQ);
  }

  /** What resolves to the layers shows them whole. */
  lemma LayersShowWhole(s: State, l: Lower, v: Path)
    requires Inv(s) && Clean(v) && v != [] && v !in s.disk && Resolve(s, l, v) != Miss
    ensures LowerShows(s, l, v)
  {
    forall p | Clean(p) && Under(v, p)
      ensures At(s, l, p) == LowerNode(l, p)
    {
      NothingOwnBelow(s, v, p);
    }
  }

  /** A deletion lifted over a copy of the layers brings their subtree back whole. */
  lemma UndeletedRestores(s: State, l: Lower, v: Path)
    requires Inv(s) && v != [] && Clean(v) && !SafeToLift(s, l, v)
    ensures Restored(s, DropWhiteout(s, v), l, v)
  {
    hide TreeOk, DiskClean, Mirrors, Blocked;
    DropWhiteoutKeeps(s, l, v);
    LayersShowWhole(DropWhiteout(s, v), l, v);
  }
}
