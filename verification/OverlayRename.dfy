/** Copy-up and rename: what they keep, what they move. */
module OverlayRename {
  import opened Bytes
  import opened Tree
  import opened OverlayState
  import opened OverlaySteps
  import opened OverlayViews

  // ---- copy-up ----

  /** The lower copy, written out where it already shows. */
  lemma CopyKeeps(s: State, l: Lower, v: Path, n: Node)
    requires Inv(s) && v != [] && Clean(v) && IsDirIn(s.disk, Parent(v))
    requires Resolve(s, l, v) == InLower(n)
    ensures Inv(Put(s, v, n)) && (forall q :: At(Put(s, v, n), l, q) == At(s, l, q))
  {
    hide Inv, Blocked, Clean;
    PutKeeps(s, l, v, n);
    forall q ensures At(Put(s, v, n), l, q) == At(s, l, q) {
      SameMasks(s, Put(s, v, n), q);
    }
  }

  /** The same masks, at least the same entries, and everything resolves as before. */
  ghost predicate Copied(s: State, s': State, l: Lower) {
    && s'.wh == s.wh && s'.opq == s.opq
    && (forall q :: q in s.disk ==> q in s'.disk && s'.disk[q] == s.disk[q])
    && (forall q :: At(s', l, q) == At(s, l, q))
  }

  lemma CopiedView(s: State, s': State, l: Lower, p: Path)
    requires Copied(s, s', l)
    ensures Visible(s', l, p) == Visible(s, l, p)
  {
    SameView(s, s', l, p);
  }

  /** Everything visible at or below `v` has its own copy in the writelayer. */
  ghost predicate UpFrom(s: State, l: Lower, v: Path) {
    forall p :: Clean(p) && Under(v, p) && Visible(s, l, p).Some? ==> p in s.disk
  }

  lemma UpFromChildren(s: State, l: Lower, v: Path, names: set<Name>)
    requires Inv(s) && LowerOk(l) && Clean(v) && v in s.disk
    requires forall n :: GoodName(n) && At(s, l, v + [n]).Some? ==> n in names
    requires forall n :: n in names ==> UpFrom(s, l, v + [n])
    ensures UpFrom(s, l, v)
  {
    forall p | Clean(p) && Under(v, p) && Visible(s, l, p).Some?
      ensures p in s.disk
    {
      if p != v {
        var n := p[|v|];
        var c := v + [n];
        assert p[..|c|] == c;
        assert Under(c, p);
        VisiblePrefix(s, l, c, p);
        ChildOf(v, n);
        assert UpFrom(s, l, c);
      }
    }
  }

  /** Copying up changes no listing. */
  lemma ChildrenStay(s: State, s': State, l: Lower, p: Path)
    requires Inv(s) && Inv(s') && LowerOk(l) && Copied(s, s', l) && Clean(p)
    ensures Children(s', l, p) == Children(s, l, p)
  {
    OpqMirrored(s, p);
    OpqMirrored(s', p);
    forall n
      ensures n in Children(s', l, p) <==> n in Children(s, l, p)
    {
      if GoodName(n) {
        WhiteoutNamesAreDeleted(s, p, n);
        WhiteoutNamesAreDeleted(s', p, n);
        assert At(s', l, p + [n]) == At(s, l, p + [n]);
        if n in OwnNames(s'.disk, p) { OwnNameResolves(s', l, p, n); ResolvedIsCollected(s, l, p, n); }
        if n in OwnNames(s.disk, p) { OwnNameResolves(s, l, p, n); ResolvedIsCollected(s', l, p, n); }
      } else {
        if n in OwnNames(s'.disk, p) { OwnNameResolves(s', l, p, n); }
        if n in OwnNames(s.disk, p) { OwnNameResolves(s, l, p, n); }
      }
    }
  }

  lemma OpqMirrored(s: State, p: Path)
    requires Inv(s)
    ensures OpqPath(p) in s.disk <==> p in s.opq
  {
  }

  lemma DeniedStays(s: State, s': State, l: Lower, v: Path)
    requires Inv(s) && Inv(s') && LowerOk(l) && Copied(s, s', l)
    ensures Denied(s', l, v) == Denied(s, l, v)
  {
    hide Inv, LowerOk, Copied, Children, Visible, At;
    forall p, n
      ensures DeniedAt(s', l, p, n) == DeniedAt(s, l, p, n)
    {
      if Clean(p) {
        ChildrenStay(s, s', l, p);
        CopiedView(s, s', l, p);
        CopiedAt(s, s', l, p + [n]);
      }
    }
  }

  lemma CopiedAt(s: State, s': State, l: Lower, q: Path)
    requires Copied(s, s', l)
    ensures At(s', l, q) == At(s, l, q)
  {
  }

  /** The first step from `v` towards something visible is listed and resolves. */
  lemma FirstStep(s: State, l: Lower, v: Path, p: Path)
    requires Inv(s) && LowerOk(l) && Clean(p) && Under(v, p) && p != v && Visible(s, l, p).Some?
    ensures |p| > |v| && Under(v + [p[|v|]], p) && p[|v|] in Children(s, l, v)
  {
    hide Inv, LowerOk, Children, At;
    var c := p[|v|];
    assert p[..|v| + 1] == v + [c];
    assert Under(v + [c], p);
    CleanPrefix(v, p);
    assert GoodName(c);
    VisiblePrefix(s, l, v + [c], p);
    AtVisible(s, l, v + [c]);
    ResolvedIsCollected(s, l, v, c);
  }

  /** A directory none of whose listed names is denied, nor anything below them, is not denied itself. */
  lemma NoneDenied(s: State, l: Lower, v: Path)
    requires Clean(v) && Inv(s) && LowerOk(l)
    requires forall n :: n in Children(s, l, v) ==> At(s, l, v + [n]).Some? && !Denied(s, l, v + [n])
    ensures !Denied(s, l, v)
  {
    hide Inv, LowerOk, Children, At, Visible, Clean, Under;
    forall p, n | Under(v, p)
      ensures !DeniedAt(s, l, p, n)
    {
      if p != v && Clean(p) && Visible(s, l, p).Some? {
        FirstStep(s, l, v, p);
      }
    }
  }

  lemma AtVisible(s: State, l: Lower, p: Path)
    requires Visible(s, l, p).Some?
    ensures At(s, l, p) == Visible(s, l, p)
  {
  }

  /** A denied name of a child, or of the directory itself, is a denied name of the directory. */
  lemma DeniedWider(s: State, l: Lower, v: Path, n: Name)
    requires Clean(v) && n in Children(s, l, v) && Visible(s, l, v) == Some(Dir)
    requires At(s, l, v + [n]) == None || Denied(s, l, v + [n])
    ensures Denied(s, l, v)
  {
    hide Visible, At, Children;
    if At(s, l, v + [n]) == None {
      assert Under(v, v) && DeniedAt(s, l, v, n);
    } else {
      var p, m :| Under(v + [n], p) && DeniedAt(s, l, p, m);
      assert Under(v, v + [n]);
      PrefixTransitive(v, v + [n], p);
    }
  }

  lemma UpFromChild(s: State, l: Lower, v: Path, n: Name)
    requires UpFrom(s, l, v)
    ensures UpFrom(s, l, v + [n])
  {
    forall p | Clean(p) && Under(v + [n], p) && Visible(s, l, p).Some?
      ensures p in s.disk
    {
      PrefixTransitive(v, v + [n], p);
    }
  }

  lemma UpFromStays(s: State, s': State, l: Lower, v: Path)
    requires UpFrom(s, l, v) && Copied(s, s', l)
    ensures UpFrom(s', l, v)
  {
    forall p | Clean(p) && Under(v, p) && Visible(s', l, p).Some?
      ensures p in s'.disk
    {
      CopiedView(s, s', l, p);
    }
  }

  // ---- rename ----

  /** RenameMaskPrefix: entries at and below `a` move to `b`. */
  function RenameSet(m: set<Path>, a: Path, b: Path): set<Path> {
    (set p | p in m && !Under(a, p)) + (set p | p in m && Under(a, p) :: b + p[|a|..])
  }

  lemma JoinIsUnder(b: Path, x: Path)
    ensures Under(b, b + x)
  {
  }

  lemma RenameSetEntries(m: set<Path>, a: Path, b: Path, p: Path)
    requires forall q :: q in m ==> !Under(b, q)
    ensures p in RenameSet(m, a, b) <==> if Under(b, p) then a + p[|b|..] in m else p in m && !Under(a, p)
  {
    if Under(b, p) {
      var q := a + p[|b|..];
      assert q[|a|..] == p[|b|..] && b + q[|a|..] == p && Under(a, q);
      assert p in RenameSet(m, a, b) ==> exists r :: r in m && Under(a, r) && b + r[|a|..] == p;
      if p in RenameSet(m, a, b) {
        var r :| r in m && Under(a, r) && b + r[|a|..] == p;
        assert r == a + r[|a|..] && p[|b|..] == r[|a|..];
      }
    } else {
      forall r | r in m && Under(a, r)
        ensures b + r[|a|..] != p
      {
        JoinIsUnder(b, r[|a|..]);
      }
    }
  }

  /** The state after the host rename and the mask rewrite. */
  function Renamed(s: State, a: Path, b: Path): State {
    State(Moved(s.disk, a, b), RenameSet(s.wh, a, b), RenameSet(s.opq, a, b))
  }

  /** What the host demanded of the destination, and what RemoveWhiteout left there. */
  ghost predicate Renamable(s: State, a: Path, b: Path) {
    && Clean(a) && Clean(b) && a != [] && b != [] && Disjoint(a, b)
    && a in s.disk && IsDirIn(s.disk, Parent(b)) && !HasChild(s.disk, b)
    && b !in s.wh
  }

  lemma NoMasksBelowLeaf(s: State, b: Path)
    requires Inv(s) && b != [] && Clean(b) && !HasChild(s.disk, b) && b !in s.wh
    ensures forall q :: q in s.wh ==> !Under(b, q)
    ensures forall q :: q in s.opq ==> !Under(b, q)
    ensures forall q :: q in s.disk && Under(b, q) ==> q == b
  {
    forall q | q in s.disk && Under(b, q)
      ensures q == b
    {
      LeafHasNothing(s.disk, b, q);
    }
    forall q | q in s.wh
      ensures !Under(b, q)
    {
      if Under(b, q) {
        UnderParent(b, q);
        ChildOf(Parent(q), Wh(Last(q)));
        UnderParent(b, WhPath(q));
        MarkerPathsNotClean(q);
      }
    }
    forall q | q in s.opq
      ensures !Under(b, q)
    {
      if Under(b, q) {
        ChildOf(q, OPQ);
        UnderParent(b, OpqPath(q));
        MarkerPathsNotClean(q);
      }
    }
  }

  lemma {:induction false} LeafHasNothing(t: Fs, b: Path, q: Path)
    requires TreeOk(t) && !HasChild(t, b) && q in t && Under(b, q)
    ensures q == b
    decreases |q|
  {
    if q != b {
      UnderParent(b, q);
      LeafHasNothing(t, b, Parent(q));
    }
  }

  /** The path at the other end of a rename. */
  function Swap(p: Path, from: Path, to: Path): Path
    requires Under(from, p)
  {
    to + p[|from|..]
  }

  lemma SwapParent(p: Path, from: Path, to: Path)
    requires Under(from, p) && p != from
    ensures p != [] && Under(from, Parent(p)) && Swap(p, from, to) != []
    ensures Parent(Swap(p, from, to)) == Swap(Parent(p), from, to)
    ensures Last(Swap(p, from, to)) == Last(p)
    ensures Under(to, Swap(p, from, to)) && Swap(p, from, to) != to
  {
    UnderParent(from, p);
    var k := |from|;
    var r := Swap(p, from, to);
    assert r[..|r| - 1] == to + p[k..][..|p| - k - 1];
    assert p[k..][..|p| - k - 1] == Parent(p)[k..];
  }

  lemma SwapClean(p: Path, from: Path, to: Path)
    requires Under(from, p) && Clean(to)
    ensures Clean(p) ==> Clean(Swap(p, from, to))
  {
    var r := Swap(p, from, to);
    if Clean(p) {
      forall i | 0 <= i < |r|
        ensures GoodName(r[i])
      {
        if i >= |to| { assert r[i] == p[|from| + (i - |to|)]; }
      }
    }
  }

  lemma SwapSwap(p: Path, from: Path, to: Path)
    requires Under(from, p)
    ensures Under(to, Swap(p, from, to)) && Swap(Swap(p, from, to), to, from) == p
  {
  }

  lemma SwapSelf(from: Path, to: Path)
    ensures Under(from, from) && Swap(from, from, to) == to
  {
  }

  lemma MovedAt(t: Fs, a: Path, b: Path, p: Path)
    ensures p in Moved(t, a, b) <==> if Under(b, p) then Swap(p, b, a) in t else p in t && !Under(a, p)
    ensures p in Moved(t, a, b) ==> Moved(t, a, b)[p] == if Under(b, p) then t[Swap(p, b, a)] else t[p]
  {
    MovedEntries(t, a, b, p);
  }

  lemma MovedTree(s: State, a: Path, b: Path)
    requires Inv(s) && Renamable(s, a, b)
    ensures TreeOk(Moved(s.disk, a, b)) && DiskClean(Moved(s.disk, a, b))
  {
    var t := Moved(s.disk, a, b);
    forall p | p in t && p != []
      ensures Parent(p) in t && t[Parent(p)] == Dir
      ensures Clean(Parent(p)) && Last(p) != ""
      ensures IsMarker(Last(p)) ==> t[p].File? && (Last(p) == OPQ || GoodName(Unwh(Last(p))))
    {
      MovedAt(s.disk, a, b, p);
      MovedAt(s.disk, a, b, Parent(p));
      UnderParent(b, p);
      UnderParent(a, p);
      if p == b {
        NotUnderParent(b);
        UnderParent(a, b);
        CleanParent(b);
      } else if Under(b, p) {
        SwapParent(p, b, a);
        SwapSwap(p, b, a);
        SwapClean(Parent(Swap(p, b, a)), a, b);
        SwapSwap(Parent(p), b, a);
      }
    }
    MovedAt(s.disk, a, b, []);
  }

  /** The markers of a moved directory are the markers of what moved. */
  lemma MovedMarks(s: State, a: Path, b: Path, v: Path)
    requires Inv(s) && Renamable(s, a, b) && v != []
    ensures Clean(v) ==> (WhPath(v) in Moved(s.disk, a, b) <==> v in RenameSet(s.wh, a, b))
    ensures v in RenameSet(s.wh, a, b) ==> Clean(v)
  {
    NoMasksBelowLeaf(s, b);
    RenameSetEntries(s.wh, a, b, v);
    MovedAt(s.disk, a, b, WhPath(v));
    ChildOf(Parent(v), Wh(Last(v)));
    MarkerPathsNotClean(v);
    UnderParent(b, v);
    UnderParent(a, v);
    UnderParent(b, WhPath(v));
    UnderParent(a, WhPath(v));
    if Under(b, v) && v != b {
      SwapParent(v, b, a);
      SwapParent(WhPath(v), b, a);
      var w := Swap(v, b, a);
      ParentLast(Swap(WhPath(v), b, a));
      assert WhPath(w) == Swap(WhPath(v), b, a);
      if Clean(v) { SwapClean(v, b, a); WhOnDisk(s, w); }
      if w in s.wh { SwapClean(w, a, b); SwapSwap(v, b, a); }
    } else if v == b {
      SwapSelf(b, a);
      VisibleOnDisk(s, a);
      NotUnderParent(b);
      WhOnDisk(s, b);
    } else {
      if Clean(v) { WhOnDisk(s, v); }
      VisibleOnDisk(s, a);
      if v == a { NotUnderParent(a); WhOnDisk(s, a); }
    }
  }

  lemma VisibleOnDisk(s: State, a: Path)
    requires Inv(s) && a in s.disk
    ensures a !in s.wh
  {
  }

  lemma MovedOpq(s: State, a: Path, b: Path, d: Path)
    requires Inv(s) && Renamable(s, a, b)
    ensures OpqPath(d) in Moved(s.disk, a, b) <==> d in RenameSet(s.opq, a, b)
  {
    hide Moved, RenameSet;
    NoMasksBelowLeaf(s, b);
    RenameSetEntries(s.opq, a, b, d);
    MovedAt(s.disk, a, b, OpqPath(d));
    OpqUnder(a, d);
    OpqUnder(b, d);
    if Under(b, d) {
      OpqSwap(d, b, a);
    }
  }

  lemma OpqUnder(a: Path, d: Path)
    requires Clean(a)
    ensures Under(a, OpqPath(d)) <==> Under(a, d)
  {
    ChildOf(d, OPQ);
    UnderParent(a, OpqPath(d));
    MarkerPathsNotClean(d);
  }

  lemma OpqSwap(d: Path, b: Path, a: Path)
    requires Under(b, d)
    ensures Under(b, OpqPath(d)) && Swap(OpqPath(d), b, a) == OpqPath(Swap(d, b, a))
  {
    assert OpqPath(d)[|b|..] == d[|b|..] + [OPQ];
  }

  lemma RenamedInv(s: State, a: Path, b: Path)
    requires Inv(s) && Renamable(s, a, b)
    ensures Inv(Renamed(s, a, b))
  {
    hide Moved, RenameSet, Renamable;
    var s' := Renamed(s, a, b);
    MovedTree(s, a, b);
    RenamableFacts(s, a, b);
    forall v | v in s'.wh
      ensures v != [] && Clean(v) && WhPath(v) in s'.disk && v !in s'.disk
    {
      RootNeverMoved(s, a, b);
      MovedMarks(s, a, b, v);
      MovedApart(s, a, b, v);
    }
    forall p | p in s'.disk && p != [] && IsMarker(Last(p)) && Last(p) != OPQ
      ensures Parent(p) + [Unwh(Last(p))] in s'.wh
    {
      MarkedPath(p);
      var v := Parent(p) + [Unwh(Last(p))];
      CleanChild(Parent(p), Unwh(Last(p)));
      MovedMarks(s, a, b, v);
    }
    forall v ensures v in s'.opq <==> OpqPath(v) in s'.disk {
      MovedOpq(s, a, b, v);
    }
  }

  lemma RenamableFacts(s: State, a: Path, b: Path)
    requires Renamable(s, a, b)
    ensures Clean(a) && Clean(b) && a != [] && b != [] && Disjoint(a, b)
  {
  }

  lemma RootNeverMoved(s: State, a: Path, b: Path)
    requires Inv(s) && Renamable(s, a, b)
    ensures [] !in RenameSet(s.wh, a, b)
  {
    NoMasksBelowLeaf(s, b);
    RenameSetEntries(s.wh, a, b, []);
  }

  lemma MovedApart(s: State, a: Path, b: Path, v: Path)
    requires Inv(s) && Renamable(s, a, b) && v in RenameSet(s.wh, a, b)
    ensures v !in Moved(s.disk, a, b)
  {
    NoMasksBelowLeaf(s, b);
    RenameSetEntries(s.wh, a, b, v);
    MovedAt(s.disk, a, b, v);
  }

  // ---- what a rename shows ----

  /** Some directory strictly above `a + q`, from `a` on, is masked. */
  predicate MaskedOnWay(s: State, a: Path, q: Path) {
    q != [] && (a + Parent(q) in s.opq || a + Parent(q) in s.wh || MaskedOnWay(s, a, Parent(q)))
  }

  lemma {:induction false} RenamedBlocks(s: State, a: Path, b: Path, q: Path)
    requires Inv(s) && Renamable(s, a, b)
    ensures Blocked(Renamed(s, a, b), b + q) <==> Blocked(s, b) || MaskedOnWay(s, a, q)
    decreases |q|
  {
    var s' := Renamed(s, a, b);
    NoMasksBelowLeaf(s, b);
    if q == [] {
      assert b + q == b;
      ElsewhereBlocks(s, a, b, b);
    } else {
      var p := b + q;
      var up := b + Parent(q);
      assert Parent(p) == up;
      RenamedBlocks(s, a, b, Parent(q));
      RenameSetEntries(s.opq, a, b, up);
      RenameSetEntries(s.wh, a, b, up);
      assert up[|b|..] == Parent(q);
    }
  }

  lemma {:induction false} ElsewhereBlocks(s: State, a: Path, b: Path, p: Path)
    requires Inv(s) && Renamable(s, a, b)
    requires !Under(a, p) && (!Under(b, p) || p == b)
    ensures Blocked(Renamed(s, a, b), p) == Blocked(s, p)
    decreases |p|
  {
    NoMasksBelowLeaf(s, b);
    RenameSetEntries(s.opq, a, b, []);
    if p != [] {
      UnderParent(a, p);
      UnderParent(b, p);
      if p == b { NotUnderParent(b); }
      RenameSetEntries(s.opq, a, b, Parent(p));
      RenameSetEntries(s.wh, a, b, Parent(p));
      ElsewhereBlocks(s, a, b, Parent(p));
    }
  }

  /** Away from both ends everything resolves as before. */
  lemma RenamedElsewhere(s: State, l: Lower, a: Path, b: Path, p: Path)
    requires Inv(s) && Renamable(s, a, b) && !Under(a, p) && !Under(b, p)
    ensures At(Renamed(s, a, b), l, p) == At(s, l, p)
  {
    ElsewhereBlocks(s, a, b, p);
    NoMasksBelowLeaf(s, b);
    RenameSetEntries(s.wh, a, b, p);
    MovedAt(s.disk, a, b, p);
  }

  /** At the destination: what moved, or what the layers show there when nothing moved there. */
  lemma RenamedAtDest(s: State, l: Lower, a: Path, b: Path, q: Path)
    requires Inv(s) && Renamable(s, a, b)
    ensures At(Renamed(s, a, b), l, b + q) ==
      if a + q in s.wh then None
      else if a + q in s.disk then Some(s.disk[a + q])
      else if Blocked(s, b) || MaskedOnWay(s, a, q) || b + q !in l.nodes then None
      else Some(l.nodes[b + q])
  {
    var p := b + q;
    assert p[|b|..] == q;
    NoMasksBelowLeaf(s, b);
    RenameSetEntries(s.wh, a, b, p);
    MovedAt(s.disk, a, b, p);
    RenamedBlocks(s, a, b, q);
  }

  /** Nothing the layers hold at the destination joins what was moved there. */
  ghost predicate DestinationIsFree(s: State, l: Lower, a: Path, b: Path) {
    forall q :: JoinsMoved(s, l, a, b, q) ==> a + q in s.wh || Visible(s, l, a + q).Some?
  }

  /** A name the layers would show below the destination, inside a directory that moved there. */
  ghost predicate JoinsMoved(s: State, l: Lower, a: Path, b: Path, q: Path) {
    && q != [] && Clean(q) && b + q in l.nodes
    && !Blocked(s, b) && !MaskedOnWay(s, a, q)
    && Visible(s, l, a + Parent(q)) == Some(Dir)
  }

  /** The destination shows exactly what the source showed. */
  ghost predicate MovedView(s: State, s': State, l: Lower, a: Path, b: Path) {
    forall q :: Clean(q) ==> Visible(s', l, b + q) == Visible(s, l, a + q)
  }

  lemma RenamedParents(s: State, l: Lower, a: Path, b: Path, p: Path)
    requires Inv(s) && Renamable(s, a, b) && Clean(p) && !Under(a, p) && !Under(b, p)
    ensures Visible(Renamed(s, a, b), l, p) == Visible(s, l, p)
    decreases |p|
  {
    RenamedElsewhere(s, l, a, b, p);
    if p != [] {
      UnderParent(a, p);
      UnderParent(b, p);
      CleanParent(p);
      RenamedParents(s, l, a, b, Parent(p));
    }
  }

  lemma {:induction false} MovedShows(s: State, l: Lower, a: Path, b: Path, q: Path)
    requires Inv(s) && Renamable(s, a, b) && UpFrom(s, l, a) && Clean(q)
    requires Visible(s, l, a).Some? && Visible(s, l, Parent(b)) == Some(Dir)
    requires DestinationIsFree(s, l, a, b)
    ensures Visible(Renamed(s, a, b), l, b + q) == Visible(s, l, a + q)
    decreases |q|
  {
    var s' := Renamed(s, a, b);
    RenamedAtDest(s, l, a, b, q);
    AtEnds(s, a, b, q);
    if q == [] {
      NotUnderParent(b);
      UnderParent(a, b);
      CleanParent(b);
      RenamedParents(s, l, a, b, Parent(b));
      assert a in s.disk;
    } else {
      CleanParent(q);
      MovedShows(s, l, a, b, Parent(q));
      if Visible(s, l, a + Parent(q)) == Some(Dir) && a + q !in s.wh && a + q !in s.disk {
        assert Visible(s, l, a + q) == None;
        assert !JoinsMoved(s, l, a, b, q);
      }
    }
  }

  lemma AtEnds(s: State, a: Path, b: Path, q: Path)
    requires Clean(a) && Clean(b) && Clean(q)
    ensures Under(a, a + q) && Under(b, b + q) && Clean(a + q) && Clean(b + q)
    ensures q == [] ==> a + q == a && b + q == b
    ensures q != [] ==> a + q != [] && b + q != [] && Parent(a + q) == a + Parent(q) && Parent(b + q) == b + Parent(q)
  {
    if q != [] {
      assert (a + q)[..|a + q| - 1] == a + q[..|q| - 1];
      assert (b + q)[..|b + q| - 1] == b + q[..|q| - 1];
    }
  }

  /** The moved subtree shows unchanged exactly when nothing of the layers joins it. */
  lemma MovedViewIff(s: State, l: Lower, a: Path, b: Path)
    requires Inv(s) && Renamable(s, a, b) && UpFrom(s, l, a)
    requires Visible(s, l, a).Some? && Visible(s, l, Parent(b)) == Some(Dir)
    ensures MovedView(s, Renamed(s, a, b), l, a, b) <==> DestinationIsFree(s, l, a, b)
  {
    var s' := Renamed(s, a, b);
    if DestinationIsFree(s, l, a, b) {
      forall q | Clean(q) ensures Visible(s', l, b + q) == Visible(s, l, a + q) {
        MovedShows(s, l, a, b, q);
      }
    }
    if MovedView(s, s', l, a, b) {
      forall q | JoinsMoved(s, l, a, b, q)
        ensures a + q in s.wh || Visible(s, l, a + q).Some?
      {
        AtEnds(s, a, b, q);
        CleanParent(q);
        RenamedAtDest(s, l, a, b, q);
        assert Visible(s', l, b + Parent(q)) == Some(Dir);
        assert Visible(s', l, b + q) == Visible(s, l, a + q);
      }
    }
  }

  // ---- a whole rename, from the state before it ----

  /** Copies, a directory chain and the lifted whiteout of the destination: what the host rename starts from. */
  lemma {:induction false} FewerMasks(s: State, v: Path, q: Path)
    requires v != [] && Blocked(DropWhiteout(s, v), q)
    ensures Blocked(s, q)
    decreases |q|
  {
    if q != [] && Blocked(DropWhiteout(s, v), Parent(q)) {
      FewerMasks(s, v, Parent(q));
    }
  }

  lemma DropAfterCopies(s0: State, s2: State, l: Lower, v: Path, q: Path)
    requires Inv(s0) && Inv(s2) && Copied(s0, s2, l) && v != [] && Clean(v) && Clean(q)
    ensures At(DropWhiteout(s2, v), l, q) == At(DropWhiteout(s0, v), l, q)
  {
    hide Inv, Blocked, Mirrors;
    var a, b := DropWhiteout(s0, v), DropWhiteout(s2, v);
    MarkerPathsNotClean(v);
    SameMasks(a, b, q);
    WhOnDisk(s0, v);
    WhOnDisk(s2, v);
    if v !in s0.wh {
      assert a == s0 && b == s2;
    } else {
      DeletedIsOff(s2, v);
      if Blocked(a, q) { FewerMasks(s0, v, q); }
      assert At(s2, l, q) == At(s0, l, q);
      SameMasks(s0, s2, q);
    }
  }

  lemma DeletedIsOff(s: State, v: Path)
    requires Inv(s) && v in s.wh
    ensures v !in s.disk
  {
  }

  lemma {:induction false} SameWay(s: State, s': State, a: Path, q: Path)
    requires s.wh == s'.wh && s.opq == s'.opq
    ensures MaskedOnWay(s, a, q) == MaskedOnWay(s', a, q)
  {
    if q != [] { SameWay(s, s', a, Parent(q)); }
  }

  /** The condition on the destination reads the same before the copies and after them. */
  lemma SameDestination(s0: State, s2: State, l: Lower, a: Path, b: Path)
    requires Inv(s0) && Inv(s2) && Copied(s0, s2, l) && Clean(a) && Clean(b) && b != []
    ensures DestinationIsFree(DropWhiteout(s0, b), l, a, b) <==> DestinationIsFree(DropWhiteout(s2, b), l, a, b)
  {
    var x, y := DropWhiteout(s0, b), DropWhiteout(s2, b);
    forall p | Clean(p) ensures At(y, l, p) == At(x, l, p) { DropAfterCopies(s0, s2, l, b, p); }
    forall q
      ensures JoinsMoved(x, l, a, b, q) == JoinsMoved(y, l, a, b, q)
      ensures Clean(q) ==> Visible(x, l, a + q) == Visible(y, l, a + q)
    {
      SameMasks(x, y, b);
      SameWay(x, y, a, q);
      if q != [] && Clean(q) {
        CleanParent(q);
        AtEnds(x, a, b, Parent(q));
        SameAlong(x, y, l, a + Parent(q));
      }
      if Clean(q) {
        AtEnds(x, a, b, q);
        SameAlong(x, y, l, a + q);
      }
    }
  }

  // ---- an existing destination ----

  /** The host's own check of a rename: it looks at what the writelayer holds at the destination, markers included. */
  ghost predicate DiskAllows(s: State, l: Lower, a: Path, b: Path) {
    && Disjoint(a, b)
    && (b in s.disk ==> (Visible(s, l, a) == Some(Dir) <==> s.disk[b] == Dir))
    && !HasChild(s.disk, b)
  }

  /** The layers show no directory or file of another kind at the destination, and nothing inside a directory there. */
  ghost predicate Replaceable(s: State, l: Lower, a: Path, b: Path) {
    && (Visible(s, l, b).Some? ==> (Visible(s, l, a) == Some(Dir) <==> Visible(s, l, b) == Some(Dir)))
    && (Visible(s, l, b) == Some(Dir) ==> forall n :: !Resolve(s, l, b + [n]).InLower?)
  }

  /** The copies and the directory chain made before the host rename leave the destination as it was. */
  lemma DestinationStays(s0: State, s2: State, d: Fs, a: Path, b: Path)
    requires b != [] && Disjoint(a, b) && (d == s2.disk || d == s2.disk - {WhPath(b)})
    requires forall q :: q in s0.disk ==> q in s2.disk && s2.disk[q] == s0.disk[q]
    requires forall q :: q in s2.disk && q !in s0.disk ==> Under(q, a) || Under(a, q) || Under(q, Parent(b))
    ensures (b in d <==> b in s0.disk) && (b in d ==> d[b] == s0.disk[b])
    ensures HasChild(d, b) <==> HasChild(s0.disk, b)
  {
    NotUnderParent(b);
    ChildOf(Parent(b), Wh(Last(b)));
    MarkerIsNotIt(b);
    forall q | q != [] && Parent(q) == b
      ensures q in d <==> q in s0.disk
    {
      UnderParent(a, q);
      NotUnderParent(q);
      if Under(q, a) { PrefixTransitive(b, q, a); }
      assert |WhPath(b)| == |b|;
    }
  }

  lemma MarkerIsNotIt(b: Path)
    requires b != []
    ensures WhPath(b) != b
  {
    assert |Wh(Last(b))| == |Last(b)| + 4;
    assert WhPath(b)[|b| - 1] == Wh(Last(b));
  }

  lemma PrefixesCompare(a: Path, b: Path, p: Path)
    requires Under(a, p) && Under(b, p)
    ensures Under(a, b) || Under(b, a)
  {
    if |a| <= |b| {
      assert p[..|b|][..|a|] == p[..|a|];
    } else {
      assert p[..|a|][..|b|] == p[..|b|];
    }
  }

  lemma DisjointBelow(a: Path, b: Path, p: Path)
    requires Disjoint(a, b) && Under(a, p)
    ensures !Under(b, p)
  {
    if Under(b, p) {
      PrefixesCompare(a, b, p);
    }
  }

  /** Everything a rename changes: the old place is empty, the new place shows what moved, the rest stays. */
  ghost predicate RenamedView(s: State, s': State, l: Lower, a: Path, b: Path)
    requires b != []
  {
    && (forall p :: Clean(p) && !Under(a, p) && !Under(b, p) ==> Visible(s', l, p) == Visible(s, l, p))
    && (forall p :: Clean(p) && Under(a, p) ==> Visible(s', l, p) == None)
    && (MovedView(s, s', l, a, b) <==> DestinationIsFree(DropWhiteout(s, b), l, a, b))
  }

  lemma RenameRefines(s0: State, s2: State, s6: State, l: Lower, a: Path, b: Path)
    requires Inv(s0) && LowerOk(l) && Inv(s2) && Copied(s0, s2, l) && UpFrom(s2, l, a)
    requires Clean(a) && Clean(b) && a != [] && b != []
    requires Visible(s0, l, a).Some? && Visible(s0, l, Parent(b)) == Some(Dir)
    requires Visible(s0, l, Parent(a)) == Some(Dir)
    requires Inv(DropWhiteout(s2, b)) && Renamable(DropWhiteout(s2, b), a, b)
    ensures var s5 := Renamed(DropWhiteout(s2, b), a, b);
      && Inv(s5) && DirsFree(s5.disk, Parent(a)) && Inv(AddWhiteout(s5, a))
      && (s6 == (if Resolve(s5, l, a) != Miss then AddWhiteout(s5, a) else s5) ==> RenamedView(s0, s6, l, a, b))
  {
    var s3 := DropWhiteout(s2, b);
    var s5 := Renamed(s3, a, b);
    RenamableFacts(s3, a, b);
    StartFacts(s0, s2, l, a, b);
    RenamedInv(s3, a, b);
    SourceGone(s3, s5, l, a, b);
    AddWhiteoutKeeps(s5, l, a);
    SameDestination(s0, s2, l, a, b);
    MovedViewIff(s3, l, a, b);
    if s6 == (if Resolve(s5, l, a) != Miss then AddWhiteout(s5, a) else s5) {
      RestOfView(s0, s3, s5, s6, l, a, b);
    }
  }

  lemma StartFacts(s0: State, s2: State, l: Lower, a: Path, b: Path)
    requires Clean(a) && Clean(b) && a != [] && b != [] && Disjoint(a, b)
    requires Inv(s0) && Inv(s2) && Copied(s0, s2, l) && UpFrom(s2, l, a) && Inv(DropWhiteout(s2, b))
    ensures forall p :: Clean(p) && !Under(b, p) ==> Visible(DropWhiteout(s2, b), l, p) == Visible(s0, l, p)
    ensures UpFrom(DropWhiteout(s2, b), l, a)
    ensures !Under(b, a) && !Under(b, Parent(b)) && !Under(b, Parent(a)) && Clean(Parent(a)) && Clean(Parent(b))
  {
    hide Inv, At, Visible, Copied, UpFrom, DropWhiteout;
    var s3 := DropWhiteout(s2, b);
    DropWhiteoutKeeps(s2, l, b);
    CleanParent(a);
    CleanParent(b);
    NotUnderParent(b);
    UnderParent(b, a);
    forall p | Clean(p) && !Under(b, p)
      ensures Visible(s3, l, p) == Visible(s2, l, p) == Visible(s0, l, p)
    {
      OutsideStays(s2, s3, l, b, p);
      CopiedView(s0, s2, l, p);
    }
    UpFromStart(s2, l, a, b);
  }

  lemma UpFromStart(s2: State, l: Lower, a: Path, b: Path)
    requires b != [] && Disjoint(a, b) && UpFrom(s2, l, a)
    requires forall p :: Clean(p) && !Under(b, p) ==> Visible(DropWhiteout(s2, b), l, p) == Visible(s2, l, p)
    ensures UpFrom(DropWhiteout(s2, b), l, a)
  {
    hide At, Visible;
    var s3 := DropWhiteout(s2, b);
    forall p | Clean(p) && Under(a, p) && Visible(s3, l, p).Some?
      ensures p in s3.disk
    {
      DisjointBelow(a, b, p);
      MarkerPathsNotClean(b);
    }
  }

  lemma SourceGone(s3: State, s5: State, l: Lower, a: Path, b: Path)
    requires Inv(s3) && Renamable(s3, a, b) && s5 == Renamed(s3, a, b)
    requires Visible(s3, l, Parent(a)) == Some(Dir) && !Under(b, Parent(a)) && Clean(Parent(a)) && !Under(b, a)
    ensures a !in s5.disk && Visible(s5, l, Parent(a)) == Some(Dir)
  {
    MovedAt(s3.disk, a, b, a);
    NotUnderParent(a);
    RenamedParents(s3, l, a, b, Parent(a));
  }

  lemma RestOfView(s0: State, s3: State, s5: State, s6: State, l: Lower, a: Path, b: Path)
    requires Inv(s0) && Inv(s3) && Renamable(s3, a, b) && s5 == Renamed(s3, a, b) && Inv(s5)
    requires forall p :: Clean(p) && !Under(b, p) ==> Visible(s3, l, p) == Visible(s0, l, p)
    requires DirsFree(s5.disk, Parent(a)) && SameOutside(s5, AddWhiteout(s5, a), l, a)
    requires At(AddWhiteout(s5, a), l, a) == None
    requires s6 == (if Resolve(s5, l, a) != Miss then AddWhiteout(s5, a) else s5)
    requires MovedView(s3, s5, l, a, b) <==> DestinationIsFree(DropWhiteout(s0, b), l, a, b)
    ensures RenamedView(s0, s6, l, a, b)
  {
    hide Moved, RenameSet, Renamable, DestinationIsFree, At, Inv;
    assert SameOutside(s5, s6, l, a) && At(s6, l, a) == None by { HiddenSource(s5, s6, l, a); }
    RestAway(s0, s3, s5, s6, l, a, b);
    forall p | Clean(p) && Under(a, p)
      ensures Visible(s6, l, p) == None
    {
      Gone(s6, l, a, p);
    }
    RestMoved(s0, s3, s5, s6, l, a, b);
  }

  lemma HiddenSource(s5: State, s6: State, l: Lower, a: Path)
    requires a != [] && DirsFree(s5.disk, Parent(a))
    requires SameOutside(s5, AddWhiteout(s5, a), l, a) && At(AddWhiteout(s5, a), l, a) == None
    requires s6 == (if Resolve(s5, l, a) != Miss then AddWhiteout(s5, a) else s5)
    ensures SameOutside(s5, s6, l, a) && At(s6, l, a) == None
  {
  }

  lemma RestAway(s0: State, s3: State, s5: State, s6: State, l: Lower, a: Path, b: Path)
    requires Inv(s3) && Renamable(s3, a, b) && s5 == Renamed(s3, a, b) && SameOutside(s5, s6, l, a)
    requires forall p :: Clean(p) && !Under(b, p) ==> Visible(s3, l, p) == Visible(s0, l, p)
    ensures forall p :: Clean(p) && !Under(a, p) && !Under(b, p) ==> Visible(s6, l, p) == Visible(s0, l, p)
  {
    hide Moved, RenameSet, Renamable, At, Inv, Visible;
    forall p | Clean(p) && !Under(a, p) && !Under(b, p)
      ensures Visible(s6, l, p) == Visible(s0, l, p)
    {
      OutsideStays(s5, s6, l, a, p);
      RenamedParents(s3, l, a, b, p);
    }
  }

  lemma RestMoved(s0: State, s3: State, s5: State, s6: State, l: Lower, a: Path, b: Path)
    requires Renamable(s3, a, b) && SameOutside(s5, s6, l, a)
    requires forall p :: Clean(p) && !Under(b, p) ==> Visible(s3, l, p) == Visible(s0, l, p)
    ensures MovedView(s0, s6, l, a, b) <==> MovedView(s3, s5, l, a, b)
  {
    hide Moved, RenameSet, At, Visible, HasChild, IsDirIn;
    forall q | Clean(q)
      ensures Visible(s6, l, b + q) == Visible(s5, l, b + q) && Visible(s3, l, a + q) == Visible(s0, l, a + q)
    {
      AtEnds(s3, a, b, q);
      DisjointBelow(a, b, a + q);
      DisjointBelow(b, a, b + q);
      OutsideStays(s5, s6, l, a, b + q);
    }
  }

  lemma Gone(s: State, l: Lower, a: Path, p: Path)
    requires a != [] && At(s, l, a) == None && Under(a, p)
    ensures Visible(s, l, p) == None
  {
    if p != a { NothingBelow(s, l, a, p); }
  }
}
