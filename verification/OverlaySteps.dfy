/** The elementary changes of the overlay's state, each with what it keeps. */
module OverlaySteps {
  import opened Bytes
  import opened Tree
  import opened OverlayState

  /** RemoveWhiteout: the marker goes, then the mask entry. */
  function DropWhiteout(s: State, v: Path): State
    requires v != []
  {
    State(s.disk - {WhPath(v)}, s.wh - {v}, s.opq)
  }

  /** CreateWhiteout: the parent chain and the marker, then the mask entry. */
  function AddWhiteout(s: State, v: Path): State
    requires v != [] && DirsFree(s.disk, Parent(v))
  {
    State(CreateDirs(s.disk, Parent(v))[WhPath(v) := File([])], s.wh + {v}, s.opq)
  }

  function AddOpaque(s: State, d: Path): State {
    State(s.disk[OpqPath(d) := File([])], s.wh, s.opq + {d})
  }

  function DropOpaque(s: State, d: Path): State {
    State(s.disk - {OpqPath(d)}, s.wh, s.opq - {d})
  }

  function MakeDirs(s: State, p: Path): State
    requires DirsFree(s.disk, p)
  {
    s.(disk := CreateDirs(s.disk, p))
  }

  function Put(s: State, v: Path, n: Node): State {
    s.(disk := s.disk[v := n])
  }

  function Drop(s: State, v: Path): State {
    s.(disk := s.disk - {v})
  }

  // ---- what stays ----

  lemma {:induction false} SameMasksAbove(s: State, s': State, v: Path, q: Path)
    requires s'.wh - {v} == s.wh - {v} && s'.opq - {v} == s.opq - {v}
    requires v != [] && (!Under(v, q) || q == v)
    ensures Blocked(s', q) == Blocked(s, q)
    decreases |q|
  {
    if q != [] {
      UnderParent(v, q);
      NotUnderParent(v);
      assert !Under(v, Parent(q));
      assert Under(v, v);
      SameBut(s.wh, s'.wh, v, Parent(q));
      SameBut(s.opq, s'.opq, v, Parent(q));
      SameMasksAbove(s, s', v, Parent(q));
    } else {
      SameBut(s.opq, s'.opq, v, q);
    }
  }

  lemma SameBut(a: set<Path>, b: set<Path>, v: Path, q: Path)
    requires a - {v} == b - {v} && q != v
    ensures q in a <==> q in b
  {
    assert q in a <==> q in a - {v};
  }

  lemma DropWhiteoutKeeps(s: State, l: Lower, v: Path)
    requires Inv(s) && v != [] && Clean(v)
    ensures Inv(DropWhiteout(s, v)) && SameOutside(s, DropWhiteout(s, v), l, v)
    ensures Blocked(DropWhiteout(s, v), v) == Blocked(s, v)
  {
    var s' := DropWhiteout(s, v);
    DropWhiteoutInv(s, v);
    forall q | Clean(q) && !Under(v, q)
      ensures At(s', l, q) == At(s, l, q)
    {
      SameMasksAbove(s, s', v, q);
      MarkerPathsNotClean(v);
      assert q != v;
    }
    SameMasksAbove(s, s', v, v);
  }

  lemma DropWhiteoutInv(s: State, v: Path)
    requires Inv(s) && v != [] && Clean(v)
    ensures Inv(DropWhiteout(s, v))
  {
    var s' := DropWhiteout(s, v);
    WhOnDisk(s, v);
    MarkerPathsNotClean(v);
    MarkerNames(Last(v));
    ChildOf(Parent(v), Wh(Last(v)));
    ParentLast(v);
    if WhPath(v) in s.disk {
      FileHasNoChild(s.disk, WhPath(v));
    } else {
      assert s.disk - {WhPath(v)} == s.disk;
    }
    RemoveLeafKeepsTree(s.disk, WhPath(v));
    forall w | w in s'.wh
      ensures w != [] && Clean(w) && WhPath(w) in s'.disk
    {
      if WhPath(w) == WhPath(v) { WhPathInjective(w, v); }
    }
    forall p | p in s'.disk && p != [] && IsMarker(Last(p)) && Last(p) != OPQ
      ensures Parent(p) + [Unwh(Last(p))] in s'.wh
    {
      MarkedPath(p);
    }
    CleanParent(v);
    forall w ensures w in s'.opq <==> OpqPath(w) in s'.disk {
      OpqIsNoWh(w, v);
    }
  }

  /** A whiteout marker is the marker of the path it names. */
  lemma MarkedPath(p: Path)
    requires p != [] && IsMarker(Last(p))
    ensures var v := Parent(p) + [Unwh(Last(p))]; v != [] && WhPath(v) == p
  {
    var v := Parent(p) + [Unwh(Last(p))];
    ChildOf(Parent(p), Unwh(Last(p)));
    assert Wh(Unwh(Last(p))) == Last(p);
    ParentLast(p);
  }

  lemma MakeDirsKeeps(s: State, l: Lower, d: Path)
    requires Inv(s) && Clean(d) && Visible(s, l, d) == Some(Dir)
    ensures DirsFree(s.disk, d) && Inv(MakeDirs(s, d)) && IsDirIn(MakeDirs(s, d).disk, d)
    ensures forall q :: At(MakeDirs(s, d), l, q) == At(s, l, q)
    ensures forall q :: q in MakeDirs(s, d).disk && q !in s.disk ==> Under(q, d)
  {
    VisibleDirsFree(s, l, d);
    CreateDirsMakes(s.disk, d);
    var s' := MakeDirs(s, d);
    forall q | q in s'.disk && q !in s.disk
      ensures At(s, l, q) == Some(Dir) && q !in s.wh && s'.disk[q] == Dir && Clean(q) && q != []
    {
      VisiblePrefix(s, l, q, d);
      CleanPrefix(q, d);
    }
    forall q ensures At(s', l, q) == At(s, l, q) {
      SameMasks(s, s', q);
    }
    MakeDirsInv(s, s');
  }

  lemma CleanPrefix(q: Path, d: Path)
    requires Clean(d) && Under(q, d)
    ensures Clean(q)
  {
    forall i | 0 <= i < |q|
      ensures GoodName(q[i])
    {
      assert q[i] == d[i];
    }
  }

  lemma {:induction false} SameMasks(s: State, s': State, q: Path)
    requires s'.wh == s.wh && s'.opq == s.opq
    ensures Blocked(s', q) == Blocked(s, q)
  {
  }

  lemma MakeDirsInv(s: State, s': State)
    requires Inv(s) && TreeOk(s'.disk) && s'.wh == s.wh && s'.opq == s.opq
    requires forall q :: q in s.disk ==> q in s'.disk && s'.disk[q] == s.disk[q]
    requires forall q :: q in s'.disk && q !in s.disk ==> q !in s.wh && s'.disk[q] == Dir && Clean(q) && q != []
    ensures Inv(s')
  {
    forall p | p in s'.disk && p != []
      ensures Clean(Parent(p)) && Last(p) != ""
      ensures IsMarker(Last(p)) ==> s'.disk[p].File? && (Last(p) == OPQ || GoodName(Unwh(Last(p))))
    {
      if p !in s.disk { CleanParent(p); }
    }
    forall v ensures v in s'.opq <==> OpqPath(v) in s'.disk {
      MarkerPathsNotClean(v);
    }
    forall p | p in s'.disk && p != [] && IsMarker(Last(p)) && Last(p) != OPQ
      ensures Parent(p) + [Unwh(Last(p))] in s'.wh
    {
      if p !in s.disk { CleanParent(p); }
    }
  }

  lemma PutKeeps(s: State, l: Lower, v: Path, n: Node)
    requires Inv(s) && v != [] && Clean(v) && v !in s.wh && IsDirIn(s.disk, Parent(v))
    requires v in s.disk ==> s.disk[v].File? && n.File?
    ensures Inv(Put(s, v, n)) && SameOutside(s, Put(s, v, n), l, v) && At(Put(s, v, n), l, v) == Some(n)
  {
    hide Inv, Blocked;
    var s' := Put(s, v, n);
    PutInv(s, v, n);
    forall q | Clean(q) && !Under(v, q)
      ensures At(s', l, q) == At(s, l, q)
    {
      SameMasks(s, s', q);
    }
  }

  lemma PutInv(s: State, v: Path, n: Node)
    requires Inv(s) && v != [] && Clean(v) && v !in s.wh && IsDirIn(s.disk, Parent(v))
    requires v in s.disk ==> s.disk[v].File? && n.File?
    ensures Inv(Put(s, v, n))
  {
    hide HasChild;
    var s' := Put(s, v, n);
    CleanParent(v);
    PutTree(s.disk, v, n);
    forall w ensures w in s'.opq <==> OpqPath(w) in s'.disk {
      MarkerPathsNotClean(w);
    }
  }

  lemma PutTree(t: Fs, v: Path, n: Node)
    requires TreeOk(t) && v != [] && IsDirIn(t, Parent(v)) && (v in t ==> t[v].File? && n.File?)
    ensures TreeOk(t[v := n])
  {
    if v in t { FileHasNoChild(t, v); } else { AbsentHasNoChild(t, v); }
    forall p | p in t[v := n] && p != []
      ensures Parent(p) in t[v := n] && t[v := n][Parent(p)] == Dir
    {
      assert p in t || p == v;
      assert p in t ==> Parent(p) != v || n == Dir;
    }
  }

  lemma AbsentHasNoChild(t: Fs, p: Path)
    requires TreeOk(t) && p !in t
    ensures !HasChild(t, p)
  {
  }

  lemma DropKeeps(s: State, l: Lower, v: Path)
    requires Inv(s) && v != [] && Clean(v) && !HasChild(s.disk, v)
    ensures Inv(Drop(s, v)) && SameOutside(s, Drop(s, v), l, v)
    ensures Blocked(Drop(s, v), v) == Blocked(s, v)
  {
    hide Inv, HasChild, Blocked;
    var s' := Drop(s, v);
    DropInv(s, v);
    forall q | Clean(q) && !Under(v, q)
      ensures At(s', l, q) == At(s, l, q)
    {
      SameMasks(s, s', q);
    }
    SameMasks(s, s', v);
  }

  lemma DropInv(s: State, v: Path)
    requires Inv(s) && v != [] && Clean(v) && !HasChild(s.disk, v)
    ensures Inv(Drop(s, v))
  {
    hide HasChild;
    var s' := Drop(s, v);
    CleanParent(v);
    RemoveLeafKeepsTree(s.disk, v);
    forall w | w in s'.wh
      ensures WhPath(w) in s'.disk
    {
      MarkerPathsNotClean(w);
    }
    forall w ensures w in s'.opq <==> OpqPath(w) in s'.disk {
      MarkerPathsNotClean(w);
    }
  }

  lemma AddOpaqueKeeps(s: State, l: Lower, d: Path)
    requires Inv(s) && Clean(d) && IsDirIn(s.disk, d)
    ensures Inv(AddOpaque(s, d)) && SameOutside(s, AddOpaque(s, d), l, d)
    ensures d != [] ==> At(AddOpaque(s, d), l, d) == At(s, l, d)
  {
    var s' := AddOpaque(s, d);
    ChildOf(d, OPQ);
    MarkerNames("");
    MarkerPathsNotClean(d);
    forall p | p in s'.disk && p != []
      ensures Parent(p) in s'.disk && s'.disk[Parent(p)] == Dir
    {
      if p in s.disk && Parent(p) == OpqPath(d) {
        CleanParentOf(s.disk, p);
      }
    }
    forall w | w in s'.wh
      ensures w != [] && WhPath(w) in s'.disk && w !in s'.disk
    {
      assert Clean(w);
    }
    forall w ensures w in s'.opq <==> OpqPath(w) in s'.disk {
      if OpqPath(w) == OpqPath(d) {
        ChildOf(w, OPQ);
      }
    }
    forall q | Clean(q) && !Under(d, q)
      ensures At(s', l, q) == At(s, l, q)
    {
      if d != [] { SameMasksAbove(s, s', d, q); }
    }
    if d != [] { SameMasksAbove(s, s', d, d); }
  }

  lemma CleanParentOf(t: Fs, p: Path)
    requires DiskClean(t) && p in t && p != []
    ensures Clean(Parent(p))
  {
  }

  lemma AddWhiteoutKeeps(s: State, l: Lower, v: Path)
    requires Inv(s) && v != [] && Clean(v) && v !in s.disk && Visible(s, l, Parent(v)) == Some(Dir)
    ensures DirsFree(s.disk, Parent(v))
    ensures Inv(AddWhiteout(s, v)) && SameOutside(s, AddWhiteout(s, v), l, v) && At(AddWhiteout(s, v), l, v) == None
  {
    CleanParent(v);
    MakeDirsKeeps(s, l, Parent(v));
    var m := MakeDirs(s, Parent(v));
    assert v !in m.disk by {
      if v in m.disk { NotUnderParent(v); }
    }
    MarkKeeps(m, l, v);
    forall q | Clean(q) && !Under(v, q)
      ensures At(AddWhiteout(s, v), l, q) == At(s, l, q)
    {
      assert At(m, l, q) == At(s, l, q);
    }
  }

  /** Writing the marker once its directory is there. */
  lemma MarkKeeps(s: State, l: Lower, v: Path)
    requires Inv(s) && v != [] && Clean(v) && v !in s.disk && IsDirIn(s.disk, Parent(v))
    ensures var s' := State(s.disk[WhPath(v) := File([])], s.wh + {v}, s.opq);
      Inv(s') && SameOutside(s, s', l, v) && At(s', l, v) == None
  {
    hide Inv, Mirrors, Blocked;
    var s' := State(s.disk[WhPath(v) := File([])], s.wh + {v}, s.opq);
    MarkInv(s, v, s');
    MarkerPathsNotClean(v);
    forall q | Clean(q) && !Under(v, q)
      ensures At(s', l, q) == At(s, l, q)
    {
      SameMasksAbove(s, s', v, q);
    }
  }

  lemma MarkInv(s: State, v: Path, s': State)
    requires Inv(s) && v != [] && Clean(v) && v !in s.disk && IsDirIn(s.disk, Parent(v))
    requires s' == State(s.disk[WhPath(v) := File([])], s.wh + {v}, s.opq)
    ensures Inv(s')
  {
    CleanParent(v);
    ParentLast(v);
    MarkerNames(Last(v));
    ChildOf(Parent(v), Wh(Last(v)));
    MarkerPathsNotClean(v);
    forall p | p in s'.disk && p != []
      ensures Parent(p) in s'.disk && s'.disk[Parent(p)] == Dir
    {
      if p in s.disk && Parent(p) == WhPath(v) {
        CleanParentOf(s.disk, p);
      }
    }
    forall w | w in s'.wh
      ensures w != [] && Clean(w) && WhPath(w) in s'.disk && w !in s'.disk
    {
    }
    forall p | p in s'.disk && p != [] && IsMarker(Last(p)) && Last(p) != OPQ
      ensures Parent(p) + [Unwh(Last(p))] in s'.wh
    {
    }
    forall w ensures w in s'.opq <==> OpqPath(w) in s'.disk {
      OpqIsNoWh(w, v);
    }
  }

  lemma DropOpaqueKeeps(s: State, l: Lower, d: Path)
    requires Inv(s) && d != [] && Clean(d) && OpqPath(d) in s.disk
    ensures Inv(DropOpaque(s, d)) && SameOutside(s, DropOpaque(s, d), l, d)
  {
    hide Inv, Mirrors, Blocked;
    var s' := DropOpaque(s, d);
    DropOpaqueInv(s, d);
    MarkerPathsNotClean(d);
    forall q | Clean(q) && !Under(d, q)
      ensures At(s', l, q) == At(s, l, q)
    {
      SameMasksAbove(s, s', d, q);
    }
  }

  lemma DropOpaqueInv(s: State, d: Path)
    requires Inv(s) && d != [] && Clean(d) && OpqPath(d) in s.disk
    ensures Inv(DropOpaque(s, d))
  {
    hide Blocked;
    var s' := DropOpaque(s, d);
    ChildOf(d, OPQ);
    MarkerNames("");
    FileHasNoChild(s.disk, OpqPath(d));
    RemoveLeafKeepsTree(s.disk, OpqPath(d));
    forall w | w in s'.wh
      ensures w != [] && Clean(w) && WhPath(w) in s'.disk && w !in s'.disk
    {
      CleanParent(w);
      OpqIsNoWh(d, w);
    }
    forall w ensures w in s'.opq <==> OpqPath(w) in s'.disk {
      if OpqPath(w) == OpqPath(d) { ChildOf(w, OPQ); }
    }
  }
}
