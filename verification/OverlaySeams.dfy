/** Where the writelayer operations do not do what a plain tree does: exactly when, and a state that shows it. */
module OverlaySeams {
  import opened Bytes
  import opened Tree
  import opened OverlayState
  import opened OverlaySteps
  import opened OverlayViews
  import opened OverlayRename
  import opened VfsOps
  import opened OverlayRun

  /** Two layers below: a directory `b` holding a file `x`, or whatever `nodes` says; listings are exact. */
  function Below(nodes: Fs): Lower {
    Lower(nodes, v => set q | q in nodes && q != [] && Parent(q) == v :: Last(q))
  }

  const B: Path := ["b"]
  const A: Path := ["a"]
  const D: Path := ["d"]

  lemma Names()
    ensures GoodName("a") && GoodName("b") && GoodName("d") && GoodName("e") && GoodName("x")
    ensures Clean(A) && Clean(B) && Clean(D) && Clean(["x"]) && Clean(["e"])
    ensures Parent(A) == [] && Parent(B) == [] && Parent(D) == []
    ensures IsMarker(".wh.b") && Last(WhPath(B)) == ".wh.b" && WhPath(B) == [".wh.b"]
  {
    assert ".wh.b"[..4] == ".wh.";
    assert Wh("b") == ".wh.b";
  }

  // ---- listing below an opaque ancestor ----

  /**
   * A name the layers list though it does not resolve: this directory is not itself opaque and does not hold or delete
   * it, and an ancestor's mask, or the layers themselves, deny it.
   */
  ghost predicate ListedOnly(s: State, l: Lower, v: Path, n: Name) {
    && n in l.names(v) && v !in s.opq
    && v + [n] !in s.wh && v + [n] !in s.disk
    && (Blocked(s, v + [n]) || v + [n] !in l.nodes)
  }

  /** CollectChildren collects a name that does not resolve exactly when the layers list it though they are denied. */
  lemma OverListed(s: State, l: Lower, v: Path, n: Name)
    requires Inv(s) && LowerOk(l) && Clean(v) && GoodName(n)
    ensures n in Children(s, l, v) && At(s, l, v + [n]) == None <==> ListedOnly(s, l, v, n)
  {
    ChildOf(v, n);
    WhiteoutNamesAreDeleted(s, v, n);
    if n in OwnNames(s.disk, v) { OwnNameResolves(s, l, v, n); }
  }

  /** A directory that shows nothing is refused by rmdir exactly when the layers list some such name in it. */
  lemma RefusedIff(s: State, l: Lower, v: Path)
    requires Inv(s) && LowerOk(l) && Clean(v) && Visible(s, l, v) == Some(Dir)
    requires forall p :: Clean(p) && Under(v, p) && p != v ==> Visible(s, l, p) == None
    ensures Children(s, l, v) != {} <==> exists n :: GoodName(n) && ListedOnly(s, l, v, n)
  {
    hide Inv, LowerOk, Children, ListedOnly, Clean, GoodName;
    CollectedAreGood(s, l, v);
    forall n | GoodName(n)
      ensures n in Children(s, l, v) <==> ListedOnly(s, l, v, n)
    {
      NotThere(s, l, v, n);
      OverListed(s, l, v, n);
    }
    if Children(s, l, v) != {} {
      var n :| n in Children(s, l, v);
      assert GoodName(n) && ListedOnly(s, l, v, n);
    }
  }

  lemma NotThere(s: State, l: Lower, v: Path, n: Name)
    requires Clean(v) && GoodName(n) && Visible(s, l, v) == Some(Dir)
    requires forall p :: Clean(p) && Under(v, p) && p != v ==> Visible(s, l, p) == None
    ensures At(s, l, v + [n]) == None
  {
    CleanChild(v, n);
    ChildOf(v, n);
    assert Under(v, v + [n]);
  }

  /**
   * An empty directory under an opaque one that still lists a name, in a state a mount can be in: rmdir refuses it and
   * DeepCopyUp fails on it, though it shows nothing.
   */
  lemma EmptyButListed()
    ensures var disk: Fs := map[[] := Dir, D := Dir, D + [".wh..wh..opq"] := File([]), D + ["e"] := Dir];
      var s := State(disk, {}, {D});
      var l := Below(map[[] := Dir, D := Dir, D + ["e"] := Dir, D + ["e", "x"] := File([])]);
      && Inv(s) && LowerOk(l) && Visible(s, l, D + ["e"]) == Some(Dir)
      && "x" in Children(s, l, D + ["e"]) && Resolve(s, l, D + ["e", "x"]) == Miss
      && (forall p :: Clean(p) && Under(D + ["e"], p) && p != D + ["e"] ==> Visible(s, l, p) == None)
      && Denied(s, l, D + ["e"])
  {
    hide Clean, GoodName, IsMarker, Inv, LowerOk, Children, Below;
    Names();
    var de := D + ["e"];
    var dex := D + ["e", "x"];
    assert Parent(de) == D && Parent(dex) == de && Last(dex) == "x" && de + ["x"] == dex;
    var disk: Fs := map[[] := Dir, D := Dir, D + [OPQ] := File([]), de := Dir];
    var nodes: Fs := map[[] := Dir, D := Dir, de := Dir, dex := File([])];
    var s := State(disk, {}, {D});
    EmptyInv(s);
    EmptyBelowOk(nodes);
    StillListed(s, nodes);
    assert UnderOpaque(s.opq, de) && UnderOpaque(s.opq, dex);
    assert Visible(s, Below(nodes), []) == Some(Dir);
    assert Visible(s, Below(nodes), D) == Some(Dir);
    NothingBelowOpaque(s, Below(nodes), D, de);
    CleanChild(D, "e");
    assert DeniedAt(s, Below(nodes), de, "x") && Under(de, de);
  }

  lemma StillListed(s: State, nodes: Fs)
    requires s == State(map[[] := Dir, D := Dir, D + [OPQ] := File([]), D + ["e"] := Dir], {}, {D})
    requires nodes == map[[] := Dir, D := Dir, D + ["e"] := Dir, D + ["e", "x"] := File([])]
    ensures "x" in Children(s, Below(nodes), D + ["e"])
    ensures D + ["e", "x"] !in s.disk && !HasChild(s.disk, D + ["e"])
  {
    var de := D + ["e"];
    var dex := D + ["e", "x"];
    assert Parent(dex) == de && Last(dex) == "x";
    assert dex in nodes && dex != [];
    assert "x" in Below(nodes).names(de);
    forall q | q in s.disk ensures |q| <= 2 { }
    assert |OpqPath(de)| == 3;
  }

  /** Below a directory with nothing of its own, under an opaque one, nothing shows. */
  lemma NothingBelowOpaque(s: State, l: Lower, d: Path, v: Path)
    requires d in s.opq && Under(d, v) && !HasChild(s.disk, v)
    ensures forall p :: Clean(p) && Under(v, p) && p != v ==> Visible(s, l, p) == None
  {
    forall q | q != [] && Parent(q) == v
      ensures At(s, l, q) == None
    {
      UnderParent(d, q);
      MaskBlocks(s, d, q);
    }
    forall p | Clean(p) && Under(v, p) && p != v
      ensures Visible(s, l, p) == None
    {
      EmptyBelow(s, l, v, p);
    }
  }

  lemma EmptyInv(s: State)
    requires s == State(map[[] := Dir, D := Dir, D + [OPQ] := File([]), D + ["e"] := Dir], {}, {D})
    ensures Inv(s)
  {
    hide TreeOk, DiskClean, Clean, GoodName, IsMarker;
    EmptyTree(s.disk);
    forall p | p in s.disk && p != []
      ensures IsMarker(Last(p)) ==> Last(p) == OPQ
    {
      EmptyEntry(p);
    }
    forall v ensures v in s.opq <==> OpqPath(v) in s.disk {
      if OpqPath(v) in s.disk {
        MarkerPathsNotClean(v);
        ChildOf(v, OPQ);
        EmptyEntry(OpqPath(v));
      }
    }
  }

  lemma EmptyEntry(p: Path)
    requires p == D || p == D + [OPQ] || p == D + ["e"]
    ensures Clean(Parent(p)) && Last(p) != "" && (p == D ==> Parent(p) == []) && (p != D ==> Parent(p) == D)
    ensures IsMarker(Last(p)) <==> p == D + [OPQ]
    ensures p == D + [OPQ] ==> Last(p) == OPQ
    ensures p != D + [OPQ] ==> Clean(p)
  {
    Names();
    MarkerNames("");
    if p == D + [OPQ] { ChildOf(D, OPQ); } else if p == D + ["e"] { ChildOf(D, "e"); CleanChild(D, "e"); }
  }

  lemma EmptyTree(t: Fs)
    requires t == map[[] := Dir, D := Dir, D + [OPQ] := File([]), D + ["e"] := Dir]
    ensures TreeOk(t) && DiskClean(t)
  {
    hide Clean, GoodName, IsMarker;
    assert D + [OPQ] != D + ["e"] && D + [OPQ] != D by { EmptyEntry(D + [OPQ]); EmptyEntry(D + ["e"]); EmptyEntry(D); }
    forall p | p in t && p != []
      ensures Parent(p) in t && t[Parent(p)] == Dir && Clean(Parent(p)) && Last(p) != ""
      ensures IsMarker(Last(p)) ==> t[p].File? && Last(p) == OPQ
    {
      EmptyEntry(p);
    }
  }

  lemma EmptyBelowOk(nodes: Fs)
    requires nodes == map[[] := Dir, D := Dir, D + ["e"] := Dir, D + ["e", "x"] := File([])]
    ensures LowerOk(Below(nodes))
  {
    Names();
    assert Parent(D + ["e"]) == D && Parent(D + ["e", "x"]) == D + ["e"];
    forall p | p in nodes && p != []
      ensures Parent(p) in nodes && Last(p) in Below(nodes).names(Parent(p)) && GoodName(Last(p))
    {
      assert p == D || p == D + ["e"] || p == D + ["e", "x"];
    }
  }

  // ---- a failed mkdir or create ----

  /** VfsMkdir and VfsCreate lift the deletion before they can fail: here the deleted file is back after the failure. */
  lemma FailureUndeletes()
    ensures var s := State(map[[] := Dir, WhPath(B) := File([])], {B}, {});
      var l := Below(map[[] := Dir, B := File([])]);
      Inv(s) && LowerOk(l) && !ViewKept(s, DropWhiteout(s, B), l)
  {
    Names();
    var s := State(map[[] := Dir, WhPath(B) := File([])], {B}, {});
    var nodes: Fs := map[[] := Dir, B := File([])];
    var l := Below(nodes);
    OneDeleted(s);
    BelowIsOk(nodes);
    assert !Blocked(s, B) by { assert UnderOpaque(s.opq, B) <==> [] in s.opq; }
    RootIsVisible(s, l);
    Undeleted(s, l, B);
  }

  lemma OneDeleted(s: State)
    requires s == State(map[[] := Dir, WhPath(B) := File([])], {B}, {}) ||
      s == State(map[[] := Dir, A := Dir, WhPath(B) := File([])], {B}, {})
    ensures Inv(s)
  {
    Names();
    MarkerNames("b");
    forall v ensures OpqPath(v) !in s.disk {
      MarkerPathsNotClean(v);
      OpqIsNoWh(v, B);
    }
    assert Unwh(".wh.b") == "b" && Parent(WhPath(B)) + ["b"] == B;
    forall p | p in s.disk && p != []
      ensures p == A || (p == WhPath(B) && Last(p) == ".wh.b")
    {
    }
    assert !IsMarker("a");
  }

  lemma BelowIsOk(nodes: Fs)
    requires nodes == map[[] := Dir, B := File([])] || nodes == map[[] := Dir, B := Dir, B + ["x"] := File([])]
    ensures LowerOk(Below(nodes))
  {
    Names();
    ChildOf(B, "x");
    forall p | p in nodes && p != []
      ensures Parent(p) in nodes && Last(p) in Below(nodes).names(Parent(p)) && GoodName(Last(p))
    {
      assert p == B || p == B + ["x"];
    }
  }

  // ---- a directory renamed to a deleted name ----

  /**
   * VfsRename lifts the destination's deletion and does not make the moved directory opaque: here the layers' file
   * `b/x`, deleted with `b`, joins the empty directory that is moved to `b`.
   */
  lemma DeletedContentsJoin()
    ensures var s := State(map[[] := Dir, A := Dir, WhPath(B) := File([])], {B}, {});
      var l := Below(map[[] := Dir, B := Dir, B + ["x"] := File([])]);
      Inv(s) && LowerOk(l) && Visible(s, l, B) == None && !DestinationIsFree(DropWhiteout(s, B), l, A, B)
  {
    hide Inv, LowerOk, Clean, GoodName, DestinationIsFree;
    Names();
    var s := State(map[[] := Dir, A := Dir, WhPath(B) := File([])], {B}, {});
    var nodes: Fs := map[[] := Dir, B := Dir, B + ["x"] := File([])];
    OneDeleted(s);
    BelowIsOk(nodes);
    assert DropWhiteout(s, B).disk == map[[] := Dir, A := Dir];
    XJoins(DropWhiteout(s, B), nodes);
  }

  lemma XJoins(s: State, nodes: Fs)
    requires s == State(map[[] := Dir, A := Dir], {}, {})
    requires nodes == map[[] := Dir, B := Dir, B + ["x"] := File([])]
    ensures !DestinationIsFree(s, Below(nodes), A, B)
  {
    hide Clean, GoodName;
    Names();
    var l := Below(nodes);
    var q: Path := ["x"];
    assert Parent(q) == [] && A + Parent(q) == A && Parent(A + q) == A;
    NoMasks(s, A + q);
    NoMasks(s, B);
    assert Visible(s, l, []) == Some(Dir);
    assert Visible(s, l, A) == Some(Dir);
    assert !MaskedOnWay(s, A, []);
    assert JoinsMoved(s, l, A, B, q);
    assert A + q !in nodes && A + q !in s.disk;
    assert Visible(s, l, A + q) == None;
  }

  // ---- a rename onto a directory ----

  /**
   * A directory that shows a file is replaced: the host sees none of it, since it is the layers' file. The host lets
   * the rename through, nothing joins what moves, and rename(2) would answer ENOTEMPTY.
   */
  lemma FullIsReplaced()
    ensures var s := State(map[[] := Dir, A := Dir, A + ["x"] := File([])], {}, {});
      var l := Below(map[[] := Dir, B := Dir, B + ["x"] := File([])]);
      && Inv(s) && LowerOk(l) && Admitted(View(s, l), RenameOp(A, B)) && Visible(s, l, B + ["x"]).Some?
      && DiskAllows(s, l, A, B) && !Denied(s, l, A) && DestinationIsFree(DropWhiteout(s, B), l, A, B)
      && !CanRename(View(s, l), A, B)
  {
    hide *;
    var s := State(map[[] := Dir, A := Dir, A + ["x"] := File([])], {}, {});
    var nodes: Fs := map[[] := Dir, B := Dir, B + ["x"] := File([])];
    var l := Below(nodes);
    Names();
    BelowIsOk(nodes);
    SourceFull(s, l);
    FullShows(s, nodes);
    BothAdmitted(s, l);
    ReplaceableIff(s, l, A, B);
    FullIsFree(s, nodes);
    FullNotDenied(s, nodes);
  }

  lemma FullShows(s: State, nodes: Fs)
    requires s == State(map[[] := Dir, A := Dir, A + ["x"] := File([])], {}, {})
    requires nodes == map[[] := Dir, B := Dir, B + ["x"] := File([])]
    ensures var l := Below(nodes);
      && Visible(s, l, []) == Visible(s, l, A) == Visible(s, l, B) == Some(Dir)
      && Visible(s, l, B + ["x"]).Some? && Visible(s, l, A + ["x"]).Some? && !Replaceable(s, l, A, B)
  {
    hide Blocked;
    Names();
    NoMasks(s, B);
    NoMasks(s, B + ["x"]);
    assert Parent(A + ["x"]) == A && Parent(B + ["x"]) == B && A + ["x"] != B && A + ["x"] != B + ["x"];
    assert Visible(s, Below(nodes), []) == Some(Dir);
    assert Resolve(s, Below(nodes), B + ["x"]).InLower?;
  }

  lemma BothAdmitted(s: State, l: Lower)
    requires Visible(s, l, []) == Visible(s, l, A) == Visible(s, l, B) == Some(Dir)
    ensures Admitted(View(s, l), RenameOp(A, B)) && A in View(s, l) && B in View(s, l)
    ensures View(s, l)[A] == View(s, l)[B] == View(s, l)[[]] == Dir && IsDirIn(View(s, l), [])
  {
    hide View, Visible, Clean;
    Names();
    CleanIsEmpty();
    ViewAt(s, l, []);
    ViewAt(s, l, A);
    ViewAt(s, l, B);
  }

  lemma SourceFull(s: State, l: Lower)
    requires s == State(map[[] := Dir, A := Dir, A + ["x"] := File([])], {}, {})
    ensures Inv(s) && DiskAllows(s, l, A, B)
  {
    hide TreeOk, DiskClean, HasChild, Visible, Clean;
    FullTree(s.disk);
    Names();
    forall v ensures OpqPath(v) !in s.disk {
      MarkerPathsNotClean(v);
      CleanIsEmpty();
      CleanChild(A, "x");
    }
    forall p | p in s.disk && p != []
      ensures !IsMarker(Last(p))
    {
      FullEntry(p);
    }
  }

  lemma FullEntry(p: Path)
    requires p == A || p == A + ["x"]
    ensures p != B && Clean(Parent(p)) && Last(p) != "" && !IsMarker(Last(p))
    ensures Parent(p) == if p == A then [] else A
  {
    Names();
    NoMarkers();
    ChildOf(A, "x");
  }

  lemma FullTree(t: Fs)
    requires t == map[[] := Dir, A := Dir, A + ["x"] := File([])]
    ensures TreeOk(t) && DiskClean(t) && B !in t && !HasChild(t, B)
  {
    hide Clean, IsMarker;
    FullEntry(A);
    FullEntry(A + ["x"]);
    forall p | p in t && p != []
      ensures Clean(Parent(p)) && Last(p) != "" && !IsMarker(Last(p))
      ensures Parent(p) in t && t[Parent(p)] == Dir && Parent(p) != B && p != B
    {
      FullEntry(p);
    }
  }

  lemma FullIsFree(s: State, nodes: Fs)
    requires s == State(map[[] := Dir, A := Dir, A + ["x"] := File([])], {}, {})
    requires nodes == map[[] := Dir, B := Dir, B + ["x"] := File([])]
    ensures DestinationIsFree(DropWhiteout(s, B), Below(nodes), A, B)
  {
    hide JoinsMoved, Visible, DropWhiteout, Clean, GoodName, Below;
    FullShows(s, nodes);
    NothingDropped(s);
    forall q | JoinsMoved(s, Below(nodes), A, B, q)
      ensures Visible(s, Below(nodes), A + q).Some?
    {
      JoinsX(s, nodes, q);
    }
  }

  lemma JoinsX(s: State, nodes: Fs, q: Path)
    requires nodes == map[[] := Dir, B := Dir, B + ["x"] := File([])] && JoinsMoved(s, Below(nodes), A, B, q)
    ensures q == ["x"]
  {
    hide Visible, Blocked, MaskedOnWay, Clean;
    assert B + q in nodes;
    assert q == (B + q)[1..] && (B + ["x"])[1..] == ["x"];
  }

  lemma NothingDropped(s: State)
    requires s == State(map[[] := Dir, A := Dir, A + ["x"] := File([])], {}, {})
    ensures DropWhiteout(s, B) == s
  {
    Names();
    MarkerPathsNotClean(B);
    CleanChild(A, "x");
    CleanIsEmpty();
    assert s.disk - {WhPath(B)} == s.disk;
  }

  lemma FullNotDenied(s: State, nodes: Fs)
    requires s == State(map[[] := Dir, A := Dir, A + ["x"] := File([])], {}, {}) && Inv(s)
    requires nodes == map[[] := Dir, B := Dir, B + ["x"] := File([])] && LowerOk(Below(nodes))
    ensures !Denied(s, Below(nodes), A)
  {
    hide Inv, LowerOk, Denied, Clean, GoodName;
    Names();
    var l := Below(nodes);
    assert Parent(A + ["x"]) == A && Last(A + ["x"]) == "x";
    assert At(s, l, A + ["x"]) == Some(File([]));
    FileNotDenied(s, l, A + ["x"]);
    assert forall q :: q in nodes && q != [] ==> Parent(q) != A by { assert Parent(B + ["x"]) == B; }
    forall n | n in Children(s, l, A)
      ensures n == "x"
    {
    }
    NoneDenied(s, l, A);
  }

  /** A directory that shows nothing but holds a marker is in the way: rename(2) would replace it, the host refuses. */
  lemma EmptyIsRefused()
    ensures var s := State(map[[] := Dir, A := Dir, B := Dir, B + [".wh.x"] := File([])], {B + ["x"]}, {});
      var l := Below(map[[] := Dir, B := Dir, B + ["x"] := File([])]);
      && Inv(s) && LowerOk(l) && Admitted(View(s, l), RenameOp(A, B)) && CanRename(View(s, l), A, B)
      && MarkerNamesIn(s.disk, B) != {} && !DiskAllows(s, l, A, B)
  {
    hide *;
    var s := State(map[[] := Dir, A := Dir, B := Dir, B + [".wh.x"] := File([])], {B + ["x"]}, {});
    var nodes: Fs := map[[] := Dir, B := Dir, B + ["x"] := File([])];
    var l := Below(nodes);
    Names();
    BelowIsOk(nodes);
    MarkedInv(s);
    MarkedShows(s, l);
    BothAdmitted(s, l);
    NothingInMarked(s, nodes);
    NothingInside(s, l, B);
    RenameAB(View(s, l));
    MarkedIff(s, l, A, B);
  }

  lemma RenameAB(t: Fs)
    requires A in t && B in t && t[A] == t[B] == Dir && IsDirIn(t, []) && !HasChild(t, B)
    ensures CanRename(t, A, B)
  {
    Names();
  }

  lemma MarkedShows(s: State, l: Lower)
    requires s == State(map[[] := Dir, A := Dir, B := Dir, B + [".wh.x"] := File([])], {B + ["x"]}, {})
    ensures Visible(s, l, []) == Visible(s, l, A) == Visible(s, l, B) == Some(Dir)
    ensures MarkerNamesIn(s.disk, B) != {}
  {
    Names();
    MarkerOfX();
    MarkerNames("x");
    ChildOf(B, ".wh.x");
    assert Visible(s, l, []) == Some(Dir);
    assert B + [".wh.x"] in s.disk && ".wh.x" in MarkerNamesIn(s.disk, B);
  }

  lemma NothingInMarked(s: State, nodes: Fs)
    requires s == State(map[[] := Dir, A := Dir, B := Dir, B + [".wh.x"] := File([])], {B + ["x"]}, {})
    requires nodes == map[[] := Dir, B := Dir, B + ["x"] := File([])]
    ensures forall p :: Clean(p) && Under(B, p) && p != B ==> Visible(s, Below(nodes), p) == None
  {
    hide Blocked;
    MarkerPathsNotClean(B + ["x"]);
    MarkerOfX();
    forall q | Clean(q) && q != [] && Parent(q) == B
      ensures At(s, Below(nodes), q) == None
    {
      assert Parent(A) == [];
      if q in nodes { assert q == B + ["x"]; }
    }
    forall p | Clean(p) && Under(B, p) && p != B
      ensures Visible(s, Below(nodes), p) == None
    {
      EmptyBelow(s, Below(nodes), B, p);
    }
  }

  lemma MarkerOfX()
    ensures WhPath(B + ["x"]) == B + [".wh.x"] && Wh("x") == ".wh.x" && Unwh(".wh.x") == "x"
  {
    assert Parent(B + ["x"]) == B && Last(B + ["x"]) == "x";
    assert Wh("x") == ".wh.x";
    MarkerNames("x");
  }

  lemma MarkedInv(s: State)
    requires s == State(map[[] := Dir, A := Dir, B := Dir, B + [".wh.x"] := File([])], {B + ["x"]}, {})
    ensures Inv(s)
  {
    hide Clean, GoodName, IsMarker;
    Names();
    CleanIsEmpty();
    MarkerOfX();
    MarkerNames("x");
    CleanChild(B, "x");
    var m := B + [".wh.x"];
    ChildOf(B, ".wh.x");
    ChildOf(B, "x");
    MarkerPathsNotClean(B + ["x"]);
    forall p | p in s.disk && p != []
      ensures Clean(Parent(p)) && Last(p) != "" && (p == m || (!IsMarker(Last(p)) && Parent(p) == []))
    {
      NoMarkers();
    }
    forall v ensures OpqPath(v) !in s.disk {
      MarkerPathsNotClean(v);
      OpqIsNoWh(v, B + ["x"]);
    }
  }

  lemma NoMarkers()
    ensures !IsMarker("a") && !IsMarker("b") && !IsMarker("x")
  {
  }

  lemma CleanIsEmpty()
    ensures Clean([])
  {
  }

  lemma {:induction false} NoMasks(s: State, p: Path)
    requires s.wh == {} && s.opq == {}
    ensures !Blocked(s, p)
    decreases |p|
  {
    if p != [] { NoMasks(s, Parent(p)); }
  }
}
