/** The copy-on-write overlay: what a path resolves to, what is visible, and the masks that mirror the disk. */
module OverlayState {
  import opened Bytes
  import opened Tree

  // ---- marker names ----

  const OPQ: Name := ".wh..wh..opq"

  predicate IsMarker(n: Name) {
    |n| >= 4 && n[..4] == ".wh."
  }

  function Wh(n: Name): Name {
    ".wh." + n
  }

  /** The name a whiteout marker hides. */
  function Unwh(m: Name): Name
    requires IsMarker(m)
  {
    m[4..]
  }

  /** A name a guest uses: not empty, and not one of the overlay's own markers. */
  predicate GoodName(n: Name) {
    n != "" && !IsMarker(n)
  }

  predicate Clean(p: Path) {
    forall i :: 0 <= i < |p| ==> GoodName(p[i])
  }

  lemma MarkerNames(n: Name)
    ensures IsMarker(Wh(n)) && Unwh(Wh(n)) == n && IsMarker(OPQ)
    ensures GoodName(n) ==> Wh(n) != OPQ
  {
    assert OPQ[..4] == ".wh.";
    if Wh(n) == OPQ {
      assert n == OPQ[4..];
      assert n[..4] == ".wh.";
    }
  }

  lemma WhInjective(n: Name, m: Name)
    requires Wh(n) == Wh(m)
    ensures n == m
  {
    assert Unwh(Wh(n)) == n && Unwh(Wh(m)) == m;
  }

  /** Where the deletion of `v` is recorded. */
  function WhPath(v: Path): Path
    requires v != []
  {
    Parent(v) + [Wh(Last(v))]
  }

  function OpqPath(d: Path): Path {
    d + [OPQ]
  }

  lemma CleanParent(p: Path)
    requires Clean(p) && p != []
    ensures Clean(Parent(p)) && GoodName(Last(p))
  {
  }

  lemma CleanChild(d: Path, n: Name)
    requires Clean(d) && GoodName(n)
    ensures Clean(d + [n])
  {
  }

  lemma MarkerPathsNotClean(v: Path)
    ensures v != [] ==> !Clean(WhPath(v)) && WhPath(v) != []
    ensures !Clean(OpqPath(v)) && OpqPath(v) != []
  {
    if v != [] {
      MarkerNames(Last(v));
      assert WhPath(v)[|v| - 1] == Wh(Last(v));
    }
    MarkerNames("");
    assert OpqPath(v)[|v|] == OPQ;
  }

  lemma WhPathInjective(v: Path, w: Path)
    requires v != [] && w != [] && WhPath(v) == WhPath(w)
    ensures v == w
  {
    ChildOf(Parent(v), Wh(Last(v)));
    ChildOf(Parent(w), Wh(Last(w)));
    WhInjective(Last(v), Last(w));
    ParentLast(v);
    ParentLast(w);
  }

  lemma OpqIsNoWh(d: Path, v: Path)
    requires v != [] && GoodName(Last(v))
    ensures OpqPath(d) != WhPath(v)
  {
    MarkerNames(Last(v));
    ChildOf(d, OPQ);
    ChildOf(Parent(v), Wh(Last(v)));
  }

  // ---- state and resolution ----

  /** The writelayer on disk, markers included, and the two masks held in memory. */
  datatype State = State(disk: Fs, wh: set<Path>, opq: set<Path>)

  /** The layers below, merged: what each path resolves to in them, and the names they list in a directory. */
  datatype Lower = Lower(nodes: Fs, names: Path -> set<Name>)

  /**
   * The layers' view is closed under parents, lists every name it has, and holds no marker names. Listing a name it
   * does not have is allowed.
   */
  ghost predicate LowerOk(l: Lower) {
    && (forall p :: p in l.nodes && p != [] ==> Parent(p) in l.nodes)
    && (forall p :: p in l.nodes && p != [] ==> Last(p) in l.names(Parent(p)))
    && (forall v, n :: n in l.names(v) ==> GoodName(n))
  }

  datatype Hit = Miss | InWriteLayer(node: Node) | InLower(node: Node)

  function NodeOf(h: Hit): Option<Node> {
    if h.Miss? then None else Some(h.node)
  }

  /** Some ancestor of `v` below the root is deleted. */
  predicate UnderWhiteout(wh: set<Path>, v: Path) {
    |v| > 1 && (Parent(v) in wh || UnderWhiteout(wh, Parent(v)))
  }

  /** Some ancestor of `v`, or the root, was made again over a deleted one. */
  predicate UnderOpaque(opq: set<Path>, v: Path) {
    if v == [] then [] in opq else Parent(v) in opq || UnderOpaque(opq, Parent(v))
  }

  /** The masks keep the lower layers from showing at `v`, whatever stands at `v` itself. */
  predicate Blocked(s: State, v: Path) {
    UnderOpaque(s.opq, v) || UnderWhiteout(s.wh, v)
  }

  function Resolve(s: State, l: Lower, v: Path): Hit {
    if v != [] && v in s.wh then Miss else
    if v in s.disk then InWriteLayer(s.disk[v]) else
    if Blocked(s, v) then Miss else
    if v in l.nodes then InLower(l.nodes[v]) else Miss
  }

  function At(s: State, l: Lower, v: Path): Option<Node> {
    NodeOf(Resolve(s, l, v))
  }

  /** The tree a guest walks: a path is there when it resolves and every directory on the way is there. */
  function Visible(s: State, l: Lower, p: Path): Option<Node> {
    if p == [] then At(s, l, p) else
    if Visible(s, l, Parent(p)) == Some(Dir) then At(s, l, p) else None
  }

  lemma {:induction false} VisiblePrefix(s: State, l: Lower, q: Path, p: Path)
    requires Under(q, p) && Visible(s, l, p).Some?
    ensures Visible(s, l, q).Some? && (q != p ==> Visible(s, l, q) == Some(Dir))
    decreases |p|
  {
    if q != p {
      UnderParent(q, p);
      VisiblePrefix(s, l, q, Parent(p));
    }
  }

  lemma {:induction false} BlockedBelow(s: State, v: Path, p: Path)
    requires Under(v, p) && Blocked(s, v)
    ensures Blocked(s, p)
    decreases |p|
  {
    if v != p {
      UnderParent(v, p);
      BlockedBelow(s, v, Parent(p));
    }
  }

  /** A deleted or opaque directory blocks everything strictly below it. */
  lemma {:induction false} MaskBlocks(s: State, v: Path, p: Path)
    requires Under(v, p) && v != p && ((v != [] && v in s.wh) || v in s.opq)
    ensures Blocked(s, p)
    decreases |p|
  {
    UnderParent(v, p);
    if Parent(p) != v {
      MaskBlocks(s, v, Parent(p));
    }
  }

  lemma {:induction false} LowerPrefix(l: Lower, q: Path, p: Path)
    requires LowerOk(l) && p in l.nodes && Under(q, p)
    ensures q in l.nodes
    decreases |p|
  {
    if q != p {
      UnderParent(q, p);
      LowerPrefix(l, q, Parent(p));
    }
  }

  // ---- the invariant ----

  /** Every entry of the writelayer sits under clean names; markers are files and name something clean. */
  ghost predicate DiskClean(d: Fs) {
    forall p :: p in d && p != [] ==>
      && Clean(Parent(p))
      && Last(p) != ""
      && (IsMarker(Last(p)) ==> d[p].File? && (Last(p) == OPQ || GoodName(Unwh(Last(p)))))
  }

  /** The masks in memory say exactly what the markers on disk say. */
  ghost predicate Mirrors(s: State) {
    && (forall v :: v in s.wh ==> v != [] && Clean(v) && WhPath(v) in s.disk)
    && (forall p :: p in s.disk && p != [] && IsMarker(Last(p)) && Last(p) != OPQ ==>
      Parent(p) + [Unwh(Last(p))] in s.wh)
    && (forall v :: v in s.opq <==> OpqPath(v) in s.disk)
  }

  /** No path is both deleted and present. */
  ghost predicate Apart(s: State) {
    forall v :: v in s.wh ==> v !in s.disk
  }

  ghost predicate Inv(s: State) {
    TreeOk(s.disk) && DiskClean(s.disk) && Mirrors(s) && Apart(s)
  }

  lemma WhOnDisk(s: State, v: Path)
    requires Inv(s) && v != [] && Clean(v)
    ensures v in s.wh <==> WhPath(v) in s.disk
    ensures v in s.wh ==> s.disk[WhPath(v)].File? && IsDirIn(s.disk, Parent(v))
  {
    MarkerNames(Last(v));
    ChildOf(Parent(v), Wh(Last(v)));
    CleanParent(v);
    if WhPath(v) in s.disk {
      ParentLast(v);
      MarkerPathsNotClean(v);
    }
  }

  /** The root is always the writelayer's own directory. */
  lemma RootIsVisible(s: State, l: Lower)
    requires Inv(s)
    ensures Visible(s, l, []) == Some(Dir)
  {
  }

  /** Below a visible directory nothing on disk can be a file where a directory is due. */
  lemma {:induction false} VisibleDirsFree(s: State, l: Lower, p: Path)
    requires Inv(s) && Visible(s, l, p) == Some(Dir)
    ensures DirsFree(s.disk, p)
  {
    if p !in s.disk {
      VisibleDirsFree(s, l, Parent(p));
    }
  }

  // ---- comparing views ----

  /** Two states that resolve alike along the way to `p` show the same there. */
  lemma {:induction false} SameView(s: State, s': State, l: Lower, p: Path)
    requires forall q :: Under(q, p) ==> At(s', l, q) == At(s, l, q)
    ensures Visible(s', l, p) == Visible(s, l, p)
    decreases |p|
  {
    assert Under(p, p);
    if p != [] {
      forall q | Under(q, Parent(p))
        ensures At(s', l, q) == At(s, l, q)
      {
        PrefixTransitive(q, Parent(p), p);
      }
      SameView(s, s', l, Parent(p));
    }
  }

  ghost predicate SameOutside(s: State, s': State, l: Lower, v: Path) {
    forall q :: Clean(q) && !Under(v, q) ==> At(s', l, q) == At(s, l, q)
  }

  /** When only `v` and what lies below may resolve differently, the view elsewhere stays. */
  lemma {:induction false} OutsideStays(s: State, s': State, l: Lower, v: Path, p: Path)
    requires SameOutside(s, s', l, v) && Clean(p) && !Under(v, p)
    ensures Visible(s', l, p) == Visible(s, l, p)
    decreases |p|
  {
    if p != [] {
      CleanParent(p);
      UnderParent(v, p);
      OutsideStays(s, s', l, v, Parent(p));
    }
  }

  /** Nothing is visible below what is not a directory. */
  lemma {:induction false} NothingBelow(s: State, l: Lower, v: Path, p: Path)
    requires Under(v, p) && v != p && Visible(s, l, v) != Some(Dir)
    ensures Visible(s, l, p) == None
    decreases |p|
  {
    UnderParent(v, p);
    if Parent(p) != v {
      NothingBelow(s, l, v, Parent(p));
    }
  }

  /** Nor below a directory whose children do not resolve. */
  lemma {:induction false} EmptyBelow(s: State, l: Lower, v: Path, p: Path)
    requires Under(v, p) && v != p && Clean(p)
    requires forall q :: Clean(q) && q != [] && Parent(q) == v ==> At(s, l, q) == None
    ensures Visible(s, l, p) == None
    decreases |p|
  {
    UnderParent(v, p);
    if Parent(p) != v {
      CleanParent(p);
      EmptyBelow(s, l, v, Parent(p));
    }
  }

  // ---- the view as a plain tree ----

  /** After `s'`, exactly `v` shows `n` instead of what it showed, and nothing shows below it. */
  ghost predicate ViewSet(s: State, s': State, l: Lower, v: Path, n: Option<Node>) {
    && (forall p :: Clean(p) && !Under(v, p) ==> Visible(s', l, p) == Visible(s, l, p))
    && Visible(s', l, v) == n
    && (forall p :: Clean(p) && Under(v, p) && p != v ==> Visible(s', l, p) == None)
  }

  ghost predicate ViewKept(s: State, s': State, l: Lower) {
    forall p :: Clean(p) ==> Visible(s', l, p) == Visible(s, l, p)
  }
}
