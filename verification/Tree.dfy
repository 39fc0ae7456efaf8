/** Paths, and a host directory tree with the calls the overlay makes on it. */
module Tree {
  import opened Bytes

  type Name = string
  /** A virtual path, component by component; [] is the root. */
  type Path = seq<Name>

  datatype Node = Dir | File(data: seq<byte>)

  type Fs = map<Path, Node>

  function Parent(p: Path): (r: Path)
    requires p != []
    ensures |r| == |p| - 1 && r < p
  {
    p[..|p| - 1]
  }

  function Last(p: Path): Name
    requires p != []
  {
    p[|p| - 1]
  }

  lemma ParentLast(p: Path)
    requires p != []
    ensures Parent(p) + [Last(p)] == p
  {
  }

  lemma ChildOf(d: Path, n: Name)
    ensures d + [n] != [] && Parent(d + [n]) == d && Last(d + [n]) == n
  {
  }

  /** `p` is `top` or lies below it. */
  predicate Under(top: Path, p: Path) {
    top <= p
  }

  /** `q` is below or at `p` exactly when it is `p` or its parent is below or at `p`. */
  lemma UnderParent(p: Path, q: Path)
    requires q != []
    ensures Under(p, q) <==> p == q || Under(p, Parent(q))
  {
    if p <= q && p != q {
      assert p == q[..|p|] == Parent(q)[..|p|];
    }
    if p <= Parent(q) {
      assert p == Parent(q)[..|p|] == q[..|p|];
    }
  }

  lemma NotUnderParent(v: Path)
    requires v != []
    ensures !Under(v, Parent(v)) && Under(Parent(v), v)
  {
  }

  lemma PrefixTransitive(a: Path, b: Path, c: Path)
    requires a <= b && b <= c
    ensures a <= c
  {
    assert a == b[..|a|] && b == c[..|b|];
    assert c[..|a|] == c[..|b|][..|a|];
  }

  /** A host tree: a root directory, and every other entry inside a directory. */
  ghost predicate TreeOk(t: Fs) {
    && [] in t && t[[]] == Dir
    && forall p :: p in t && p != [] ==> Parent(p) in t && t[Parent(p)] == Dir
  }

  lemma {:induction false} TreePrefix(t: Fs, q: Path, p: Path)
    requires TreeOk(t) && p in t && Under(q, p)
    ensures q in t && (q != p ==> t[q] == Dir)
    decreases |p|
  {
    if q != p {
      UnderParent(q, p);
      TreePrefix(t, q, Parent(p));
    }
  }

  ghost predicate DepthOk(t: Fs, depth: nat) {
    forall p :: p in t ==> |p| <= depth
  }

  /** The greatest length in a finite set of paths. */
  ghost function Deepest(ps: set<Path>): (d: nat)
    ensures forall p :: p in ps ==> |p| <= d
  {
    if ps == {} then 0 else
      var p :| p in ps;
      var d := Deepest(ps - {p});
      if |p| > d then |p| else d
  }

  ghost predicate HasChild(t: Fs, p: Path) {
    exists q :: q in t && q != [] && Parent(q) == p
  }

  // ---- host calls: what they do when they succeed ----

  predicate IsDirIn(t: Fs, p: Path) {
    p in t && t[p] == Dir
  }

  predicate CanMake(t: Fs, p: Path) {
    p != [] && p !in t && IsDirIn(t, Parent(p))
  }

  predicate Disjoint(a: Path, b: Path) {
    !Under(a, b) && !Under(b, a)
  }

  /** What rename(2) demands: neither name inside the other, and an existing destination of the same kind and empty. */
  ghost predicate CanRename(t: Fs, a: Path, b: Path) {
    && Disjoint(a, b) && a in t && b != [] && IsDirIn(t, Parent(b))
    && (b in t ==> (t[a] == Dir <==> t[b] == Dir))
    && (IsDirIn(t, b) ==> !HasChild(t, b))
  }

  lemma RemoveLeafKeepsTree(t: Fs, p: Path)
    requires TreeOk(t) && p != [] && !HasChild(t, p)
    ensures TreeOk(t - {p})
  {
    var t' := t - {p};
    forall q | q in t' && q != []
      ensures Parent(q) in t' && t'[Parent(q)] == Dir
    {
      assert q in t && Parent(q) != p;
    }
  }

  lemma FileHasNoChild(t: Fs, p: Path)
    requires TreeOk(t) && (p in t ==> t[p] != Dir)
    ensures !HasChild(t, p)
  {
  }

  /** No file stands where create_directories needs a directory. */
  predicate DirsFree(t: Fs, p: Path) {
    if p in t then t[p] == Dir else p != [] && DirsFree(t, Parent(p))
  }

  /** create_directories. */
  function CreateDirs(t: Fs, p: Path): Fs
    requires DirsFree(t, p)
  {
    if p in t then t else CreateDirs(t, Parent(p))[p := Dir]
  }

  lemma {:induction false} CreateDirsMakes(t: Fs, p: Path)
    requires TreeOk(t) && DirsFree(t, p)
    ensures TreeOk(CreateDirs(t, p)) && IsDirIn(CreateDirs(t, p), p)
    ensures forall q :: q in CreateDirs(t, p) <==> q in t || Under(q, p)
    ensures forall q :: q in CreateDirs(t, p) ==> CreateDirs(t, p)[q] == if q in t then t[q] else Dir
    decreases |p|
  {
    if p !in t {
      CreateDirsMakes(t, Parent(p));
      forall q
        ensures Under(q, p) <==> q == p || Under(q, Parent(p))
      {
        UnderParent(q, p);
      }
    } else {
      forall q | Under(q, p)
        ensures q in t
      {
        TreePrefix(t, q, p);
      }
    }
  }

  /** rename(2): `a` with everything under it becomes `b`. */
  function Moved(t: Fs, a: Path, b: Path): Fs {
    var keys := (set p | p in t && !(a <= p) && !(b <= p)) + (set p | p in t && a <= p :: b + p[|a|..]);
    map p | p in keys && (if b <= p then a + p[|b|..] in t else p in t) ::
      if b <= p then t[a + p[|b|..]] else t[p]
  }

  /** The entries of the tree after a rename, and what they hold. */
  lemma MovedEntries(t: Fs, a: Path, b: Path, p: Path)
    ensures p in Moved(t, a, b) <==>
      if b <= p then a + p[|b|..] in t else p in t && !(a <= p)
    ensures p in Moved(t, a, b) ==>
      Moved(t, a, b)[p] == if b <= p then t[a + p[|b|..]] else t[p]
  {
    if b <= p {
      var q := a + p[|b|..];
      assert q[|a|..] == p[|b|..];
      assert b + q[|a|..] == p;
      assert a <= q;
    }
  }
}
