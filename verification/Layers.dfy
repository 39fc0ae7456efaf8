/** The immutable layers below the writelayer: which serves a path, what they list, and the merged view they make. */
module Layers {
  import opened Bytes
  import opened Tree
  import opened PathText
  import opened ZipIndex
  import opened OverlayState

  datatype Kind =
    | DirOf(tree: Fs)
    | FileOf(base: Name, data: Option<seq<byte>>)
    | ZipOf(archive: seq<byte>, byName: map<Path, ZipEntry>, kids: Kids)

  /** A mounted layer: what lies under `subpath` of its source appears under `target`. */
  datatype Layer = Layer(kind: Kind, target: Path, subpath: Path, maskedUnder: seq<Path>)

  /** Where a layer sits: a file layer at its file, any other at its target. */
  function Own(layer: Layer): Path {
    if layer.kind.FileOf? then layer.target + [layer.kind.base] else layer.target
  }

  predicate LayerCovers(layer: Layer, v: Path) {
    if layer.kind.FileOf? then v == Own(layer) else Under(layer.target, v)
  }

  predicate LayerMasked(layer: Layer, v: Path) {
    exists m :: m in layer.maskedUnder && Under(m, v)
  }

  /** SourceRel: the path inside the source. */
  function SourceRel(layer: Layer, v: Path): Path
    requires !layer.kind.FileOf? && LayerCovers(layer, v)
  {
    layer.subpath + v[|layer.target|..]
  }

  /** The content of a stored entry. */
  function EntryData(archive: seq<byte>, e: ZipEntry): seq<byte> {
    Slice(archive, e.dataOffset, e.size)
  }

  function Serves(layer: Layer, v: Path): Option<Node>
    requires LayerCovers(layer, v)
  {
    match layer.kind
    case DirOf(tree) =>
      var rel := SourceRel(layer, v);
      if rel in tree then Some(tree[rel]) else None
    case FileOf(_, data) => if data.Some? then Some(File(data.value)) else None
    case ZipOf(archive, byName, kids) =>
      var rel := SourceRel(layer, v);
      if rel in byName then Some(if byName[rel].isDir then Dir else File(EntryData(archive, byName[rel])))
      else if rel in kids then Some(Dir)
      else None
  }

  /** A layer takes part at `v` and has it. */
  predicate Hits(layer: Layer, v: Path) {
    LayerCovers(layer, v) && !LayerMasked(layer, v) && Serves(layer, v).Some?
  }

  /** The highest layer that hits wins. */
  function ServedBy(layers: seq<Layer>, v: Path): Option<Node> {
    if layers == [] then None else
    var top := layers[|layers| - 1];
    if Hits(top, v) then Serves(top, v) else ServedBy(layers[..|layers| - 1], v)
  }

  /** What the layers have at `v`; the root is always a directory, whatever they hold. */
  function LowerAt(layers: seq<Layer>, implicitDirs: set<Path>, v: Path): Option<Node> {
    if v == [] then Some(Dir) else
    if ServedBy(layers, v).Some? then ServedBy(layers, v) else
    if v in implicitDirs then Some(Dir) else None
  }

  // ---- listing ----

  /** SegmentAfter: the component of `path` right after the directory `v`, if `path` lies below it. */
  function SegmentAfter(v: Path, path: Path): (r: set<Name>)
    ensures r != {} ==> Under(v, path) && |path| > |v| && r == {path[|v|]}
  {
    if Under(v, path) && |path| > |v| then {path[|v|]} else {}
  }

  function DirNames(tree: Fs, rel: Path): set<Name> {
    set q | q in tree && q != [] && Parent(q) == rel :: Last(q)
  }

  function SourceNames(layer: Layer, v: Path): set<Name>
    requires LayerCovers(layer, v)
  {
    match layer.kind
    case DirOf(tree) => DirNames(tree, SourceRel(layer, v))
    case FileOf(_, _) => {}
    case ZipOf(_, _, kids) => if SourceRel(layer, v) in kids then kids[SourceRel(layer, v)] else {}
  }

  /** What one layer adds to the listing of `v`: its own names there, and the way to where it sits. */
  function LayerNames(layer: Layer, v: Path): set<Name> {
    if LayerMasked(layer, v) then {} else
    (if LayerCovers(layer, v) then SourceNames(layer, v) else {}) + SegmentAfter(v, Own(layer))
  }

  function StructuralNames(implicitDirs: set<Path>, v: Path): set<Name> {
    set d | d in implicitDirs && Under(v, d) && |d| > |v| :: d[|v|]
  }

  function Names(layers: seq<Layer>, v: Path): set<Name> {
    if layers == [] then {} else Names(layers[..|layers| - 1], v) + LayerNames(layers[|layers| - 1], v)
  }

  function LowerNames(layers: seq<Layer>, implicitDirs: set<Path>, v: Path): set<Name> {
    Names(layers, v) + StructuralNames(implicitDirs, v)
  }

  // ---- the merged view ----

  function LayerPaths(layer: Layer): set<Path> {
    match layer.kind
    case DirOf(tree) => set p | p in tree && Under(layer.subpath, p) :: layer.target + p[|layer.subpath|..]
    case FileOf(_, _) => {Own(layer)}
    case ZipOf(_, byName, kids) =>
      set p | p in byName.Keys + kids.Keys && Under(layer.subpath, p) :: layer.target + p[|layer.subpath|..]
  }

  function AllPaths(layers: seq<Layer>): set<Path> {
    if layers == [] then {} else AllPaths(layers[..|layers| - 1]) + LayerPaths(layers[|layers| - 1])
  }

  /** The layers as one merged lower view. */
  function LowerOf(layers: seq<Layer>, implicitDirs: set<Path>): Lower {
    Lower(
      map v | v in AllPaths(layers) + implicitDirs + {[]} && LowerAt(layers, implicitDirs, v).Some? ::
        LowerAt(layers, implicitDirs, v).value,
      v => LowerNames(layers, implicitDirs, v))
  }

  // ---- well-formed layers ----

  /**
   * Entries lie in their parents, and every name a guest can reach is a clean one. Archives are stored, not
   * compressed, and hold no links.
   */
  ghost predicate LayerOk(layer: Layer) {
    && Clean(Own(layer))
    && match layer.kind
       case DirOf(tree) =>
         && (forall p :: p in tree && p != [] ==> Parent(p) in tree)
         && (forall p :: p in tree && Under(layer.subpath, p) && p != layer.subpath ==> GoodName(Last(p)))
       case FileOf(_, _) => true
       case ZipOf(_, byName, kids) =>
         && (forall p :: p != [] && Has(byName, kids, p) ==> Kid(kids, Parent(p), Last(p)))
         && (forall d, n :: Kid(kids, d, n) ==> GoodName(n))
         && (forall p :: p in byName ==> !byName[p].symlink && (byName[p].isDir || byName[p].stored))
  }

  ghost predicate LayersOk(layers: seq<Layer>) {
    forall i :: 0 <= i < |layers| ==> LayerOk(layers[i])
  }

  /** `d` lies strictly above where some layer shows. */
  ghost predicate IsStructural(layers: seq<Layer>, d: Path) {
    && d != []
    && exists i :: 0 <= i < |layers| && LiesAbove(layers[i], d)
  }

  /** `d` lies strictly above where the layer shows. */
  predicate LiesAbove(layer: Layer, d: Path) {
    !LayerMasked(layer, Own(layer)) && Under(d, Own(layer)) && d != Own(layer)
  }

  ghost predicate ImplicitOk(layers: seq<Layer>, implicitDirs: set<Path>) {
    forall d :: d in implicitDirs <==> IsStructural(layers, d)
  }

  lemma MaskedBelow(layer: Layer, v: Path, p: Path)
    requires LayerMasked(layer, v) && Under(v, p)
    ensures LayerMasked(layer, p)
  {
    var m :| m in layer.maskedUnder && Under(m, v);
    PrefixTransitive(m, v, p);
  }

  lemma {:induction false} ServedIffHit(layers: seq<Layer>, v: Path)
    ensures ServedBy(layers, v).Some? <==> exists i :: 0 <= i < |layers| && Hits(layers[i], v)
  {
    if layers != [] {
      var rest := layers[..|layers| - 1];
      ServedIffHit(rest, v);
      if Hits(layers[|layers| - 1], v) {
      } else {
        assert forall i :: 0 <= i < |rest| ==> rest[i] == layers[i];
      }
    }
  }

  lemma RelOfParent(layer: Layer, v: Path)
    requires !layer.kind.FileOf? && v != [] && LayerCovers(layer, v) && v != layer.target
    ensures LayerCovers(layer, Parent(v)) && SourceRel(layer, v) != []
    ensures Parent(SourceRel(layer, v)) == SourceRel(layer, Parent(v)) && Last(SourceRel(layer, v)) == Last(v)
  {
    UnderParent(layer.target, v);
    var rel := SourceRel(layer, v);
    assert v[|layer.target|..][..|v| - |layer.target| - 1] == Parent(v)[|layer.target|..];
    assert rel[..|rel| - 1] == layer.subpath + v[|layer.target|..][..|v| - |layer.target| - 1];
  }

  /** A layer that has `v` also has and lists its way there, unless it starts at `v`. */
  lemma HitParent(layer: Layer, v: Path)
    requires LayerOk(layer) && Hits(layer, v) && v != []
    ensures !LayerMasked(layer, Parent(v)) && Last(v) in LayerNames(layer, Parent(v))
    ensures v != Own(layer) ==> Hits(layer, Parent(v))
  {
    if LayerMasked(layer, Parent(v)) { MaskedBelow(layer, Parent(v), v); }
    if v == Own(layer) {
      assert Last(v) in SegmentAfter(Parent(v), Own(layer));
    } else {
      RelOfParent(layer, v);
      var rel := SourceRel(layer, v);
      if layer.kind.ZipOf? {
        assert Has(layer.kind.byName, layer.kind.kids, rel);
        assert Kid(layer.kind.kids, Parent(rel), Last(rel));
      }
    }
  }

  lemma {:induction false} NamesHas(layers: seq<Layer>, v: Path, n: Name)
    ensures n in Names(layers, v) <==> exists i :: 0 <= i < |layers| && n in LayerNames(layers[i], v)
  {
    if layers != [] {
      var rest := layers[..|layers| - 1];
      NamesHas(rest, v, n);
      if n in LayerNames(layers[|layers| - 1], v) {
      } else {
        assert forall i :: 0 <= i < |rest| ==> rest[i] == layers[i];
      }
    }
  }

  /** The merged view has a path's parent, and lists the path there. */
  lemma LowerParent(layers: seq<Layer>, dirs: set<Path>, v: Path)
    requires LayersOk(layers) && ImplicitOk(layers, dirs) && v != [] && LowerAt(layers, dirs, v).Some?
    ensures LowerAt(layers, dirs, Parent(v)).Some? && Last(v) in LowerNames(layers, dirs, Parent(v))
  {
    if ServedBy(layers, v).Some? { ServedParent(layers, dirs, v); } else { StructuralParent(layers, dirs, v); }
  }

  lemma ServedParent(layers: seq<Layer>, dirs: set<Path>, v: Path)
    requires LayersOk(layers) && ImplicitOk(layers, dirs) && v != [] && ServedBy(layers, v).Some?
    ensures LowerAt(layers, dirs, Parent(v)).Some? && Last(v) in LowerNames(layers, dirs, Parent(v))
  {
    hide ServedBy, Hits, LayerNames, LayerMasked, Names, LayerOk;
    ServedIffHit(layers, v);
    ServedIffHit(layers, Parent(v));
    NamesHas(layers, Parent(v), Last(v));
    var i :| 0 <= i < |layers| && Hits(layers[i], v);
    HitParent(layers[i], v);
    if v == Own(layers[i]) && Parent(v) != [] {
      HitIsUnmasked(layers[i], v);
      NotUnderParent(v);
      assert LiesAbove(layers[i], Parent(v));
      assert IsStructural(layers, Parent(v));
    }
  }

  lemma HitIsUnmasked(layer: Layer, v: Path)
    requires Hits(layer, v)
    ensures !LayerMasked(layer, v)
  {
  }

  lemma StructuralParent(layers: seq<Layer>, dirs: set<Path>, v: Path)
    requires ImplicitOk(layers, dirs) && v != [] && v in dirs
    ensures LowerAt(layers, dirs, Parent(v)).Some? && Last(v) in StructuralNames(dirs, Parent(v))
  {
    hide ServedBy, Names, LayerMasked;
    var i :| 0 <= i < |layers| && LiesAbove(layers[i], v);
    NotUnderParent(v);
    PrefixTransitive(Parent(v), v, Own(layers[i]));
    if Parent(v) != [] {
      assert LiesAbove(layers[i], Parent(v));
      assert IsStructural(layers, Parent(v));
    }
    assert Last(v) == v[|Parent(v)|];
  }

  lemma LayerNamesGood(layer: Layer, v: Path, n: Name)
    requires LayerOk(layer) && n in LayerNames(layer, v)
    ensures GoodName(n)
  {
    if n !in SegmentAfter(v, Own(layer)) {
      var rel := SourceRel(layer, v);
      if layer.kind.DirOf? {
        var q :| q in layer.kind.tree && q != [] && Parent(q) == rel && Last(q) == n;
        assert Under(layer.subpath, rel);
        PrefixTransitive(layer.subpath, rel, q);
      } else {
        assert Kid(layer.kind.kids, rel, n);
      }
    }
  }

  /** Only clean names are ever listed. */
  lemma LowerNamesGood(layers: seq<Layer>, dirs: set<Path>, v: Path, n: Name)
    requires LayersOk(layers) && ImplicitOk(layers, dirs) && n in LowerNames(layers, dirs, v)
    ensures GoodName(n)
  {
    NamesHas(layers, v, n);
    if n in Names(layers, v) {
      var i :| 0 <= i < |layers| && n in LayerNames(layers[i], v);
      LayerNamesGood(layers[i], v, n);
    } else {
      var d :| d in dirs && Under(v, d) && |d| > |v| && d[|v|] == n;
      var i :| 0 <= i < |layers| && LiesAbove(layers[i], d);
      assert Own(layers[i])[|v|] == d[|v|];
    }
  }

  lemma {:induction false} HitIsAPath(layers: seq<Layer>, v: Path, i: nat)
    requires i < |layers| && Hits(layers[i], v)
    ensures v in AllPaths(layers)
  {
    if i == |layers| - 1 {
      var layer := layers[i];
      if !layer.kind.FileOf? {
        var rel := SourceRel(layer, v);
        assert Under(layer.subpath, rel) && layer.target + rel[|layer.subpath|..] == v;
      }
    } else {
      HitIsAPath(layers[..|layers| - 1], v, i);
    }
  }

  /** The merged view has exactly what the walk over the layers finds. */
  lemma LowerNodes(layers: seq<Layer>, dirs: set<Path>, v: Path)
    ensures v in LowerOf(layers, dirs).nodes <==> LowerAt(layers, dirs, v).Some?
    ensures v in LowerOf(layers, dirs).nodes ==> LowerAt(layers, dirs, v) == Some(LowerOf(layers, dirs).nodes[v])
  {
    ServedIffHit(layers, v);
    if ServedBy(layers, v).Some? {
      var i :| 0 <= i < |layers| && Hits(layers[i], v);
      HitIsAPath(layers, v, i);
    }
  }

  // ---- which layer wins ----

  /** No mask of the layer lies at or above `v`. */
  ghost predicate Unmasked(layer: Layer, v: Path) {
    forall m :: m in layer.maskedUnder ==> !(m <= v)
  }

  /**
   * Outside its masks a layer has at `v` the node of its source: a directory or an archive what lies under its subpath,
   * seen from its target, a single file itself.
   */
  ghost predicate Provides(layer: Layer, v: Path, n: Node) {
    && Unmasked(layer, v)
    && match layer.kind
       case DirOf(tree) => exists p :: p in tree && Placed(layer, p, v) && tree[p] == n
       case FileOf(base, data) => v == layer.target + [base] && data.Some? && n == File(data.value)
       case ZipOf(archive, byName, kids) => exists p :: Placed(layer, p, v) && ZipHas(archive, byName, kids, p, n)
  }

  /** An entry's own node, a file with its stored bytes, or the directory entries lie in. */
  ghost predicate ZipHas(archive: seq<byte>, byName: map<Path, ZipEntry>, kids: Kids, p: Path, n: Node) {
    if p !in byName then p in kids && n == Dir
    else if byName[p].isDir then n == Dir
    else n == File(Slice(archive, byName[p].dataOffset, byName[p].size))
  }

  /** What the source has at `p` is mounted at `v`. */
  predicate Placed(layer: Layer, p: Path, v: Path) {
    && layer.subpath <= p && layer.target <= v
    && p[|layer.subpath|..] == v[|layer.target|..]
  }

  lemma ProvidesIff(layer: Layer, v: Path, n: Node)
    ensures Provides(layer, v, n) <==> Hits(layer, v) && Serves(layer, v) == Some(n)
  {
    if !layer.kind.FileOf? && LayerCovers(layer, v) {
      var p := SourceRel(layer, v);
      assert Placed(layer, p, v);
      assert forall q :: Placed(layer, q, v) ==> q == layer.subpath + q[|layer.subpath|..] == p;
    }
  }

  /** Layer `i` has `n` at `v`, and no layer above it has anything there. */
  ghost predicate Wins(layers: seq<Layer>, i: nat, v: Path, n: Node) {
    i < |layers| && Provides(layers[i], v, n) && NoneFrom(layers, i + 1, v)
  }

  ghost predicate NoneFrom(layers: seq<Layer>, i: nat, v: Path) {
    forall j, m :: i <= j < |layers| ==> !Provides(layers[j], v, m)
  }

  lemma {:induction false} ServedIsHighest(layers: seq<Layer>, v: Path, n: Node)
    ensures ServedBy(layers, v) == Some(n) <==> exists i :: Wins(layers, i, v, n)
    ensures ServedBy(layers, v) == None <==> NoneFrom(layers, 0, v)
  {
    hide Provides, Serves;
    if layers != [] {
      var top, rest := |layers| - 1, layers[..|layers| - 1];
      forall m ensures Provides(layers[top], v, m) <==> Hits(layers[top], v) && Serves(layers[top], v) == Some(m) {
        ProvidesIff(layers[top], v, m);
      }
      HitServes(layers[top], v);
      if Hits(layers[top], v) {
        var m := Serves(layers[top], v).value;
        assert Provides(layers[top], v, m);
        if m == n { assert Wins(layers, top, v, n); }
      } else {
        ServedIsHighest(rest, v, n);
        WinsBelow(layers, rest, layers[top], v, n);
      }
    }
  }

  lemma HitServes(layer: Layer, v: Path)
    ensures Hits(layer, v) ==> LayerCovers(layer, v) && Serves(layer, v).Some?
  {
  }

  /** A layer that has nothing at `v` changes neither who wins there nor whether anyone does. */
  lemma WinsBelow(layers: seq<Layer>, rest: seq<Layer>, top: Layer, v: Path, n: Node)
    requires layers == rest + [top] && forall m :: !Provides(top, v, m)
    ensures (exists i :: Wins(layers, i, v, n)) <==> exists i :: Wins(rest, i, v, n)
    ensures NoneFrom(layers, 0, v) <==> NoneFrom(rest, 0, v)
  {
    hide Provides;
    forall i: nat | i <= |rest|
      ensures NoneFrom(layers, i, v) <==> NoneFrom(rest, i, v)
    {
      if NoneFrom(layers, i, v) {
        forall k, m | i <= k < |rest| ensures !Provides(rest[k], v, m) { assert rest[k] == layers[k]; }
      }
      if NoneFrom(rest, i, v) {
        forall k, m | i <= k < |layers| ensures !Provides(layers[k], v, m) {
          if k < |rest| { assert rest[k] == layers[k]; }
        }
      }
    }
    forall i: nat
      ensures Wins(layers, i, v, n) <==> Wins(rest, i, v, n)
    {
      if i < |rest| { assert rest[i] == layers[i]; }
    }
  }

  /**
   * The merged view at `v` is what the highest layer that has something there has; where none has, a structural
   * directory.
   */
  lemma HighestWins(layers: seq<Layer>, dirs: set<Path>, v: Path, n: Node)
    requires v != []
    ensures v in LowerOf(layers, dirs).nodes && LowerOf(layers, dirs).nodes[v] == n <==>
      ((exists i :: Wins(layers, i, v, n)) || (NoneFrom(layers, 0, v) && v in dirs && n == Dir))
  {
    hide ServedBy, Provides, LowerOf, Wins, NoneFrom;
    LowerNodes(layers, dirs, v);
    ServedIsHighest(layers, v, n);
    if ServedBy(layers, v).Some? { ServedIsHighest(layers, v, ServedBy(layers, v).value); }
  }

  /** Resolve's walk over the layers, from the highest priority down. */
  method ResolveLower(layers: seq<Layer>, implicitDirs: set<Path>, v: Path) returns (hit: Option<Node>)
    requires v != []
    ensures forall n :: hit == Some(n) <==>
      ((exists i :: Wins(layers, i, v, n)) || (NoneFrom(layers, 0, v) && v in implicitDirs && n == Dir))
  {
    hide Serves, LayerCovers, LayerMasked, Provides;
    var i := |layers|;
    while i > 0
      invariant 0 <= i <= |layers| && NoneFrom(layers, i, v)
    {
      i := i - 1;
      var layer := layers[i];
      OneLayer(layer, v);
      if LayerCovers(layer, v) && !LayerMasked(layer, v) {
        hit := Serves(layer, v);
        if hit.Some? {
          assert Wins(layers, i, v, hit.value);
          return;
        }
      }
    }
    hit := if v in implicitDirs then Some(Dir) else None;
  }

  lemma OneLayer(layer: Layer, v: Path)
    ensures forall n :: Provides(layer, v, n) <==>
      LayerCovers(layer, v) && !LayerMasked(layer, v) && Serves(layer, v) == Some(n)
  {
    forall n
      ensures Provides(layer, v, n) <==>
        LayerCovers(layer, v) && !LayerMasked(layer, v) && Serves(layer, v) == Some(n)
    {
      ProvidesIff(layer, v, n);
    }
  }

  // ---- who lists what ----

  /** A layer lists in `v`, outside its masks, its source's names there and the next name on the way to its place. */
  ghost predicate Lists(layer: Layer, v: Path, n: Name) {
    && Unmasked(layer, v)
    && (|| (match layer.kind
            case DirOf(tree) => exists p :: p + [n] in tree && Placed(layer, p, v)
            case FileOf(_, _) => false
            case ZipOf(_, _, kids) => exists p :: p in kids && Placed(layer, p, v) && n in kids[p])
        || v + [n] <= layer.target
        || (layer.kind.FileOf? && v + [n] == layer.target + [layer.kind.base]))
  }

  lemma ListsIff(layer: Layer, v: Path, n: Name)
    ensures Lists(layer, v, n) <==> n in LayerNames(layer, v)
  {
    hide Provides;
    OnTheWay(layer, v, n);
    if !layer.kind.FileOf? && LayerCovers(layer, v) {
      var p := SourceRel(layer, v);
      assert Placed(layer, p, v);
      assert forall q :: Placed(layer, q, v) ==> q == layer.subpath + q[|layer.subpath|..] == p;
      if layer.kind.DirOf? { DirNamesHas(layer.kind.tree, p, n); }
    }
  }

  lemma DirNamesHas(tree: Fs, p: Path, n: Name)
    ensures n in DirNames(tree, p) <==> p + [n] in tree
  {
    ChildOf(p, n);
    if n in DirNames(tree, p) {
      var q :| q in tree && q != [] && Parent(q) == p && Last(q) == n;
      ParentLast(q);
    }
  }

  lemma OnTheWay(layer: Layer, v: Path, n: Name)
    ensures n in SegmentAfter(v, Own(layer)) <==>
      v + [n] <= layer.target || (layer.kind.FileOf? && v + [n] == layer.target + [layer.kind.base])
  {
    var own := Own(layer);
    if n in SegmentAfter(v, own) { assert own[..|v| + 1] == v + [n]; }
    if v + [n] <= own {
      assert own[|v|] == (v + [n])[|v|];
      assert v == (v + [n])[..|v|] == own[..|v|];
    }
    assert n in SegmentAfter(v, own) <==> v + [n] <= own;
    if layer.kind.FileOf? {
      assert own[..|layer.target|] == layer.target;
      if v + [n] <= own && |v| + 1 <= |layer.target| {
        assert v + [n] == own[..|v| + 1] == layer.target[..|v| + 1];
      }
      if v + [n] <= layer.target {
        assert v + [n] == layer.target[..|v| + 1] == own[..|v| + 1];
      }
    }
  }

  /** The merged view lists exactly what some layer lists, and the next name on the way to a structural directory. */
  lemma ListedBelow(layers: seq<Layer>, dirs: set<Path>, v: Path, n: Name)
    ensures n in LowerOf(layers, dirs).names(v) <==>
      (exists i :: 0 <= i < |layers| && Lists(layers[i], v, n)) || exists d :: d in dirs && v + [n] <= d
  {
    hide Lists, LayerNames, Names, StructuralNames, AllPaths, LowerAt;
    NamesHas(layers, v, n);
    WayToDirs(dirs, v, n);
    forall i | 0 <= i < |layers| ensures Lists(layers[i], v, n) <==> n in LayerNames(layers[i], v) {
      ListsIff(layers[i], v, n);
    }
    assert LowerOf(layers, dirs).names(v) == LowerNames(layers, dirs, v);
  }

  lemma WayToDirs(dirs: set<Path>, v: Path, n: Name)
    ensures n in StructuralNames(dirs, v) <==> exists d :: d in dirs && v + [n] <= d
  {
    if n in StructuralNames(dirs, v) {
      var d :| d in dirs && Under(v, d) && |d| > |v| && d[|v|] == n;
      assert d[..|v| + 1] == v + [n];
    }
    if d :| d in dirs && v + [n] <= d {
      assert d[|v|] == (v + [n])[|v|];
      assert v == (v + [n])[..|v|] == d[..|v|];
      assert Under(v, d) && |d| > |v|;
    }
  }

  /** A structural directory lies strictly above the place of a layer that no mask hides there. */
  lemma StructuralIff(layers: seq<Layer>, d: Path)
    ensures IsStructural(layers, d) <==>
      d != [] && exists i :: 0 <= i < |layers| && AbovePlace(layers[i], d)
  {
    forall i | 0 <= i < |layers| ensures LiesAbove(layers[i], d) <==> AbovePlace(layers[i], d) { }
  }

  ghost predicate AbovePlace(layer: Layer, d: Path) {
    var place := if layer.kind.FileOf? then layer.target + [layer.kind.base] else layer.target;
    Unmasked(layer, place) && d <= place && d != place
  }

  /**
   * Well-formed layers make a lower view that is closed under parents and lists every name that resolves in it,
   * clean names only.
   */
  lemma LayersMakeLower(layers: seq<Layer>, dirs: set<Path>)
    requires LayersOk(layers) && ImplicitOk(layers, dirs)
    ensures LowerOk(LowerOf(layers, dirs))
  {
    hide LayersOk, ImplicitOk, LowerAt, LowerNames, AllPaths;
    var l := LowerOf(layers, dirs);
    forall p | p in l.nodes && p != []
      ensures Parent(p) in l.nodes && Last(p) in l.names(Parent(p))
    {
      LowerNodes(layers, dirs, p);
      LowerParent(layers, dirs, p);
      LowerNodes(layers, dirs, Parent(p));
    }
    forall v, n | n in l.names(v)
      ensures GoodName(n)
    {
      LowerNamesGood(layers, dirs, v, n);
    }
  }

  /** The index of a well-named archive of stored files makes a well-formed layer. */
  lemma IndexMakesLayer(stats: seq<ZipStat>, archive: seq<byte>, byName: map<Path, ZipEntry>, kids: Kids,
                        target: Path, subpath: Path, masks: seq<Path>)
    requires IndexOf(stats, byName, kids) && Clean(target)
    requires forall s :: s in stats ==> Clean(EntryOf(s).name)
    requires forall s :: s in stats ==> !s.symlink && s.stored
    ensures LayerOk(Layer(ZipOf(archive, byName, kids), target, subpath, masks))
  {
    hide EntryOf, PathOf;
    assert WellNamed(stats);
    forall p | p != [] && Has(byName, kids, p)
      ensures Kid(kids, Parent(p), Last(p))
    {
      IndexIsClosed(stats, byName, kids, p);
    }
    forall d, n | Kid(kids, d, n)
      ensures GoodName(n)
    {
      assert Reached(stats, d + [n]);
      var s :| s in stats && Reaches(EntryOf(s).name, d + [n]);
      assert EntryOf(s).name[|d|] == (d + [n])[|d|];
    }
    forall p | p in byName
      ensures !byName[p].symlink && (byName[p].isDir || byName[p].stored)
    {
      NamedIsPlain(stats, p);
    }
  }

  lemma {:induction false} NamedIsPlain(stats: seq<ZipStat>, p: Path)
    requires LastNamed(stats, p).Some? && forall s :: s in stats ==> !s.symlink && s.stored
    ensures var e := LastNamed(stats, p).value; !e.symlink && (e.isDir || e.stored)
  {
    if EntryOf(stats[|stats| - 1]).name != p {
      NamedIsPlain(stats[..|stats| - 1], p);
    }
  }

  // ---- what Init and CollectChildren compute ----

  /** The structural directories: every directory strictly above where an unmasked layer sits. */
  method StructuralDirs(layers: seq<Layer>) returns (dirs: set<Path>)
    ensures ImplicitOk(layers, dirs)
  {
    dirs := {};
    var i := 0;
    assert layers[..0] == [];
    while i < |layers|
      invariant 0 <= i <= |layers| && ImplicitOk(layers[..i], dirs)
    {
      ghost var before := dirs;
      if !LayerMasked(layers[i], Own(layers[i])) {
        dirs := AddAncestors(dirs, Own(layers[i]));
      }
      StructuralOneMore(layers, i);
      i := i + 1;
    }
    assert layers[..|layers|] == layers;
  }

  lemma StructuralOneMore(layers: seq<Layer>, i: nat)
    requires i < |layers|
    ensures forall d :: IsStructural(layers[..i + 1], d) <==>
      (IsStructural(layers[..i], d) || (d != [] && LiesAbove(layers[i], d)))
  {
    var a, b := layers[..i], layers[..i + 1];
    assert forall k :: 0 <= k < i ==> a[k] == b[k];
    assert b[i] == layers[i];
  }

  method AddAncestors(dirs: set<Path>, leaf: Path) returns (r: set<Path>)
    ensures forall d :: d in r <==> d in dirs || (d != [] && Under(d, leaf) && d != leaf)
  {
    r := dirs;
    if leaf == [] { return; }
    var cur := Parent(leaf);
    while cur != []
      invariant Under(cur, leaf) && cur != leaf
      invariant forall d :: d in r <==> d in dirs || (|d| > |cur| && Under(d, leaf) && d != leaf)
      decreases |cur|
    {
      r := r + {cur};
      forall d | |d| == |cur| && Under(d, leaf) ensures d == cur {
        assert d == leaf[..|d|] == cur;
      }
      PrefixTransitive(Parent(cur), cur, leaf);
      cur := Parent(cur);
    }
  }

  /** The layers' share of a listing, layer by layer and then the structural directories. */
  method CollectLayers(layers: seq<Layer>, implicitDirs: set<Path>, v: Path) returns (names: set<Name>)
    ensures names == LowerNames(layers, implicitDirs, v)
  {
    names := {};
    var i := 0;
    assert layers[..0] == [];
    while i < |layers|
      invariant 0 <= i <= |layers| && names == Names(layers[..i], v)
    {
      assert layers[..i + 1][..i] == layers[..i];
      var layer := layers[i];
      if !LayerMasked(layer, v) {
        if LayerCovers(layer, v) {
          names := names + SourceNames(layer, v);
        }
        names := names + SegmentAfter(v, Own(layer));
      }
      i := i + 1;
    }
    assert layers[..|layers|] == layers;
    var rest := implicitDirs;
    ghost var base := names;
    while rest != {}
      invariant rest <= implicitDirs && names == base + StructuralNames(implicitDirs - rest, v)
      decreases rest
    {
      var d :| d in rest;
      names := names + SegmentAfter(v, d);
      assert implicitDirs - (rest - {d}) == (implicitDirs - rest) + {d};
      StructuralOne(implicitDirs - rest, d, v);
      rest := rest - {d};
    }
    assert implicitDirs - rest == implicitDirs;
  }

  lemma StructuralOne(dirs: set<Path>, d: Path, v: Path)
    ensures StructuralNames(dirs + {d}, v) == StructuralNames(dirs, v) + SegmentAfter(v, d)
  {
  }
}
