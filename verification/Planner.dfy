/** What a mount surfaces: composed byte views, folding, and the masks of the bases. */
module Planner {
  import opened Bytes
  import opened Tree
  import opened Layers
  import opened Chains

  // ---- byte views ----

  /** The targets whose views, one after the other, are a delta's base; its own when it declares none. */
  function BaseTargets(l: LayerSpec): (r: seq<Path>)
    ensures r != []
  {
    if l.baseTargets == [] then [l.target] else l.baseTargets
  }

  /** The bytes layer `g` stands for: an archive's own, or a delta applied over the views it names. */
  function View(h: Host, specs: seq<LayerSpec>, g: nat): Option<seq<byte>>
    requires g < |specs|
    decreases g, 2, 0
  {
    if !IsByteLayer(specs[g]) || specs[g].file.None? then None
    else if specs[g].ty.ZipLayer? then specs[g].file
    else
      var base := BaseView(h, specs, g, BaseTargets(specs[g]));
      if base.None? then None else h.build(specs[g].file.value, base.value)
  }

  /** The views at the targets `ts` when layer `g` is reached, joined in order. */
  function BaseView(h: Host, specs: seq<LayerSpec>, g: nat, ts: seq<Path>): Option<seq<byte>>
    requires g < |specs|
    decreases g, 1, |ts|
  {
    if ts == [] then Some([]) else
    var owner := Owner(h, specs, g, ts[|ts| - 1]);
    var before := BaseView(h, specs, g, ts[..|ts| - 1]);
    if owner.None? || before.None? then None else Some(before.value + View(h, specs, owner.value).value)
  }

  /** The layer below `g` whose view is the one at target `t`: the last that may speak for it. */
  function Owner(h: Host, specs: seq<LayerSpec>, g: nat, t: Path): (r: Option<nat>)
    requires g <= |specs|
    ensures r.Some? ==> r.value < g && View(h, specs, r.value).Some?
    decreases g, 0, 0
  {
    if g == 0 then None
    else if specs[g - 1].target == t && Speaks(h, specs, g - 1) then Some(g - 1)
    else Owner(h, specs, g - 1, t)
  }

  /** A chain member speaks for its target; a zip outside chains does so until a chain has begun there. */
  predicate Speaks(h: Host, specs: seq<LayerSpec>, g: nat)
    requires g < |specs|
    decreases g, 3, 0
  {
    View(h, specs, g).Some? && (InChain(specs, g) || !Began(h, specs, g, specs[g].target))
  }

  /** Some chain member below `g` at target `t` was loaded. */
  predicate Began(h: Host, specs: seq<LayerSpec>, g: nat, t: Path)
    requires g <= |specs|
    decreases g, 0, 0
  {
    g > 0 && ((specs[g - 1].target == t && InChain(specs, g - 1) && View(h, specs, g - 1).Some?) ||
      Began(h, specs, g - 1, t))
  }

  // ---- bases ----

  /** `b` is one of the layers whose views delta `g` is applied over. */
  predicate IsDirectBase(h: Host, specs: seq<LayerSpec>, g: nat, b: nat)
    requires g < |specs|
  {
    specs[g].ty.DeltaLayer? && exists t :: t in BaseTargets(specs[g]) && Owner(h, specs, g, t) == Some(b)
  }

  /** A base of `g`, directly or through other deltas, folded or not. */
  predicate IsBase(h: Host, specs: seq<LayerSpec>, g: nat, b: nat)
    requires g < |specs|
    decreases g
  {
    exists m :: 0 <= m < g && IsDirectBase(h, specs, g, m) && (m == b || IsBase(h, specs, m, b))
  }

  lemma {:induction false} BasesAreBelow(h: Host, specs: seq<LayerSpec>, g: nat, b: nat)
    requires g < |specs| && IsBase(h, specs, g, b)
    ensures b < g && View(h, specs, b).Some?
  {
    var m :| 0 <= m < g && IsDirectBase(h, specs, g, m) && (m == b || IsBase(h, specs, m, b));
    if m != b { BasesAreBelow(h, specs, m, b); }
  }

  /** A zip stacked over a chain is nobody's base. */
  lemma {:induction false} OverlaysAreNoBases(h: Host, specs: seq<LayerSpec>, g: nat, b: nat)
    requires g < |specs| && b < |specs| && !InChain(specs, b) && Began(h, specs, b, specs[b].target)
    ensures !IsBase(h, specs, g, b)
  {
    forall m | 0 <= m < g && IsDirectBase(h, specs, g, m)
      ensures m != b && !IsBase(h, specs, m, b)
    {
      var t :| t in BaseTargets(specs[g]) && Owner(h, specs, g, t) == Some(m);
      OwnerSpeaks(h, specs, g, t);
      OverlaysAreNoBases(h, specs, m, b);
    }
  }

  lemma {:induction false} OwnerSpeaks(h: Host, specs: seq<LayerSpec>, g: nat, t: Path)
    requires g <= |specs| && Owner(h, specs, g, t).Some?
    ensures var b := Owner(h, specs, g, t).value; specs[b].target == t && Speaks(h, specs, b)
  {
    if !(specs[g - 1].target == t && Speaks(h, specs, g - 1)) { OwnerSpeaks(h, specs, g - 1, t); }
  }

  /** The view at `t` is that of the last loaded chain member there, whatever plain zips lie between. */
  lemma {:induction false} OwnerIs(h: Host, specs: seq<LayerSpec>, g: nat, p: nat, t: Path)
    requires p < g <= |specs| && specs[p].target == t && Speaks(h, specs, p)
    requires forall k :: p < k < g ==> !(IsByteLayer(specs[k]) && specs[k].target == t)
    ensures Owner(h, specs, g, t) == Some(p)
  {
    if g - 1 > p {
      OwnerIs(h, specs, g - 1, p, t);
      assert View(h, specs, g - 1) == None || specs[g - 1].target != t;
    }
  }

  /** A delta that continues a chain is applied over its immediate predecessor's view, as far as its own target goes. */
  lemma PredecessorIsBase(h: Host, specs: seq<LayerSpec>, p: nat)
    requires p < |specs| && IsByteLayer(specs[p]) && BuiltUpon(specs, p) && View(h, specs, p).Some?
    ensures Owner(h, specs, Next(specs, p).value, specs[p].target) == Some(p)
  {
    OwnerIs(h, specs, Next(specs, p).value, p, specs[p].target);
  }

  lemma {:induction false} BaseOfBase(h: Host, specs: seq<LayerSpec>, g: nat, m: nat, b: nat)
    requires m < g < |specs| && IsBase(h, specs, g, m) && IsBase(h, specs, m, b)
    ensures IsBase(h, specs, g, b)
    decreases g
  {
    var d :| 0 <= d < g && IsDirectBase(h, specs, g, d) && (d == m || IsBase(h, specs, d, m));
    if d != m {
      BasesAreBelow(h, specs, d, m);
      BaseOfBase(h, specs, d, m, b);
    }
  }

  /** Every member of the chain from `p` on loads. */
  ghost predicate ChainLoads(h: Host, specs: seq<LayerSpec>, p: nat)
    requires p < |specs|
    decreases |specs| - p
  {
    View(h, specs, p).Some? && (BuiltUpon(specs, p) ==> ChainLoads(h, specs, Next(specs, p).value))
  }

  /** What a chain folds away is not lost: every member below the top is one of the top's bases. */
  lemma {:induction false} FoldedIsBase(h: Host, specs: seq<LayerSpec>, p: nat)
    requires p < |specs| && IsByteLayer(specs[p]) && BuiltUpon(specs, p) && ChainLoads(h, specs, p)
    ensures p < Top(specs, p) && IsBase(h, specs, Top(specs, p), p)
    decreases |specs| - p
  {
    hide View, Speaks;
    var n := Next(specs, p).value;
    PredecessorBehind(h, specs, p);
    if BuiltUpon(specs, n) {
      FoldedIsBase(h, specs, n);
      BaseOfBase(h, specs, Top(specs, p), n, p);
    }
  }

  lemma PredecessorBehind(h: Host, specs: seq<LayerSpec>, p: nat)
    requires p < |specs| && IsByteLayer(specs[p]) && BuiltUpon(specs, p) && View(h, specs, p).Some?
    ensures IsBase(h, specs, Next(specs, p).value, p)
  {
    hide View, Speaks, Owner;
    var n := Next(specs, p).value;
    PredecessorIsBase(h, specs, p);
    assert specs[p].target in BaseTargets(specs[n]);
    assert IsDirectBase(h, specs, n, p);
  }

  // ---- the base a delta declares ----

  function Flat(parts: seq<seq<byte>>): seq<byte> {
    if parts == [] then [] else parts[0] + Flat(parts[1..])
  }

  /** `parts` are, one for one, the bytes of the layers that speak for the targets `ts` when `g` is reached. */
  ghost predicate PartsAt(h: Host, specs: seq<LayerSpec>, g: nat, ts: seq<Path>, parts: seq<seq<byte>>)
    requires g < |specs|
  {
    && |parts| == |ts|
    && forall i :: 0 <= i < |ts| ==> PartAt(h, specs, g, ts[i]) == Some(parts[i])
  }

  function PartAt(h: Host, specs: seq<LayerSpec>, g: nat, t: Path): Option<seq<byte>>
    requires g < |specs|
  {
    var owner := Owner(h, specs, g, t);
    if owner.None? then None else View(h, specs, owner.value)
  }

  /** A delta that declares no base is applied over what speaks for its own target. */
  lemma UndeclaredBase(h: Host, specs: seq<LayerSpec>, g: nat)
    requires g < |specs| && specs[g].ty == DeltaLayer && specs[g].file.Some? && |specs[g].baseTargets| == 0
    ensures View(h, specs, g) ==
      if PartAt(h, specs, g, specs[g].target).None? then None
      else h.build(specs[g].file.value, PartAt(h, specs, g, specs[g].target).value)
  {
    var ts := [specs[g].target];
    assert BaseTargets(specs[g]) == ts && ts[..0] == [];
    assert BaseView(h, specs, g, ts[..0]) == Some([]);
    var p := PartAt(h, specs, g, specs[g].target);
    if p.Some? { assert [] + p.value == p.value; }
  }

  /** One that declares bases, over what speaks for them, one after the other in the order it names them. */
  lemma DeclaredBases(h: Host, specs: seq<LayerSpec>, g: nat, parts: seq<seq<byte>>)
    requires g < |specs| && specs[g].ty == DeltaLayer && specs[g].file.Some? && |specs[g].baseTargets| > 0
    ensures PartsAt(h, specs, g, specs[g].baseTargets, parts) ==>
      View(h, specs, g) == h.build(specs[g].file.value, Flat(parts))
    ensures (exists i :: 0 <= i < |specs[g].baseTargets| && PartAt(h, specs, g, specs[g].baseTargets[i]).None?) ==>
      View(h, specs, g) == None
  {
    hide Owner;
    var ts := specs[g].baseTargets;
    if PartsAt(h, specs, g, ts, parts) { JoinedParts(h, specs, g, ts, parts); }
    if i :| 0 <= i < |ts| && PartAt(h, specs, g, ts[i]).None? { NoBase(h, specs, g, ts, i); }
  }

  lemma {:induction false} JoinedParts(h: Host, specs: seq<LayerSpec>, g: nat, ts: seq<Path>, parts: seq<seq<byte>>)
    requires g < |specs| && PartsAt(h, specs, g, ts, parts)
    ensures BaseView(h, specs, g, ts) == Some(Flat(parts))
    decreases |ts|
  {
    hide Owner, View;
    if ts != [] {
      var k := |ts| - 1;
      JoinedParts(h, specs, g, ts[..k], parts[..k]);
      FlatSnoc(parts[..k], parts[k]);
      assert parts[..k] + [parts[k]] == parts;
      assert PartAt(h, specs, g, ts[k]) == Some(parts[k]);
    }
  }

  lemma {:induction false} FlatSnoc(parts: seq<seq<byte>>, x: seq<byte>)
    ensures Flat(parts + [x]) == Flat(parts) + x
    decreases |parts|
  {
    if parts == [] {
      assert Flat([x]) == x + Flat([]);
    } else {
      assert (parts + [x])[1..] == parts[1..] + [x];
      FlatSnoc(parts[1..], x);
    }
  }

  // ---- a chain's bytes ----

  /** The base of delta `n`: the views at `ts` joined in order, with `bytes` standing at its own target. */
  function JoinWith(h: Host, specs: seq<LayerSpec>, n: nat, ts: seq<Path>, bytes: seq<byte>): Option<seq<byte>>
    requires n < |specs|
    decreases |ts|
  {
    if ts == [] then Some([]) else
    var t := ts[|ts| - 1];
    var before := JoinWith(h, specs, n, ts[..|ts| - 1], bytes);
    var owner := Owner(h, specs, n, t);
    if before.None? then None
    else if t == specs[n].target then Some(before.value + bytes)
    else if owner.None? then None
    else Some(before.value + View(h, specs, owner.value).value)
  }

  /** The deltas above `p` in its chain, applied one after the other, each over its base as it declares it. */
  function FoldFrom(h: Host, specs: seq<LayerSpec>, p: nat, bytes: seq<byte>): Option<seq<byte>>
    requires p < |specs|
    decreases |specs| - p
  {
    if !BuiltUpon(specs, p) then Some(bytes) else
    var n := Next(specs, p).value;
    var base := JoinWith(h, specs, n, BaseTargets(specs[n]), bytes);
    if specs[n].file.None? || base.None? then None else
    match h.build(specs[n].file.value, base.value)
    case None => None
    case Some(b) => FoldFrom(h, specs, n, b)
  }

  /** With its predecessor's view at its own target, that base is the delta's base view. */
  lemma {:induction false} JoinIsBaseView(h: Host, specs: seq<LayerSpec>, n: nat, ts: seq<Path>, p: nat)
    requires n < |specs| && Owner(h, specs, n, specs[n].target) == Some(p)
    ensures BaseView(h, specs, n, ts) == JoinWith(h, specs, n, ts, View(h, specs, p).value)
    decreases |ts|
  {
    if ts != [] { JoinIsBaseView(h, specs, n, ts[..|ts| - 1], p); }
  }

  /** When the whole chain loads, the bytes of its top are the fold of its deltas over its first member. */
  lemma {:induction false} TopIsTheFold(h: Host, specs: seq<LayerSpec>, p: nat)
    requires p < |specs| && IsByteLayer(specs[p]) && View(h, specs, p).Some?
    requires FoldFrom(h, specs, p, View(h, specs, p).value).Some?
    ensures View(h, specs, Top(specs, p)) == FoldFrom(h, specs, p, View(h, specs, p).value)
    decreases |specs| - p
  {
    if BuiltUpon(specs, p) {
      var n := Next(specs, p).value;
      PredecessorIsBase(h, specs, p);
      JoinIsBaseView(h, specs, n, BaseTargets(specs[n]), p);
      TopIsTheFold(h, specs, n);
    }
  }

  // ---- what surfaces ----

  /** A layer is mounted when it is no archive, or one that loads, is indexed, and is not folded into a delta above. */
  predicate Surfaces(h: Host, specs: seq<LayerSpec>, g: nat)
    requires g < |specs|
  {
    !IsByteLayer(specs[g]) || (
      && View(h, specs, g).Some?
      && (ChainTop(specs, g).None? || ChainTop(specs, g) == Some(g))
      && h.index(View(h, specs, g).value).Some?)
  }

  /** Of a chain only the top can surface; a readable zip in no chain always does, if it has an index. */
  lemma OnlyTopsSurface(h: Host, specs: seq<LayerSpec>, g: nat)
    requires g < |specs| && IsByteLayer(specs[g])
    ensures ChainTop(specs, g).Some? && Surfaces(h, specs, g) ==> !BuiltUpon(specs, g)
    ensures specs[g].ty.ZipLayer? && !BuiltUpon(specs, g) ==>
      (Surfaces(h, specs, g) <==> specs[g].file.Some? && h.index(specs[g].file.value).Some?)
  {
    if ChainTop(specs, g) == Some(g) { TopIsLast(specs, g); }
  }

  function Mounts(l: LayerSpec): seq<(Path, Path)> {
    if l.submounts == [] || l.ty.FileLayer? then [([], l.target)] else l.submounts
  }

  predicate MountsAt(l: LayerSpec, t: Path) {
    exists m :: m in Mounts(l) && m.1 == t
  }

  function KindOf(h: Host, specs: seq<LayerSpec>, g: nat): Kind
    requires g < |specs| && Surfaces(h, specs, g)
  {
    match specs[g].ty
    case DirLayer => DirOf(specs[g].tree)
    case FileLayer => FileOf(specs[g].base, specs[g].file)
    case _ =>
      var bytes := View(h, specs, g).value;
      var z := h.index(bytes).value;
      ZipOf(bytes, z.0, z.1)
  }

  /** A mounted layer without its masks. */
  function Bare(l: Layer): Layer {
    l.(maskedUnder := [])
  }

  predicate HasMask(l: Layer, t: Path) {
    t in l.maskedUnder
  }

  /** The layers one declared layer is mounted as, in the order of its mounts. */
  function MountedAs(h: Host, specs: seq<LayerSpec>, g: nat): seq<Layer>
    requires g < |specs|
  {
    if !Surfaces(h, specs, g) then [] else
    var ms := Mounts(specs[g]);
    seq(|ms|, i requires 0 <= i < |ms| => Layer(KindOf(h, specs, g), ms[i].1, ms[i].0, []))
  }

  /** `t` is where a surfacing delta below `n`, built over layer `b`, is mounted. */
  ghost predicate HiddenUnder(h: Host, specs: seq<LayerSpec>, n: nat, b: nat, t: Path)
    requires n <= |specs|
  {
    exists g :: 0 <= g < n && specs[g].ty.DeltaLayer? && Surfaces(h, specs, g) && IsBase(h, specs, g, b)
      && MountsAt(specs[g], t)
  }

  /** The layers mounted by the first `n` declared ones, in order. */
  function AllMounted(h: Host, specs: seq<LayerSpec>, n: nat): seq<Layer>
    requires n <= |specs|
  {
    if n == 0 then [] else AllMounted(h, specs, n - 1) + MountedAs(h, specs, n - 1)
  }

  /** For each of them, the declared layer it came from. */
  function Origins(h: Host, specs: seq<LayerSpec>, n: nat): (r: seq<nat>)
    requires n <= |specs|
    ensures |r| == |AllMounted(h, specs, n)|
    ensures forall i :: 0 <= i < |r| ==> r[i] < n
  {
    if n == 0 then [] else Origins(h, specs, n - 1) + seq(|MountedAs(h, specs, n - 1)|, _ => n - 1)
  }

  /** The plan of a mount: what surfaces, in order, each hidden exactly under the deltas built over it. */
  ghost predicate Planned(h: Host, specs: seq<LayerSpec>, n: nat, layers: seq<Layer>)
    requires n <= |specs|
  {
    && |layers| == |AllMounted(h, specs, n)|
    && (forall i :: 0 <= i < |layers| ==> Bare(layers[i]) == AllMounted(h, specs, n)[i])
    && (forall i, t {:trigger HasMask(layers[i], t)} :: 0 <= i < |layers| ==>
          (HasMask(layers[i], t) <==> HiddenUnder(h, specs, n, Origins(h, specs, n)[i], t)))
  }

  // ---- where it surfaces ----

  /** The places a declared layer is mounted at: its submounts, or all of it at its target. */
  ghost predicate IsMount(l: LayerSpec, k: nat, sub: Path, target: Path) {
    if l.ty == FileLayer || |l.submounts| == 0 then k == 0 && sub == [] && target == l.target
    else k < |l.submounts| && l.submounts[k] == (sub, target)
  }

  function MountCount(l: LayerSpec): nat {
    if l.ty == FileLayer || |l.submounts| == 0 then 1 else |l.submounts|
  }

  /** What a mounted layer of `g` holds. */
  ghost predicate HoldsWhat(h: Host, specs: seq<LayerSpec>, g: nat, kind: Kind)
    requires g < |specs|
  {
    match specs[g].ty
    case DirLayer => kind == DirOf(specs[g].tree)
    case FileLayer => kind == FileOf(specs[g].base, specs[g].file)
    case _ =>
      && View(h, specs, g).Some? && kind.ZipOf? && kind.archive == View(h, specs, g).value
      && h.index(kind.archive) == Some((kind.byName, kind.kids))
  }

  /** From `at` on, exactly the mounts of `g`, in order. */
  ghost predicate MountsFrom(h: Host, specs: seq<LayerSpec>, g: nat, layers: seq<Layer>, at: nat)
    requires g < |specs|
  {
    && at + MountCount(specs[g]) <= |layers|
    && forall i :: at <= i < at + MountCount(specs[g]) ==> IsMountOf(h, specs, g, i - at, layers[i])
  }

  ghost predicate IsMountOf(h: Host, specs: seq<LayerSpec>, g: nat, k: nat, layer: Layer)
    requires g < |specs|
  {
    IsMount(specs[g], k, layer.subpath, layer.target) && HoldsWhat(h, specs, g, layer.kind)
  }

  /** `t` is a place of a surfacing delta built over layer `b`. */
  ghost predicate HidesAt(h: Host, specs: seq<LayerSpec>, b: nat, t: Path) {
    exists g, k, sub :: 0 <= g < |specs| && specs[g].ty == DeltaLayer && Surfaces(h, specs, g) && IsBase(h, specs, g, b)
      && IsMount(specs[g], k, sub, t)
  }

  /**
   * The mounted layers are, layer by layer as declared, the mounts of those that surface and nothing else: those of `g`
   * stand from `starts[g]` up to `starts[g + 1]`. Each is masked under exactly the places of the surfacing deltas that
   * its layer is a base of.
   */
  ghost predicate FannedOut(h: Host, specs: seq<LayerSpec>, layers: seq<Layer>, starts: seq<nat>) {
    && |starts| == |specs| + 1 && starts[0] == 0 && starts[|specs|] == |layers|
    && (forall g :: 0 <= g < |specs| ==>
          starts[g + 1] == starts[g] + if Surfaces(h, specs, g) then MountCount(specs[g]) else 0)
    && (forall g :: 0 <= g < |specs| && Surfaces(h, specs, g) ==> MountsFrom(h, specs, g, layers, starts[g]))
    && (forall g, i, t {:trigger starts[g], HasMask(layers[i], t)} ::
          0 <= g < |specs| && starts[g] <= i < starts[g + 1] && i < |layers| ==>
          (HasMask(layers[i], t) <==> HidesAt(h, specs, g, t)))
  }

  function Starts(h: Host, specs: seq<LayerSpec>, n: nat): (r: seq<nat>)
    requires n <= |specs|
    ensures |r| == n + 1
  {
    if n == 0 then [0] else Starts(h, specs, n - 1) + [|AllMounted(h, specs, n)|]
  }

  lemma {:induction false} StartAt(h: Host, specs: seq<LayerSpec>, n: nat, g: nat)
    requires g <= n <= |specs|
    ensures Starts(h, specs, n)[g] == |AllMounted(h, specs, g)|
    decreases n
  {
    hide MountedAs;
    if g < n { StartAt(h, specs, n - 1, g); }
  }

  lemma MountsIff(l: LayerSpec, t: Path)
    ensures |Mounts(l)| == MountCount(l)
    ensures forall k :: 0 <= k < |Mounts(l)| ==> IsMount(l, k, Mounts(l)[k].0, Mounts(l)[k].1)
    ensures MountsAt(l, t) <==> exists k, sub :: IsMount(l, k, sub, t)
  {
    if MountsAt(l, t) {
      var m :| m in Mounts(l) && m.1 == t;
      var k :| 0 <= k < |Mounts(l)| && Mounts(l)[k] == m;
      assert IsMount(l, k, m.0, t);
    }
    if k: nat, sub :| IsMount(l, k, sub, t) { assert Mounts(l)[k] == (sub, t); }
  }

  lemma HidesIff(h: Host, specs: seq<LayerSpec>, b: nat, t: Path)
    ensures HidesAt(h, specs, b, t) <==> HiddenUnder(h, specs, |specs|, b, t)
  {
    hide Surfaces, IsBase, MountsAt, IsMount;
    forall g | 0 <= g < |specs| ensures MountsAt(specs[g], t) <==> exists k, sub :: IsMount(specs[g], k, sub, t) {
      MountsIff(specs[g], t);
    }
  }

  /** The mounts of `g` stay where they are as more is mounted. */
  lemma {:induction false} MountedAtStart(h: Host, specs: seq<LayerSpec>, n: nat, g: nat, k: nat)
    requires g < n <= |specs| && k < |MountedAs(h, specs, g)|
    ensures |AllMounted(h, specs, g)| + k < |AllMounted(h, specs, g + 1)| <= |AllMounted(h, specs, n)|
    ensures AllMounted(h, specs, n)[|AllMounted(h, specs, g)| + k] == MountedAs(h, specs, g)[k]
    ensures Origins(h, specs, n)[|AllMounted(h, specs, g)| + k] == g
    decreases n
  {
    hide MountedAs;
    if g < n - 1 { MountedAtStart(h, specs, n - 1, g, k); }
  }

  lemma MountedIs(h: Host, specs: seq<LayerSpec>, g: nat, k: nat)
    requires g < |specs| && Surfaces(h, specs, g) && k < MountCount(specs[g])
    ensures |MountedAs(h, specs, g)| == MountCount(specs[g]) && IsMountOf(h, specs, g, k, MountedAs(h, specs, g)[k])
  {
    MountsIff(specs[g], []);
  }

  /** A plan fans every surfacing layer out as it declares. */
  lemma PlanFansOut(h: Host, specs: seq<LayerSpec>, layers: seq<Layer>)
    requires Planned(h, specs, |specs|, layers)
    ensures FannedOut(h, specs, layers, Starts(h, specs, |specs|))
  {
    hide Surfaces, MountedAs, HiddenUnder, HidesAt, Starts, Planned, MountsFrom, MountCount, AllMounted, Origins,
      HasMask;
    var n := |specs|;
    var starts := Starts(h, specs, n);
    forall g | 0 <= g <= n ensures starts[g] == |AllMounted(h, specs, g)| { StartAt(h, specs, n, g); }
    forall g | 0 <= g < n
      ensures starts[g + 1] == starts[g] + if Surfaces(h, specs, g) then MountCount(specs[g]) else 0
      ensures |MountedAs(h, specs, g)| == if Surfaces(h, specs, g) then MountCount(specs[g]) else 0
    {
      MountedLength(h, specs, g);
    }
    forall g | 0 <= g < n && Surfaces(h, specs, g)
      ensures MountsFrom(h, specs, g, layers, starts[g])
    {
      MountsPlaced(h, specs, layers, g);
    }
    forall g, i, t | 0 <= g < n && starts[g] <= i < starts[g + 1] && i < |layers|
      ensures HasMask(layers[i], t) <==> HidesAt(h, specs, g, t)
    {
      assert starts[g] == |AllMounted(h, specs, g)|;
      FannedMask(h, specs, layers, g, i, t);
    }
    MaskOf(h, specs, layers, 0, []);
  }

  lemma FannedMask(h: Host, specs: seq<LayerSpec>, layers: seq<Layer>, g: nat, i: nat, t: Path)
    requires Planned(h, specs, |specs|, layers) && g < |specs| && i < |layers|
    requires |AllMounted(h, specs, g)| <= i < |AllMounted(h, specs, g)| + |MountedAs(h, specs, g)|
    ensures HasMask(layers[i], t) <==> HidesAt(h, specs, g, t)
  {
    hide Surfaces, MountedAs, HiddenUnder, HidesAt, Planned, AllMounted, Origins, HasMask;
    MountedAtStart(h, specs, |specs|, g, i - |AllMounted(h, specs, g)|);
    MaskOf(h, specs, layers, i, t);
    HidesIff(h, specs, g, t);
  }

  lemma MaskOf(h: Host, specs: seq<LayerSpec>, layers: seq<Layer>, i: nat, t: Path)
    requires Planned(h, specs, |specs|, layers)
    ensures |layers| == |AllMounted(h, specs, |specs|)| && |AllMounted(h, specs, 0)| == 0
    ensures i < |layers| ==>
      (HasMask(layers[i], t) <==> HiddenUnder(h, specs, |specs|, Origins(h, specs, |specs|)[i], t))
  {
    hide HiddenUnder;
  }

  lemma MountsPlaced(h: Host, specs: seq<LayerSpec>, layers: seq<Layer>, g: nat)
    requires Planned(h, specs, |specs|, layers) && g < |specs| && Surfaces(h, specs, g)
    ensures MountsFrom(h, specs, g, layers, |AllMounted(h, specs, g)|)
  {
    hide Surfaces, IsMountOf, MountedAs, HiddenUnder;
    var at := |AllMounted(h, specs, g)|;
    MountedIs(h, specs, g, 0);
    MountedAtStart(h, specs, |specs|, g, MountCount(specs[g]) - 1);
    forall i | at <= i < at + MountCount(specs[g])
      ensures i < |layers| && IsMountOf(h, specs, g, i - at, layers[i])
    {
      MountedIs(h, specs, g, i - at);
      MountedAtStart(h, specs, |specs|, g, i - at);
      BareMount(h, specs, g, i - at, layers[i]);
    }
  }

  lemma BareMount(h: Host, specs: seq<LayerSpec>, g: nat, k: nat, layer: Layer)
    requires g < |specs|
    ensures IsMountOf(h, specs, g, k, layer) <==> IsMountOf(h, specs, g, k, Bare(layer))
  {
  }

  lemma MountedLength(h: Host, specs: seq<LayerSpec>, g: nat)
    requires g < |specs|
    ensures |MountedAs(h, specs, g)| == if Surfaces(h, specs, g) then MountCount(specs[g]) else 0
    ensures |AllMounted(h, specs, g + 1)| == |AllMounted(h, specs, g)| + |MountedAs(h, specs, g)|
  {
    if Surfaces(h, specs, g) { MountsIff(specs[g], []); }
  }

  // ---- the loop of Init ----

  /** `list` is `b` and then its bases, every one and no others. */
  ghost predicate BehindOk(h: Host, specs: seq<LayerSpec>, b: nat, list: seq<nat>)
    requires b < |specs|
  {
    list != [] && list[0] == b && forall x :: x in list[1..] <==> IsBase(h, specs, b, x)
  }

  /** The two maps say, for every target, whose view it has and which layers stand behind it. */
  ghost predicate ViewsOk(h: Host, specs: seq<LayerSpec>, g: nat,
                          views: map<Path, seq<byte>>, behinds: map<Path, seq<nat>>)
    requires g <= |specs|
  {
    forall t :: ViewOk(h, specs, g, views, behinds, t)
  }

  ghost predicate ViewOk(
    h: Host, specs: seq<LayerSpec>, g: nat, views: map<Path, seq<byte>>, behinds: map<Path, seq<nat>>, t: Path)
    requires g <= |specs|
  {
    var owner := Owner(h, specs, g, t);
    && (t in views <==> owner.Some?)
    && (owner.Some? ==>
          View(h, specs, owner.value) == Some(views[t]) && t in behinds && BehindOk(h, specs, owner.value, behinds[t]))
  }

  /** The bases met so far: those of the first targets. */
  ghost predicate GatheredBases(h: Host, specs: seq<LayerSpec>, g: nat, ts: seq<Path>, xs: seq<nat>)
    requires g < |specs|
  {
    forall x :: x in xs <==> exists t :: t in ts && BehindTarget(h, specs, g, t, x)
  }

  ghost predicate BehindTarget(h: Host, specs: seq<LayerSpec>, g: nat, t: Path, x: nat)
    requires g < |specs|
  {
    var owner := Owner(h, specs, g, t);
    owner.Some? && (x == owner.value || IsBase(h, specs, owner.value, x))
  }

  lemma AllGathered(h: Host, specs: seq<LayerSpec>, g: nat, xs: seq<nat>)
    requires g < |specs| && specs[g].ty.DeltaLayer? && GatheredBases(h, specs, g, BaseTargets(specs[g]), xs)
    ensures BehindOk(h, specs, g, [g] + xs)
  {
    hide Owner;
    forall x
      ensures x in xs <==> IsBase(h, specs, g, x)
    {
      if x in xs {
        var t :| t in BaseTargets(specs[g]) && BehindTarget(h, specs, g, t, x);
        assert IsDirectBase(h, specs, g, Owner(h, specs, g, t).value);
      }
      if IsBase(h, specs, g, x) {
        var m :| 0 <= m < g && IsDirectBase(h, specs, g, m) && (m == x || IsBase(h, specs, m, x));
        var t :| t in BaseTargets(specs[g]) && Owner(h, specs, g, t) == Some(m);
        assert BehindTarget(h, specs, g, t, x);
      }
    }
    assert ([g] + xs)[1..] == xs;
  }

  lemma GatherOne(h: Host, specs: seq<LayerSpec>, g: nat, ts: seq<Path>, t: Path, xs: seq<nat>, more: seq<nat>)
    requires g < |specs| && GatheredBases(h, specs, g, ts, xs)
    requires Owner(h, specs, g, t).Some? && BehindOk(h, specs, Owner(h, specs, g, t).value, more)
    ensures GatheredBases(h, specs, g, ts + [t], xs + more)
  {
    hide Owner, IsBase;
    forall x
      ensures x in more <==> BehindTarget(h, specs, g, t, x)
    {
      assert more == [more[0]] + more[1..];
    }
    forall x
      ensures x in xs + more <==> exists u :: u in ts + [t] && BehindTarget(h, specs, g, u, x)
    {
      assert (ts + [t])[|ts|] == t;
      if x in xs {
        var u :| u in ts && BehindTarget(h, specs, g, u, x);
        assert u in ts + [t];
      }
    }
  }

  /** The base of a delta, target by target: the joined views, and the layers behind them. */
  method ComposeBase(h: Host, specs: seq<LayerSpec>, g: nat, views: map<Path, seq<byte>>, behinds: map<Path, seq<nat>>)
    returns (base: Option<seq<byte>>, behind: seq<nat>)
    requires g < |specs| && specs[g].ty.DeltaLayer? && ViewsOk(h, specs, g, views, behinds)
    ensures base == BaseView(h, specs, g, BaseTargets(specs[g]))
    ensures base.Some? ==> BehindOk(h, specs, g, behind)
  {
    hide Owner, View, ViewOk, GatheredBases, BehindOk, IsBase;
    var ts := BaseTargets(specs[g]);
    var joined: seq<byte>, xs: seq<nat> := [], [];
    NothingGathered(h, specs, g);
    assert ts[..0] == [];
    for i := 0 to |ts|
      invariant BaseView(h, specs, g, ts[..i]) == Some(joined)
      invariant GatheredBases(h, specs, g, ts[..i], xs)
    {
      var t := ts[i];
      assert ts[..i + 1] == ts[..i] + [t];
      assert ViewOk(h, specs, g, views, behinds, t);
      ViewIs(h, specs, g, views, behinds, t);
      if t !in views {
        NoBase(h, specs, g, ts, i);
        return None, [];
      }
      GatherOne(h, specs, g, ts[..i], t, xs, behinds[t]);
      joined, xs := joined + views[t], xs + behinds[t];
    }
    assert ts[..|ts|] == ts;
    AllGathered(h, specs, g, xs);
    base, behind := Some(joined), [g] + xs;
  }

  lemma NothingGathered(h: Host, specs: seq<LayerSpec>, g: nat)
    requires g < |specs|
    ensures GatheredBases(h, specs, g, [], []) && BaseView(h, specs, g, []) == Some([])
  {
  }

  lemma ViewIs(h: Host, specs: seq<LayerSpec>, g: nat, views: map<Path, seq<byte>>, behinds: map<Path, seq<nat>>,
               t: Path)
    requires g <= |specs| && ViewOk(h, specs, g, views, behinds, t)
    ensures var owner := Owner(h, specs, g, t);
      && (t in views <==> owner.Some?)
      && (owner.Some? ==>
            View(h, specs, owner.value) == Some(views[t]) && t in behinds &&
            BehindOk(h, specs, owner.value, behinds[t]))
  {
  }

  /** One target without a view, and the delta has no base. */
  lemma {:induction false} NoBase(h: Host, specs: seq<LayerSpec>, g: nat, ts: seq<Path>, i: nat)
    requires g < |specs| && i < |ts| && Owner(h, specs, g, ts[i]).None?
    ensures BaseView(h, specs, g, ts) == None
    decreases |ts|
  {
    hide Owner, View;
    if i < |ts| - 1 { NoBase(h, specs, g, ts[..|ts| - 1], i); }
  }

  /** A layer that speaks takes over its target; any other leaves the maps as they are. */
  lemma ViewsNext(h: Host, specs: seq<LayerSpec>, g: nat, views: map<Path, seq<byte>>, behinds: map<Path, seq<nat>>,
                  behind: seq<nat>)
    requires g < |specs| && ViewsOk(h, specs, g, views, behinds)
    ensures !Speaks(h, specs, g) ==> ViewsOk(h, specs, g + 1, views, behinds)
    ensures Speaks(h, specs, g) && BehindOk(h, specs, g, behind) ==>
      ViewsOk(h, specs, g + 1, views[specs[g].target := View(h, specs, g).value], behinds[specs[g].target := behind])
  {
    hide BehindOk, Speaks, View;
    var n := g + 1;
    if !Speaks(h, specs, g) {
      forall t ensures ViewOk(h, specs, n, views, behinds, t) {
        assert ViewOk(h, specs, g, views, behinds, t);
      }
    } else if BehindOk(h, specs, g, behind) {
      SpeakersLoad(h, specs, g);
      var views', behinds' := views[specs[g].target := View(h, specs, g).value], behinds[specs[g].target := behind];
      forall t ensures ViewOk(h, specs, n, views', behinds', t) {
        assert ViewOk(h, specs, g, views, behinds, t);
      }
    }
  }

  lemma SpeakersLoad(h: Host, specs: seq<LayerSpec>, g: nat)
    requires g < |specs| && Speaks(h, specs, g)
    ensures View(h, specs, g).Some?
  {
  }

  lemma ArchivesHaveNoBases(h: Host, specs: seq<LayerSpec>, g: nat)
    requires g < |specs| && !specs[g].ty.DeltaLayer?
    ensures BehindOk(h, specs, g, [g])
  {
  }

  // ---- masks ----

  ghost predicate HasTarget(layers: seq<Layer>, ds: seq<nat>, t: Path) {
    exists d :: d in ds && d < |layers| && layers[d].target == t
  }

  /** The same layers, with the targets of `ds` added to the masks of those in `lis`. */
  ghost predicate Masked(layers: seq<Layer>, r: seq<Layer>, lis: seq<nat>, ds: seq<nat>) {
    && |r| == |layers|
    && (forall i :: 0 <= i < |r| ==> Bare(r[i]) == Bare(layers[i]))
    && (forall i, t {:trigger HasMask(r[i], t)} {:trigger HasMask(layers[i], t)} :: 0 <= i < |r| ==>
          (HasMask(r[i], t) <==> HasMask(layers[i], t) || (i in lis && HasTarget(layers, ds, t))))
  }

  lemma SameTargets(layers: seq<Layer>, r: seq<Layer>, ds: seq<nat>, t: Path)
    requires |r| == |layers| && forall i :: 0 <= i < |r| ==> Bare(r[i]) == Bare(layers[i])
    ensures HasTarget(r, ds, t) == HasTarget(layers, ds, t)
  {
    forall i | 0 <= i < |r| ensures r[i].target == layers[i].target {
      assert Bare(r[i]).target == Bare(layers[i]).target;
    }
  }

  /** One layer takes the targets of `ds` as masks. */
  method MaskOne(layers: seq<Layer>, li: nat, ds: seq<nat>) returns (r: seq<Layer>)
    requires li < |layers| && forall d :: d in ds ==> d < |layers|
    ensures Masked(layers, r, [li], ds)
  {
    r := layers;
    var k := 0;
    while k < |ds|
      invariant 0 <= k <= |ds| && |r| == |layers|
      invariant forall i :: 0 <= i < |r| && i != li ==> r[i] == layers[i]
      invariant Bare(r[li]) == Bare(layers[li])
      invariant forall t :: HasMask(r[li], t) <==> HasMask(layers[li], t) || HasTarget(layers, ds[..k], t)
    {
      assert ds[k] in ds;
      var t0 := r[ds[k]].target;
      assert t0 == layers[ds[k]].target by { assert Bare(r[ds[k]]).target == Bare(layers[ds[k]]).target; }
      TargetsOneMore(layers, ds, k);
      r := r[li := r[li].(maskedUnder := r[li].maskedUnder + [t0])];
      k := k + 1;
    }
    assert ds[..k] == ds;
  }

  lemma TargetsOneMore(layers: seq<Layer>, ds: seq<nat>, k: nat)
    requires k < |ds| && ds[k] < |layers|
    ensures forall t :: HasTarget(layers, ds[..k + 1], t) <==>
      HasTarget(layers, ds[..k], t) || t == layers[ds[k]].target
  {
    assert ds[..k + 1] == ds[..k] + [ds[k]];
    forall t
      ensures HasTarget(layers, ds[..k + 1], t) <==> HasTarget(layers, ds[..k], t) || t == layers[ds[k]].target
    {
      if HasTarget(layers, ds[..k], t) {
        var d :| d in ds[..k] && d < |layers| && layers[d].target == t;
        assert d in ds[..k + 1];
      }
      assert ds[k] in ds[..k + 1];
    }
  }

  method MaskMany(layers: seq<Layer>, lis: seq<nat>, ds: seq<nat>) returns (r: seq<Layer>)
    requires (forall i :: i in lis ==> i < |layers|) && forall d :: d in ds ==> d < |layers|
    ensures Masked(layers, r, lis, ds)
  {
    hide Masked;
    r := layers;
    NothingMasked(layers, ds);
    assert forall k :: 0 <= k < |lis| ==> lis[k] in lis;
    assert lis[..0] == [];
    for k := 0 to |lis|
      invariant |r| == |layers| && Masked(layers, r, lis[..k], ds)
    {
      ghost var before := r;
      r := MaskOne(r, lis[k], ds);
      assert lis[..k + 1] == lis[..k] + [lis[k]];
      MaskedMore(layers, before, r, lis[..k], [lis[k]], ds);
    }
    assert lis[..|lis|] == lis;
  }

  lemma NothingMasked(layers: seq<Layer>, ds: seq<nat>)
    ensures Masked(layers, layers, [], ds)
  {
  }

  lemma MaskedMore(a: seq<Layer>, b: seq<Layer>, c: seq<Layer>, lis: seq<nat>, more: seq<nat>, ds: seq<nat>)
    requires Masked(a, b, lis, ds) && Masked(b, c, more, ds)
    ensures Masked(a, c, lis + more, ds) && |c| == |a|
  {
    hide HasTarget, HasMask;
    forall i | 0 <= i < |c| ensures Bare(c[i]) == Bare(a[i]) {
      assert Bare(b[i]) == Bare(a[i]) && Bare(c[i]) == Bare(b[i]);
    }
    var all := lis + more;
    forall i, t | 0 <= i < |c|
      ensures HasMask(c[i], t) <==> HasMask(a[i], t) || (i in all && HasTarget(a, ds, t))
    {
      SameTargets(a, b, ds, t);
      MaskedAt(a, b, lis, ds, i, t);
      MaskedAt(b, c, more, ds, i, t);
      assert i in all <==> i in lis || i in more;
    }
  }

  lemma MaskedAt(a: seq<Layer>, b: seq<Layer>, lis: seq<nat>, ds: seq<nat>, i: nat, t: Path)
    requires Masked(a, b, lis, ds) && i < |b|
    ensures |a| == |b| && (HasMask(b[i], t) <==> HasMask(a[i], t) || (i in lis && HasTarget(a, ds, t)))
  {
  }

  /** For every declared layer, the places of the mounted layers it surfaced as. */
  ghost predicate MountedOk(origins: seq<nat>, mountedAs: seq<seq<nat>>) {
    forall b, i: nat :: 0 <= b < |mountedAs| ==> (i in mountedAs[b] <==> CameFrom(origins, b, i))
  }

  predicate CameFrom(origins: seq<nat>, b: nat, i: nat) {
    i < |origins| && origins[i] == b
  }

  /** The masks a surfacing delta leaves on its bases, wherever they surfaced: exactly on what came from a base. */
  method MaskBases(layers: seq<Layer>, behind: seq<nat>, mountedAs: seq<seq<nat>>, ds: seq<nat>,
                   ghost origins: seq<nat>)
    returns (r: seq<Layer>)
    requires behind != [] && (forall x :: x in behind ==> x < |mountedAs|) && (forall d :: d in ds ==> d < |layers|)
    requires MountedOk(origins, mountedAs) && |origins| == |layers|
    ensures BasesMasked(layers, r, behind, ds, origins)
  {
    hide Masked, BasesMasked;
    ghost var lis: seq<nat> := [];
    r := layers;
    NothingMasked(layers, ds);
    MaskedLength(layers, r, lis, ds);
    assert behind[1..1] == [];
    for k := 1 to |behind|
      invariant |r| == |layers| && Masked(layers, r, lis, ds)
      invariant forall i: nat :: i in lis <==> i < |origins| && origins[i] in behind[1..k]
    {
      var x := behind[k];
      assert x in behind;
      ghost var before := r;
      r := MaskMany(r, mountedAs[x], ds);
      MaskedMore(layers, before, r, lis, mountedAs[x], ds);
      lis := lis + mountedAs[x];
      assert behind[1..k + 1] == behind[1..k] + [x];
    }
    assert behind[1..|behind|] == behind[1..];
    MaskedAreBases(layers, r, behind, ds, origins, lis);
  }

  /** The same layers, with the targets of `ds` added to the masks of those that came from `behind`, its head aside. */
  ghost predicate BasesMasked(layers: seq<Layer>, r: seq<Layer>, behind: seq<nat>, ds: seq<nat>, origins: seq<nat>)
    requires behind != [] && |origins| == |layers|
  {
    && |r| == |layers|
    && (forall i :: 0 <= i < |r| ==> Bare(r[i]) == Bare(layers[i]))
    && (forall i, t {:trigger HasMask(r[i], t)} {:trigger HasMask(layers[i], t)} :: 0 <= i < |r| ==>
          (HasMask(r[i], t) <==> HasMask(layers[i], t) || (origins[i] in behind[1..] && HasTarget(layers, ds, t))))
  }

  lemma MaskedAreBases(layers: seq<Layer>, r: seq<Layer>, behind: seq<nat>, ds: seq<nat>, origins: seq<nat>,
                       lis: seq<nat>)
    requires behind != [] && |origins| == |layers| && Masked(layers, r, lis, ds)
    requires forall i: nat :: i in lis <==> i < |origins| && origins[i] in behind[1..]
    ensures BasesMasked(layers, r, behind, ds, origins)
  {
    hide HasMask, HasTarget;
    forall i, t | 0 <= i < |r|
      ensures HasMask(r[i], t) <==> HasMask(layers[i], t) || (origins[i] in behind[1..] && HasTarget(layers, ds, t))
    {
      assert HasMask(r[i], t) <==> HasMask(layers[i], t) || (i in lis && HasTarget(layers, ds, t));
    }
  }

  lemma MaskedLength(a: seq<Layer>, b: seq<Layer>, lis: seq<nat>, ds: seq<nat>)
    requires Masked(a, b, lis, ds)
    ensures |a| == |b|
  {
  }

  /** A layer that does not surface changes nothing. */
  lemma PlanSkips(h: Host, specs: seq<LayerSpec>, g: nat, layers: seq<Layer>)
    requires g < |specs| && Planned(h, specs, g, layers) && !Surfaces(h, specs, g)
    ensures Planned(h, specs, g + 1, layers)
  {
    hide Surfaces, IsBase;
    var n := g + 1;
    assert AllMounted(h, specs, n) == AllMounted(h, specs, g);
    assert Origins(h, specs, n) == Origins(h, specs, g);
    forall b, t ensures HiddenUnder(h, specs, n, b, t) <==> HiddenUnder(h, specs, g, b, t) {
      HiddenNext(h, specs, g, b, t);
    }
  }

  lemma HiddenNext(h: Host, specs: seq<LayerSpec>, g: nat, b: nat, t: Path)
    requires g < |specs|
    ensures HiddenUnder(h, specs, g + 1, b, t) <==>
      (HiddenUnder(h, specs, g, b, t) ||
       (specs[g].ty.DeltaLayer? && Surfaces(h, specs, g) && IsBase(h, specs, g, b) && MountsAt(specs[g], t)))
  {
    hide Surfaces, IsBase, MountsAt;
  }

  /** Layer `g` mounted above the others, before it masks anything. */
  lemma PlanMounts(h: Host, specs: seq<LayerSpec>, g: nat, layers: seq<Layer>, all: seq<Layer>)
    requires g < |specs| && Planned(h, specs, g, layers) && all == layers + MountedAs(h, specs, g)
    ensures var o := Origins(h, specs, g + 1);
      && |all| == |AllMounted(h, specs, g + 1)| == |o|
      && (forall i :: 0 <= i < |all| ==> Bare(all[i]) == AllMounted(h, specs, g + 1)[i])
      && (forall i, t :: 0 <= i < |all| ==> (HasMask(all[i], t) <==> HiddenUnder(h, specs, g, o[i], t)))
      && (forall i :: 0 <= i < |all| ==> (o[i] == g <==> i >= |layers|))
  {
    hide Surfaces, HiddenUnder, KindOf;
    var o, p := Origins(h, specs, g + 1), Origins(h, specs, g);
    forall i, t | 0 <= i < |all|
      ensures Bare(all[i]) == AllMounted(h, specs, g + 1)[i]
      ensures HasMask(all[i], t) <==> HiddenUnder(h, specs, g, o[i], t)
    {
      if i < |layers| {
        assert all[i] == layers[i] && o[i] == p[i];
        assert HasMask(layers[i], t) <==> HiddenUnder(h, specs, g, p[i], t);
      } else {
        NotHiddenBelow(h, specs, g, t);
      }
    }
  }

  lemma NotHiddenBelow(h: Host, specs: seq<LayerSpec>, g: nat, t: Path)
    requires g < |specs|
    ensures !HiddenUnder(h, specs, g, g, t) && !IsBase(h, specs, g, g)
  {
    forall k | 0 <= k <= g ensures !IsBase(h, specs, k, g) {
      if IsBase(h, specs, k, g) { BasesAreBelow(h, specs, k, g); }
    }
  }

  /** The masks of a surfacing delta complete the plan. */
  lemma PlanMasks(h: Host, specs: seq<LayerSpec>, g: nat, layers: seq<Layer>, all: seq<Layer>, r: seq<Layer>,
                  behind: seq<nat>, ds: seq<nat>)
    requires g < |specs| && Planned(h, specs, g, layers) && all == layers + MountedAs(h, specs, g)
    requires Surfaces(h, specs, g) && specs[g].ty.DeltaLayer? && BehindOk(h, specs, g, behind)
    requires |Origins(h, specs, g + 1)| == |all| && BasesMasked(all, r, behind, ds, Origins(h, specs, g + 1))
    requires forall d :: d in ds <==> |layers| <= d < |all|
    ensures Planned(h, specs, g + 1, r)
  {
    hide Surfaces, HiddenUnder, KindOf, IsBase;
    PlanMounts(h, specs, g, layers, all);
    var o := Origins(h, specs, g + 1);
    forall i, t | 0 <= i < |r|
      ensures HasMask(r[i], t) <==> HiddenUnder(h, specs, g + 1, o[i], t)
    {
      HiddenNext(h, specs, g, o[i], t);
      DeltaTargets(h, specs, g, layers, all, ds, t);
      assert HasMask(all[i], t) <==> HiddenUnder(h, specs, g, o[i], t);
      assert HasMask(r[i], t) <==> HasMask(all[i], t) || (o[i] in behind[1..] && HasTarget(all, ds, t));
    }
    forall i | 0 <= i < |r| ensures Bare(r[i]) == AllMounted(h, specs, g + 1)[i] {
      assert Bare(r[i]) == Bare(all[i]);
    }
  }

  lemma DeltaTargets(h: Host, specs: seq<LayerSpec>, g: nat, layers: seq<Layer>, all: seq<Layer>, ds: seq<nat>, t: Path)
    requires g < |specs| && all == layers + MountedAs(h, specs, g) && Surfaces(h, specs, g)
    requires forall d :: d in ds <==> |layers| <= d < |all|
    ensures HasTarget(all, ds, t) <==> MountsAt(specs[g], t)
  {
    hide Surfaces, KindOf;
    var ms := Mounts(specs[g]);
    if MountsAt(specs[g], t) {
      var m :| m in ms && m.1 == t;
      var k :| 0 <= k < |ms| && ms[k] == m;
      assert |layers| + k in ds && all[|layers| + k].target == t;
    }
    if HasTarget(all, ds, t) {
      var d :| d in ds && d < |all| && all[d].target == t;
      assert ms[d - |layers|] in ms;
    }
  }

  lemma PlanOther(h: Host, specs: seq<LayerSpec>, g: nat, layers: seq<Layer>, all: seq<Layer>)
    requires g < |specs| && Planned(h, specs, g, layers) && all == layers + MountedAs(h, specs, g)
    requires !specs[g].ty.DeltaLayer?
    ensures Planned(h, specs, g + 1, all)
  {
    hide Surfaces, HiddenUnder, KindOf, IsBase;
    PlanMounts(h, specs, g, layers, all);
    var o := Origins(h, specs, g + 1);
    forall i, t | 0 <= i < |all|
      ensures HasMask(all[i], t) <==> HiddenUnder(h, specs, g + 1, o[i], t)
    {
      HiddenNext(h, specs, g, o[i], t);
    }
  }

  /** What layer `g` holds and which layers stand behind it, from the maps of the loop. */
  method LoadView(h: Host, specs: seq<LayerSpec>, g: nat, views: map<Path, seq<byte>>, behinds: map<Path, seq<nat>>)
    returns (view: Option<seq<byte>>, behind: seq<nat>)
    requires g < |specs| && ViewsOk(h, specs, g, views, behinds) && IsByteLayer(specs[g])
    ensures view == View(h, specs, g)
    ensures view.Some? ==> BehindOk(h, specs, g, behind)
  {
    hide BehindOk, ViewsOk, BaseView;
    behind := [g];
    if specs[g].file.None? { return None, []; }
    if specs[g].ty.ZipLayer? {
      ArchivesHaveNoBases(h, specs, g);
      return specs[g].file, behind;
    }
    var base: Option<seq<byte>>;
    base, behind := ComposeBase(h, specs, g, views, behinds);
    if base.None? { return None, []; }
    view := h.build(specs[g].file.value, base.value);
  }

  /** The mounts of one surfacing layer, each with the place it takes. */
  method MountAll(h: Host, specs: seq<LayerSpec>, g: nat, layers: seq<Layer>, kind: Kind)
    returns (all: seq<Layer>, places: seq<nat>)
    requires g < |specs| && Surfaces(h, specs, g) && kind == KindOf(h, specs, g)
    ensures all == layers + MountedAs(h, specs, g)
    ensures forall d :: d in places <==> |layers| <= d < |all|
  {
    hide Surfaces, KindOf;
    var ms := Mounts(specs[g]);
    all, places := layers, [];
    for i := 0 to |ms|
      invariant all == layers + MountedAs(h, specs, g)[..i]
      invariant forall d :: d in places <==> |layers| <= d < |all|
    {
      places := places + [|all|];
      all := all + [Layer(kind, ms[i].1, ms[i].0, [])];
    }
    assert MountedAs(h, specs, g)[..|ms|] == MountedAs(h, specs, g);
  }

  ghost predicate SeenOk(h: Host, specs: seq<LayerSpec>, g: nat, chainSeen: set<Path>)
    requires g <= |specs|
  {
    forall t :: t in chainSeen <==> Began(h, specs, g, t)
  }

  lemma SeenNext(h: Host, specs: seq<LayerSpec>, g: nat, chainSeen: set<Path>)
    requires g < |specs| && SeenOk(h, specs, g, chainSeen)
    ensures SeenOk(h, specs, g + 1,
      if InChain(specs, g) && View(h, specs, g).Some? then chainSeen + {specs[g].target} else chainSeen)
  {
    hide View, InChain;
  }

  lemma MountedNext(h: Host, specs: seq<LayerSpec>, g: nat, mountedAs: seq<seq<nat>>, places: seq<nat>)
    requires g < |specs| == |mountedAs| && MountedOk(Origins(h, specs, g), mountedAs)
    requires forall d :: d in places <==> |Origins(h, specs, g)| <= d < |Origins(h, specs, g + 1)|
    ensures MountedOk(Origins(h, specs, g + 1), mountedAs[g := places])
  {
    hide MountedAs, AllMounted;
    var o, p := Origins(h, specs, g + 1), Origins(h, specs, g);
    var r := mountedAs[g := places];
    forall b, i: nat | 0 <= b < |r|
      ensures i in r[b] <==> CameFrom(o, b, i)
    {
      if i < |p| { assert o[i] == p[i]; }
      assert i in mountedAs[b] <==> CameFrom(p, b, i);
    }
  }

  /**
   * Init, from the declared layers to the mounted ones: every archive that can be loaded and is not folded surfaces in
   * order, and each mounted layer is hidden exactly under the places of the surfacing deltas it is a base of.
   */
  method Plan(h: Host, specs: seq<LayerSpec>) returns (layers: seq<Layer>)
    ensures Planned(h, specs, |specs|, layers)
    ensures FannedOut(h, specs, layers, Starts(h, specs, |specs|))
  {
    hide FannedOut, Starts, Planned, MountedOk, ViewsOk, SeenOk, BehindOk, View, Origins, MountedAs, InChain, ChainTop,
      KindOf;
    var tops := GroupChains(specs);
    var views: map<Path, seq<byte>>, behinds: map<Path, seq<nat>> := map[], map[];
    var chainSeen: set<Path> := {};
    var mountedAs: seq<seq<nat>> := seq(|specs|, _ => []);
    layers := [];
    PlanStart(h, specs, mountedAs);
    for g := 0 to |specs|
      invariant |mountedAs| == |specs| && MountedOk(Origins(h, specs, g), mountedAs)
      invariant ViewsOk(h, specs, g, views, behinds) && SeenOk(h, specs, g, chainSeen)
      invariant Planned(h, specs, g, layers)
    {
      var kind := if specs[g].ty.DirLayer? then DirOf(specs[g].tree) else FileOf(specs[g].base, specs[g].file);
      var behind: seq<nat> := [g];
      SeenNext(h, specs, g, chainSeen);
      StepFacts(h, specs, g, chainSeen);
      if !IsByteLayer(specs[g]) {
        ViewsNext(h, specs, g, views, behinds, behind);
      } else {
        var view: Option<seq<byte>>;
        view, behind := LoadView(h, specs, g, views, behinds);
        ViewsNext(h, specs, g, views, behinds, behind);
        if view.None? {
          Skips(h, specs, g, layers, mountedAs);
          continue;
        }
        var inChain := tops[g] != None;
        if inChain { chainSeen := chainSeen + {specs[g].target}; }
        if inChain || specs[g].target !in chainSeen {
          views := views[specs[g].target := view.value];
          behinds := behinds[specs[g].target := behind];
        }
        if inChain && tops[g] != Some(g) {
          Skips(h, specs, g, layers, mountedAs);
          continue;
        }
        var zip := h.index(view.value);
        if zip.None? {
          Skips(h, specs, g, layers, mountedAs);
          continue;
        }
        kind := ZipOf(view.value, zip.value.0, zip.value.1);
      }
      KindIs(h, specs, g, kind);
      ghost var before := layers;
      var places: seq<nat>;
      layers, places := MountAll(h, specs, g, layers, kind);
      PlacesAre(h, specs, g, before, layers);
      MountedNext(h, specs, g, mountedAs, places);
      mountedAs := mountedAs[g := places];
      if specs[g].ty.DeltaLayer? {
        ghost var all := layers;
        BehindBelow(h, specs, g, behind);
        layers := MaskBases(layers, behind, mountedAs, places, Origins(h, specs, g + 1));
        PlanMasks(h, specs, g, before, all, layers, behind, places);
      } else {
        PlanOther(h, specs, g, before, layers);
      }
    }
    PlanFansOut(h, specs, layers);
  }

  lemma PlanStart(h: Host, specs: seq<LayerSpec>, mountedAs: seq<seq<nat>>)
    requires forall b :: 0 <= b < |mountedAs| ==> mountedAs[b] == []
    ensures MountedOk(Origins(h, specs, 0), mountedAs) && Planned(h, specs, 0, [])
    ensures ViewsOk(h, specs, 0, map[], map[]) && SeenOk(h, specs, 0, {})
  {
  }

  /** When layer `g` speaks for its target, in the loop's terms. */
  lemma StepFacts(h: Host, specs: seq<LayerSpec>, g: nat, chainSeen: set<Path>)
    requires g < |specs| && SeenOk(h, specs, g, chainSeen)
    ensures InChain(specs, g) <==> ChainTop(specs, g) != None
    ensures !IsByteLayer(specs[g]) ==> !InChain(specs, g) && View(h, specs, g) == None
    ensures Speaks(h, specs, g) <==> View(h, specs, g).Some? && (InChain(specs, g) || specs[g].target !in chainSeen)
  {
    hide View, Began, BuiltUpon;
    if !IsByteLayer(specs[g]) { OthersHaveNoView(h, specs, g); }
  }

  lemma OthersHaveNoView(h: Host, specs: seq<LayerSpec>, g: nat)
    requires g < |specs| && !IsByteLayer(specs[g])
    ensures View(h, specs, g) == None
  {
  }

  lemma Skips(h: Host, specs: seq<LayerSpec>, g: nat, layers: seq<Layer>, mountedAs: seq<seq<nat>>)
    requires g < |specs| == |mountedAs| && !Surfaces(h, specs, g)
    requires Planned(h, specs, g, layers) && MountedOk(Origins(h, specs, g), mountedAs)
    ensures Planned(h, specs, g + 1, layers) && MountedOk(Origins(h, specs, g + 1), mountedAs)
  {
    hide Surfaces, Planned, MountedOk;
    PlanSkips(h, specs, g, layers);
    assert Origins(h, specs, g + 1) == Origins(h, specs, g);
  }

  lemma KindIs(h: Host, specs: seq<LayerSpec>, g: nat, kind: Kind)
    requires g < |specs| && Surfaces(h, specs, g)
    requires match specs[g].ty
      case DirLayer => kind == DirOf(specs[g].tree)
      case FileLayer => kind == FileOf(specs[g].base, specs[g].file)
      case _ =>
        var z := h.index(View(h, specs, g).value).value;
        kind == ZipOf(View(h, specs, g).value, z.0, z.1)
    ensures kind == KindOf(h, specs, g)
  {
    hide View;
  }

  lemma PlacesAre(h: Host, specs: seq<LayerSpec>, g: nat, layers: seq<Layer>, all: seq<Layer>)
    requires g < |specs| && Planned(h, specs, g, layers) && all == layers + MountedAs(h, specs, g)
    ensures |Origins(h, specs, g)| == |layers| && |Origins(h, specs, g + 1)| == |all|
  {
    hide MountedAs, HiddenUnder;
  }

  lemma BehindBelow(h: Host, specs: seq<LayerSpec>, g: nat, behind: seq<nat>)
    requires g < |specs| && BehindOk(h, specs, g, behind)
    ensures behind != [] && forall x :: x in behind ==> x < |specs|
  {
    hide IsBase;
    forall x | x in behind[1..] ensures x < g { BasesAreBelow(h, specs, g, x); }
    assert behind == [behind[0]] + behind[1..];
  }
}
