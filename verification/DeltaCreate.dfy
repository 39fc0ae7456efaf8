/** DeltaByteSource::Create: a delta over a base, flattened when the base is itself a delta. */
module DeltaCreate {
  import opened Bytes
  import opened Sources
  import opened DeltaFormat
  import opened DeltaParse
  import opened DeltaMap
  import opened DeltaCompose
  import opened LiteralStore
  import opened DeltaSource
  import BlockCache

  /** `done` in front of whatever a cut still has to produce. */
  function Prepend(done: seq<FlatSeg>, r: Result<seq<FlatSeg>, string>): Result<seq<FlatSeg>, string> {
    if r.Err? then r else Ok(done + r.value)
  }

  lemma PrependNothing(r: Result<seq<FlatSeg>, string>)
    ensures Prepend([], r) == r
  {
    if r.Ok? { assert [] + r.value == r.value; }
  }

  lemma PrependMore(a: seq<FlatSeg>, s: FlatSeg, r: Result<seq<FlatSeg>, string>)
    ensures Prepend(a, Prepend([s], r)) == Prepend(a + [s], r)
  {
    if r.Ok? { Assoc(a, [s], r.value); }
  }

  /** The cutting loop for one COPY range. */
  method CutCopy(b: seq<FlatSeg>, m0: u64, rem0: u64) returns (r: Result<seq<FlatSeg>, string>)
    ensures r == ComposeCopy(b, SegAt(b, m0), m0, rem0)
  {
    hide Wrap, SegAt;
    var m: u64, rem: u64, bi := m0, rem0, SegAt(b, m0);
    var done: seq<FlatSeg> := [];
    PrependNothing(ComposeCopy(b, bi, m, rem));
    while rem > 0 && bi < |b|
      invariant Prepend(done, ComposeCopy(b, bi, m, rem)) == ComposeCopy(b, SegAt(b, m0), m0, rem0)
      decreases |b| - bi
    {
      var bs := b[bi];
      var bsEnd := Wrap(bs.targetOff + bs.len);
      if m < bs.targetOff || m >= bsEnd {
        return Err("vgdelta: compose gap");
      }
      var take: u64 := Wrap(Min(bsEnd, Wrap(m + rem)) - m);
      var piece := FlatSeg(0, take, Wrap(bs.srcOff + (m - bs.targetOff)), bs.addSrc, bs.kind);
      PrependMore(done, piece, ComposeCopy(b, bi + 1, Wrap(m + take), Wrap(rem - take)));
      done := done + [piece];
      m, rem, bi := Wrap(m + take), Wrap(rem - take), bi + 1;
    }
    if rem > 0 {
      return Err("vgdelta: compose out of range");
    }
    assert done + [] == done;
    r := Ok(done);
  }

  /** Rewriting every segment through the base's flat map. */
  method ComposeAll(segs: seq<RawSeg>, b: seq<FlatSeg>, thisAdd: nat) returns (r: Result<seq<FlatSeg>, string>)
    ensures r == Compose(segs, b, thisAdd)
  {
    hide ComposeCopy, SegAt;
    var done: seq<FlatSeg> := [];
    for i := 0 to |segs|
      invariant Compose(segs[..i], b, thisAdd) == Ok(done)
    {
      var s := segs[i];
      assert segs[..i + 1][..i] == segs[..i];
      if s.kind == KIND_ADD {
        done := done + [FlatSeg(0, s.len, s.srcOff, thisAdd, KIND_ADD)];
      } else {
        var more := CutCopy(b, s.srcOff, s.len);
        if more.Err? {
          ComposeErrs(segs, i, b, thisAdd);
          return more;
        }
        done := done + more.value;
      }
    }
    assert segs[..|segs|] == segs;
    r := Ok(done);
  }

  /** The first segment that cannot be cut decides the error. */
  lemma {:induction false} ComposeErrs(segs: seq<RawSeg>, i: nat, b: seq<FlatSeg>, thisAdd: nat)
    requires i < |segs| && Compose(segs[..i], b, thisAdd).Ok? && ComposeSeg(segs[i], b, thisAdd).Err?
    ensures Compose(segs, b, thisAdd) == ComposeSeg(segs[i], b, thisAdd)
    decreases |segs|
  {
    hide ComposeSeg;
    var k := |segs| - 1;
    if i < k {
      assert segs[..k][..i] == segs[..i];
      ComposeErrs(segs[..k], i, b, thisAdd);
    }
  }

  method DirectAll(segs: seq<RawSeg>) returns (r: seq<FlatSeg>)
    ensures r == Direct(segs)
  {
    r := [];
    for i := 0 to |segs|
      invariant r == Direct(segs[..i])
    {
      assert segs[..i + 1][..i] == segs[..i];
      r := r + [FlatSeg(0, segs[i].len, segs[i].srcOff, 0, segs[i].kind)];
    }
    assert segs[..|segs|] == segs;
  }

  /** The final pass that gives every segment its running target offset. */
  method PlaceAll(segs: seq<FlatSeg>) returns (r: seq<FlatSeg>, t: u64)
    ensures r == Place(segs) && t == Wrap(FlatLen(segs))
  {
    r, t := [], 0;
    for i := 0 to |segs|
      invariant r == Place(segs[..i]) && t == Wrap(FlatLen(segs[..i]))
    {
      assert segs[..i + 1][..i] == segs[..i];
      r := r + [segs[i].(targetOff := t)];
      t := Wrap(t + segs[i].len);
    }
    assert segs[..|segs|] == segs;
  }

  function AddSourceOf(delta: Source, t: Tables): AddSource {
    AddSource(delta, t.regionOff, t.blockSize, t.blocks)
  }

  function BaseSize(base: BaseRef): nat
    requires !base.NoBase?
  {
    if base.Plain? then base.src.size else base.d.targetSize
  }

  function BaseMap(base: BaseRef): Option<seq<FlatSeg>> {
    if base.Composed? then Some(base.d.segs) else None
  }

  function BaseAdds(base: BaseRef): seq<AddSource> {
    if base.Composed? then base.d.addSources else []
  }

  function Ultimate(base: BaseRef): Source
    requires !base.NoBase?
  {
    if base.Plain? then base.src else base.d.baseSrc
  }

  ghost predicate BaseOk(base: BaseRef) {
    && (base.Plain? ==> Faithful(base.src) && base.src.size <= |base.src.bytes| && base.src.size < TWO64)
    && (base.Composed? ==> base.d.WellFormed())
  }

  ghost function BaseBytes(base: BaseRef): (r: seq<byte>)
    requires BaseOk(base) && !base.NoBase?
    ensures |r| == BaseSize(base)
  {
    if base.Plain? then Cut(base.src.bytes, 0, base.src.size) else base.d.Contents()
  }

  /** The authoring check of a plain base against the header's hash. */
  ghost predicate HashOk(z: Codec, t: Tables, base: BaseRef, verifyBase: bool) {
    verifyBase && base.Plain? ==> t.baseSize <= |base.src.bytes| && z.hash(base.src.bytes[..t.baseSize]) == t.baseHash
  }

  /** Everything Create checks, on the bytes of the delta. */
  ghost predicate Creatable(z: Codec, f: seq<byte>, base: BaseRef, verifyBase: bool) {
    && ParseBytes(z, f).Ok?
    && !base.NoBase?
    && var t := ParseBytes(z, f).value;
    && BaseSize(base) == t.baseSize
    && HashOk(z, t, base, verifyBase)
    && Flatten(t, BaseMap(base), |BaseAdds(base)|).Ok?
  }

  /** What a delta file has to be to reconstruct something over `baseLen` bytes. */
  ghost predicate FileOk(z: Codec, delta: Source, baseLen: nat) {
    && Faithful(delta)
    && ParseBytes(z, delta.bytes).Ok?
    && var t := ParseBytes(z, delta.bytes).value;
    && t.baseSize == baseLen
    && StoreOk(z, AddSourceOf(delta, t))
    && |LitOf(z, AddSourceOf(delta, t))| < TWO64
    && DeltaOk(t, baseLen, |LitOf(z, AddSourceOf(delta, t))|)
  }

  /** The target a well-formed delta file describes over `base`. */
  ghost function Reconstruct(z: Codec, delta: Source, base: seq<byte>): seq<byte>
    requires FileOk(z, delta, |base|)
  {
    var t := ParseBytes(z, delta.bytes).value;
    Apply(t.segs, base, LitOf(z, AddSourceOf(delta, t)))
  }

  lemma LitsOfSnoc(z: Codec, adds: seq<AddSource>, a: AddSource)
    requires StoresOk(z, adds) && StoreOk(z, a) && Faithful(a.file)
    ensures StoresOk(z, adds + [a]) && LitsOf(z, adds + [a]) == LitsOf(z, adds) + [LitOf(z, a)]
  {
    assert (adds + [a])[..|adds|] == adds;
  }

  lemma NoAdds(z: Codec, a: AddSource)
    requires StoreOk(z, a) && Faithful(a.file)
    ensures StoresOk(z, [] + [a]) && LitsOf(z, [] + [a]) == [LitOf(z, a)]
  {
    LitsOfSnoc(z, [], a);
  }

  lemma OverFlat(z: Codec, t: Tables, a: AddSource, d: DeltaByteSource)
    requires d.WellFormed() && d.z == z && StoreOk(z, a) && Faithful(a.file) && |LitOf(z, a)| < TWO64
    requires DeltaOk(t, d.targetSize, |LitOf(z, a)|)
    ensures Flatten(t, Some(d.segs), |d.addSources|).Ok?
    ensures StoresOk(z, d.addSources + [a])
    ensures forall i :: 0 <= i < |d.addSources + [a]| ==> |LitOf(z, (d.addSources + [a])[i])| < TWO64
    ensures var r, lits := Flatten(t, Some(d.segs), |d.addSources|).value, LitsOf(z, d.addSources + [a]);
      && WellFlat(r, d.baseSrc.size, lits, t.targetSize)
      && FlatApply(r, d.Base(), lits) == Apply(t.segs, d.Contents(), LitOf(z, a))
  {
    hide Flatten, FlatApply, Apply, DeltaOk, StoreOk, LitOf, FlatsOk, Placed, Cut, Faithful, FlatLen;
    LitsOfSnoc(z, d.addSources, a);
    FlattenOverMeans(t, d.segs, d.Base(), LitsOf(z, d.addSources), LitOf(z, a));
  }

  /** A well-formed delta over a well-formed base. */
  ghost predicate Fitting(z: Codec, delta: Source, base: BaseRef) {
    && !base.NoBase? && BaseOk(base) && (base.Composed? ==> base.d.z == z)
    && FileOk(z, delta, BaseSize(base)) && |BaseAdds(base)| < BlockCache.SOURCES
  }

  lemma FittingFlattens(z: Codec, delta: Source, base: BaseRef)
    requires Fitting(z, delta, base)
    ensures ParseBytes(z, delta.bytes).Ok?
    ensures var t := ParseBytes(z, delta.bytes).value;
      var a := AddSourceOf(delta, t);
      var adds := BaseAdds(base) + [a];
      var flat := Flatten(t, BaseMap(base), |BaseAdds(base)|);
      && StoreOk(z, a) && StoresOk(z, adds) && flat.Ok?
      && (forall i :: 0 <= i < |adds| ==> |LitOf(z, adds[i])| < TWO64)
      && WellFlat(flat.value, Ultimate(base).size, LitsOf(z, adds), t.targetSize)
      && Ultimate(base).size <= |Ultimate(base).bytes|
      && FlatApply(flat.value, Cut(Ultimate(base).bytes, 0, Ultimate(base).size), LitsOf(z, adds))
         == Reconstruct(z, delta, BaseBytes(base))
  {
    hide Flatten, FlatApply, Apply, DeltaOk, StoreOk, LitOf, WellFlat, ParseBytes, Cut, Faithful;
    var t := ParseBytes(z, delta.bytes).value;
    var a := AddSourceOf(delta, t);
    if base.Plain? {
      FlattenDirectMeans(t, BaseBytes(base), LitOf(z, a));
      NoAdds(z, a);
      assert [] + [a] == [a];
    } else {
      OverFlat(z, t, a, base.d);
    }
  }

  lemma FittingIsCreatable(z: Codec, delta: Source, base: BaseRef)
    requires Fitting(z, delta, base)
    ensures Creatable(z, delta.bytes, base, false)
  {
    hide Flatten, FlatApply, DeltaOk, StoreOk, StoresOk, LitOf, WellFlat, ParseBytes, Cut, Faithful, BaseBytes,
      Reconstruct;
    FittingFlattens(z, delta, base);
  }

  lemma CreatedMeans(z: Codec, delta: Source, base: BaseRef, d: DeltaByteSource)
    requires Fitting(z, delta, base) && IsAssembled(d, z, delta, base)
    ensures d.WellFormed() && d.Contents() == Reconstruct(z, delta, BaseBytes(base))
  {
    hide Flatten, FlatApply, DeltaOk, StoreOk, StoresOk, LitOf, WellFlat, ParseBytes, Cut, Faithful, BaseBytes,
      Reconstruct;
    FittingFlattens(z, delta, base);
  }

  /** The parts of a created source: the parsed delta, flattened over the base's map, over the base's own base. */
  ghost predicate IsAssembled(d: DeltaByteSource, z: Codec, delta: Source, base: BaseRef) {
    && ParseBytes(z, delta.bytes).Ok? && !base.NoBase?
    && var t := ParseBytes(z, delta.bytes).value;
    && d.z == z && d.targetSize == t.targetSize
    && d.baseSrc == Ultimate(base) && d.addSources == BaseAdds(base) + [AddSourceOf(delta, t)]
    && Flatten(t, BaseMap(base), |BaseAdds(base)|) == Ok(d.segs)
  }

  ghost predicate Reads(base: BaseRef) {
    base.Plain? ==> Live(base.src)
  }

  /**
   * What is created is the flattening of the parsed delta over the base's map; with readable inputs it is created
   * exactly when every check passes.
   */
  method Create(z: Codec, delta: Source, base: BaseRef, verifyBase: bool) returns (r: Result<DeltaByteSource, string>)
    requires Faithful(delta) && (base.Plain? ==> Faithful(base.src))
    ensures r.Ok? ==> Creatable(z, delta.bytes, base, verifyBase)
    ensures Live(delta) && Reads(base) ==> (r.Ok? <==> Creatable(z, delta.bytes, base, verifyBase))
    ensures r.Ok? ==>
      fresh(r.value) && IsAssembled(r.value, z, delta, base) && CacheOk(r.value.cache, z, r.value.addSources)
    ensures Live(delta) && Reads(base) && !verifyBase && Fitting(z, delta, base) ==>
      r.Ok? && r.value.Valid() && r.value.Contents() == Reconstruct(z, delta, BaseBytes(base))
  {
    hide Fitting, Reconstruct, StoresOk, WellFlat, LitOf, Flatten, Cut, HashOk;
    r := Assemble(z, delta, base, verifyBase);
    if !verifyBase && Fitting(z, delta, base) {
      FittingIsCreatable(z, delta, base);
      if r.Ok? {
        CreatedMeans(z, delta, base, r.value);
      }
    }
  }

  /** The checks and the assembly, step by step. */
  method Assemble(z: Codec, delta: Source, base: BaseRef, verifyBase: bool) returns (r: Result<DeltaByteSource, string>)
    requires Faithful(delta) && (base.Plain? ==> Faithful(base.src))
    ensures r.Ok? ==> Creatable(z, delta.bytes, base, verifyBase)
    ensures Live(delta) && Reads(base) ==> (r.Ok? <==> Creatable(z, delta.bytes, base, verifyBase))
    ensures r.Ok? ==>
      fresh(r.value) && IsAssembled(r.value, z, delta, base) && CacheOk(r.value.cache, z, r.value.addSources)
  {
    hide ParseBytes, Compose, Direct, Place, FlatLen, Faithful, Live, CacheOk;
    var parsed := ParseDelta(z, delta);
    if parsed.Err? {
      return Err(parsed.error);
    }
    var t := parsed.value;
    if base.NoBase? {
      return Err("vgdelta: null base");
    }
    if BaseSize(base) != t.baseSize {
      return Err("vgdelta: base size mismatch");
    }
    var segs: seq<FlatSeg>;
    if base.Composed? {
      var cut := ComposeAll(t.segs, base.d.segs, |base.d.addSources|);
      if cut.Err? {
        return Err(cut.error);
      }
      segs := cut.value;
    } else {
      if verifyBase {
        var ok, b := PreadAll(base.src, t.baseSize, 0);
        PrefixRead(base.src, t.baseSize, ok, b);
        if !ok || z.hash(b) != t.baseHash {
          return Err("vgdelta: base hash mismatch");
        }
      }
      segs := DirectAll(t.segs);
    }
    var placed, total := PlaceAll(segs);
    if total != t.targetSize {
      return Err("vgdelta: flat segments do not cover target");
    }
    var d := new DeltaByteSource(z, Ultimate(base), BaseAdds(base) + [AddSourceOf(delta, t)], placed, t.targetSize);
    r := Ok(d);
  }

  lemma PrefixRead(s: Source, n: nat, ok: bool, b: seq<byte>)
    requires ok ==> |b| == n && (n == 0 || (0 + n <= |s.bytes| && b == s.bytes[0..0 + n]))
    requires Live(s) ==> (ok <==> n == 0 || 0 + n <= |s.bytes|)
    ensures ok ==> n <= |s.bytes| && b == s.bytes[..n]
    ensures Live(s) ==> (ok <==> n <= |s.bytes|)
  {
  }

}
