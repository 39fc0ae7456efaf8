/** From generation to reading: a delta read back is its target, and so is the top of a chain. */
module RoundTrip {
  import opened Bytes
  import opened Sources
  import opened DeltaFormat
  import opened DeltaMap
  import opened LiteralStore
  import opened DeltaSource
  import opened DeltaCreate
  import opened DeltaGenerate
  import BlockCache

  /**
   * Parse a delta of `target` over a readable base, create it over that base and read any range: that range of the
   * target. `DeltaGenerate.GenerateDelta` writes such a delta whenever its counts fit their fields.
   */
  method ReadBack(z: Codec, base: Source, ghost target: seq<byte>, delta: seq<byte>, n: nat, off: nat) returns (r: Read)
    requires Faithful(base) && Live(base) && |delta| < TWO64
    requires base.size <= |base.bytes| && DeltaFor(z, delta, base.bytes[..base.size], target)
    ensures r == Data(Slice(target, off, n))
  {
    hide Faithful, Live, FileOk, Reconstruct, Cut, IsAssembled, CacheOk, Creatable, Slice;
    BaseIs(base);
    MemSourceIsExact(delta);
    var made := Create(z, MemSource(delta), Plain(base), false);
    if made.Err? {
      assert false;
    }
    OnlyAdd(z, delta, base, made.value);
    r := made.value.Pread(n, off);
  }

  /** The round trip: generate a delta of `target` over a readable base, and read any range of it back. */
  method GenerateAndRead(z: Codec, base: Source, target: seq<byte>, blockSize: u32, n: nat, off: nat) returns (r: Read)
    requires Lossless(z) && Bounded(z) && SizesFit(|target|, blockSize)
    requires Faithful(base) && Live(base)
    ensures r == Data(Slice(target, off, n))
  {
    hide Faithful, Live, CountsFit, FramesFit, RegionOff, DeltaFor, Bounded, Lossless, SizesFit, Slice, ParseBytes, Cut;
    BaseIs(base);
    SizesAreWords(|target|, blockSize);
    var delta, t, lit := GenerateDelta(z, base.bytes[..base.size], target, blockSize);
    r := ReadBack(z, base, target, delta, n, off);
  }

  lemma SizesAreWords(n: nat, blockSize: nat)
    requires SizesFit(n, blockSize)
    ensures n < TWO64
  {
  }

  lemma BaseIs(base: Source)
    requires Live(base)
    ensures base.size <= |base.bytes| && base.size < TWO64
    ensures Cut(base.bytes, 0, base.size) == base.bytes[..base.size]
  {
  }

  lemma OnlyAdd(z: Codec, delta: seq<byte>, base: Source, d: DeltaByteSource)
    requires Live(base) && Live(MemSource(delta)) && IsAssembled(d, z, MemSource(delta), Plain(base))
    ensures AllLive(d.baseSrc, d.addSources)
  {
    hide Live, Flatten, ParseBytes;
  }

  // ---- chains ----

  /** Each file is a well-formed delta over what the files before it reconstruct. */
  ghost predicate FilesOk(z: Codec, files: seq<Source>, base: seq<byte>)
    decreases |files|, 0
  {
    files == [] || (
      var k := |files| - 1;
      FilesOk(z, files[..k], base) && FileOk(z, files[k], |ReconstructAll(z, files[..k], base)|))
  }

  /** The files applied one after the other. */
  ghost function ReconstructAll(z: Codec, files: seq<Source>, base: seq<byte>): seq<byte>
    requires FilesOk(z, files, base)
    decreases |files|, 1
  {
    if files == [] then base else
      var k := |files| - 1;
      Reconstruct(z, files[k], ReconstructAll(z, files[..k], base))
  }

  lemma {:induction false} ChainPrefix(z: Codec, files: seq<Source>, i: nat, base: seq<byte>)
    requires FilesOk(z, files, base) && i <= |files|
    ensures FilesOk(z, files[..i], base)
    decreases |files|
  {
    hide FileOk, Reconstruct;
    if i == |files| {
      assert files[..i] == files;
    } else {
      assert files[..|files| - 1][..i] == files[..i];
      ChainPrefix(z, files[..|files| - 1], i, base);
    }
  }

  lemma ChainNext(z: Codec, files: seq<Source>, i: nat, base: seq<byte>)
    requires FilesOk(z, files, base) && i < |files|
    ensures FilesOk(z, files[..i], base) && FilesOk(z, files[..i + 1], base)
    ensures FileOk(z, files[i], |ReconstructAll(z, files[..i], base)|) && Faithful(files[i])
    ensures ReconstructAll(z, files[..i + 1], base) == Reconstruct(z, files[i], ReconstructAll(z, files[..i], base))
  {
    hide FileOk, Reconstruct;
    ChainPrefix(z, files, i, base);
    ChainPrefix(z, files, i + 1, base);
    assert files[..i + 1][..i] == files[..i];
    OkFileIsFaithful(z, files[i], |ReconstructAll(z, files[..i], base)|);
  }

  lemma OkFileIsFaithful(z: Codec, file: Source, baseLen: nat)
    requires FileOk(z, file, baseLen)
    ensures Faithful(file)
  {
  }

  lemma ChainStart(z: Codec, base: Source)
    requires Faithful(base) && Live(base) && base.size <= |base.bytes|
    ensures FilesOk(z, [], Cut(base.bytes, 0, base.size)) && BaseOk(Plain(base)) && Reads(Plain(base))
    ensures BaseBytes(Plain(base)) == Cut(base.bytes, 0, base.size)
    ensures ReconstructAll(z, [], Cut(base.bytes, 0, base.size)) == Cut(base.bytes, 0, base.size)
  {
    hide Cut;
  }

  lemma AssembledGrows(d: DeltaByteSource, z: Codec, delta: Source, base: BaseRef)
    requires IsAssembled(d, z, delta, base)
    ensures |d.addSources| == |BaseAdds(base)| + 1 && d.z == z
  {
    hide ParseBytes, Flatten;
  }

  /**
   * A chain of delta files over one base is created link by link, and its top serves the fold of their
   * applications.
   */
  method CreateChain(z: Codec, files: seq<Source>, base: Source) returns (top: BaseRef)
    requires Faithful(base) && Live(base) && base.size <= |base.bytes| && |files| <= BlockCache.SOURCES
    requires FilesOk(z, files, Cut(base.bytes, 0, base.size))
    requires forall i :: 0 <= i < |files| ==> Live(files[i])
    ensures files != [] ==> top.Composed? && top.d.Valid()
    ensures files != [] ==> top.d.Contents() == ReconstructAll(z, files, Cut(base.bytes, 0, base.size))
  {
    hide FileOk, Reconstruct, Cut, Faithful, Live, CacheOk, FilesOk, ReconstructAll, StoresOk, WellFlat, LitOf,
      IsAssembled, Creatable;
    top := Plain(base);
    ghost var b := Cut(base.bytes, 0, base.size);
    assert files[..0] == [];
    ChainStart(z, base);
    for i := 0 to |files|
      invariant FilesOk(z, files[..i], b)
      invariant BaseOk(top) && !top.NoBase? && BaseBytes(top) == ReconstructAll(z, files[..i], b)
      invariant i == 0 ==> top == Plain(base)
      invariant i > 0 ==> top.Composed? && top.d.Valid() && top.d.z == z
      invariant |BaseAdds(top)| == i && Reads(top)
    {
      ChainNext(z, files, i, b);
      var made := Create(z, files[i], top, false);
      if made.Err? {
        assert false;
      }
      AssembledGrows(made.value, z, files[i], top);
      top := Composed(made.value);
    }
    assert files[..|files|] == files;
  }
}
