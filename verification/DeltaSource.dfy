/** One .vgdelta's literal store: blocks cut from one stream, each compressed on its own. */
module LiteralStore {
  import opened Bytes
  import opened Sources
  import opened DeltaFormat

  datatype AddSource = AddSource(file: Source, regionOff: nat, blockSize: nat, blocks: seq<BlockRec>)

  /** What block `b` decompresses to; None when its frame cannot be read or is corrupt. */
  function BlockData(z: Codec, a: AddSource, b: nat): (r: Option<seq<byte>>)
    requires b < |a.blocks|
    ensures r.Some? ==> |r.value| == a.blocks[b].uncompLen
  {
    var rec := a.blocks[b];
    var at := Wrap(a.regionOff + rec.compOff);
    if rec.compLen > 0 && at + rec.compLen > |a.file.bytes| then None else
    var comp := if rec.compLen == 0 then [] else a.file.bytes[at..at + rec.compLen];
    var raw := ZDecompress(z, comp, rec.uncompLen);
    if |raw| == rec.uncompLen then Some(raw) else None
  }

  /** Every block can be read; all but the last are full, the last is not empty. */
  ghost predicate StoreOk(z: Codec, a: AddSource) {
    && a.blockSize > 0
    && |a.blocks| < TWO32
    && forall b :: 0 <= b < |a.blocks| ==> BlockOk(z, a, b)
  }

  ghost predicate BlockOk(z: Codec, a: AddSource, b: nat)
    requires b < |a.blocks|
  {
    var d := BlockData(z, a, b);
    && d.Some?
    && 0 < |d.value| <= a.blockSize
    && (b < |a.blocks| - 1 ==> |d.value| == a.blockSize)
  }

  /** The literal stream: the first `n` blocks back to back. */
  ghost function LitUpTo(z: Codec, a: AddSource, n: nat): seq<byte>
    requires StoreOk(z, a) && n <= |a.blocks|
  {
    if n == 0 then [] else assert BlockOk(z, a, n - 1); LitUpTo(z, a, n - 1) + BlockData(z, a, n - 1).value
  }

  ghost function LitOf(z: Codec, a: AddSource): seq<byte>
    requires StoreOk(z, a)
  {
    LitUpTo(z, a, |a.blocks|)
  }

  lemma {:induction false} LitUpToLength(z: Codec, a: AddSource, n: nat)
    requires StoreOk(z, a) && n <= |a.blocks|
    ensures n < |a.blocks| ==> |LitUpTo(z, a, n)| == n * a.blockSize
    ensures n > 0 ==> (n - 1) * a.blockSize < |LitUpTo(z, a, n)| <= n * a.blockSize
  {
    hide BlockData;
    if n > 0 {
      LitUpToLength(z, a, n - 1);
      assert BlockOk(z, a, n - 1);
      assert n * a.blockSize == (n - 1) * a.blockSize + a.blockSize;
    }
  }

  lemma {:induction false} LitUpToPrefix(z: Codec, a: AddSource, m: nat, n: nat)
    requires StoreOk(z, a) && m <= n <= |a.blocks|
    ensures |LitUpTo(z, a, m)| <= |LitUpTo(z, a, n)| && Cut(LitUpTo(z, a, n), 0, |LitUpTo(z, a, m)|) == LitUpTo(z, a, m)
    decreases n
  {
    hide BlockData, Cut;
    if m == n {
      CutAll(LitUpTo(z, a, n));
    } else {
      LitUpToPrefix(z, a, m, n - 1);
      assert BlockOk(z, a, n - 1);
      CutLeft(LitUpTo(z, a, n - 1), BlockData(z, a, n - 1).value, 0, |LitUpTo(z, a, m)|);
    }
  }

  /** Block `b` is the stream from `b * blockSize` on. */
  lemma BlockOfStream(z: Codec, a: AddSource, b: nat)
    requires StoreOk(z, a) && b < |a.blocks|
    ensures BlockOk(z, a, b)
    ensures b * a.blockSize + |BlockData(z, a, b).value| <= |LitOf(z, a)|
    ensures Cut(LitOf(z, a), b * a.blockSize, b * a.blockSize + |BlockData(z, a, b).value|) == BlockData(z, a, b).value
  {
    hide BlockData, Cut;
    assert BlockOk(z, a, b);
    LitUpToLength(z, a, b);
    LitUpToPrefix(z, a, b + 1, |a.blocks|);
    var d, front, upTo := BlockData(z, a, b).value, LitUpTo(z, a, b), LitUpTo(z, a, b + 1);
    assert upTo == front + d;
    CutRight(front, d);
    CutOfCut(LitOf(z, a), 0, |upTo|, |front|, |upTo|);
  }

  /** An offset inside the stream names a block, and a place strictly inside that block. */
  lemma OffsetInBlock(z: Codec, a: AddSource, off: nat)
    requires StoreOk(z, a) && off < |LitOf(z, a)|
    ensures off / a.blockSize < |a.blocks|
    ensures BlockData(z, a, off / a.blockSize).Some?
    ensures off % a.blockSize < |BlockData(z, a, off / a.blockSize).value|
    ensures off == (off / a.blockSize) * a.blockSize + off % a.blockSize
  {
    hide BlockData, Cut;
    var n, bs := |a.blocks|, a.blockSize;
    var b, intra := off / bs, off % bs;
    DivMod(off, bs);
    LitUpToLength(z, a, n);
    if b >= n {
      MulOrder(bs, n, b);
      assert false;
    }
    BlockOfStream(z, a, b);
    if b == n - 1 {
      LitUpToLength(z, a, n - 1);
    }
  }

  lemma DivMod(off: nat, bs: nat)
    requires bs > 0
    ensures off == (off / bs) * bs + off % bs && 0 <= off % bs < bs && off / bs >= 0
  {
  }
}

/** DeltaByteSource: a reconstruction on the fly over a flat segment map. */
module DeltaSource {
  import opened Bytes
  import opened Sources
  import opened DeltaFormat
  import opened DeltaMap
  import BC = BlockCache
  import opened LiteralStore


  /** The base a delta is created over: nothing, a source that is no delta, or another reconstruction. */
  datatype BaseRef = NoBase | Plain(src: Source) | Composed(d: DeltaByteSource)

  ghost predicate StoresOk(z: Codec, adds: seq<AddSource>) {
    forall i :: 0 <= i < |adds| ==> StoreOk(z, adds[i]) && Faithful(adds[i].file)
  }

  ghost function LitsOf(z: Codec, adds: seq<AddSource>): (r: seq<seq<byte>>)
    requires StoresOk(z, adds)
    ensures |r| == |adds|
    ensures forall i :: 0 <= i < |adds| ==> r[i] == LitOf(z, adds[i])
  {
    if adds == [] then [] else
      assert StoreOk(z, adds[|adds| - 1]);
      LitsOf(z, adds[..|adds| - 1]) + [LitOf(z, adds[|adds| - 1])]
  }

  ghost predicate AllLive(base: Source, adds: seq<AddSource>) {
    Live(base) && forall i :: 0 <= i < |adds| ==> Live(adds[i].file)
  }

  /** What the delta files hold, block by block. */
  function StoreAt(z: Codec, adds: seq<AddSource>, a: nat, b: nat): Option<seq<byte>> {
    if a < |adds| && b < |adds[a].blocks| then BlockData(z, adds[a], b) else None
  }

  function StoreOf(z: Codec, adds: seq<AddSource>): BC.Store {
    (a: nat, b: nat) => StoreAt(z, adds, a, b)
  }

  ghost predicate CacheOk(c: BC.Cache, z: Codec, adds: seq<AddSource>) {
    BC.Tidy(c) && BC.Agrees(c, StoreOf(z, adds))
  }

  /** A result of 64-bit reads over the declared bytes of `base` and the literal stores. */
  class DeltaByteSource {
    const z: Codec
    const baseSrc: Source
    const addSources: seq<AddSource>
    const segs: seq<FlatSeg>
    const targetSize: u64
    var cache: BC.Cache

    constructor (z: Codec, baseSrc: Source, addSources: seq<AddSource>, segs: seq<FlatSeg>, targetSize: u64)
      ensures this.z == z && this.baseSrc == baseSrc && this.addSources == addSources
      ensures this.segs == segs && this.targetSize == targetSize
      ensures CacheOk(cache, z, addSources)
    {
      this.z, this.baseSrc, this.addSources, this.segs, this.targetSize := z, baseSrc, addSources, segs, targetSize;
      cache := BC.Cache(map[], []);
    }

    /** The map covers the target and everything it refers to exists. */
    ghost predicate WellFormed() {
      && Faithful(baseSrc) && baseSrc.size <= |baseSrc.bytes| && baseSrc.size < TWO64
      && |addSources| <= BC.SOURCES
      && StoresOk(z, addSources)
      && (forall i :: 0 <= i < |addSources| ==> |LitOf(z, addSources[i])| < TWO64)
      && WellFlat(segs, baseSrc.size, LitsOf(z, addSources), targetSize)
    }

    ghost predicate Valid()
      reads this
    {
      WellFormed() && CacheOk(cache, z, addSources)
    }

    ghost function Base(): (r: seq<byte>)
      requires baseSrc.size <= |baseSrc.bytes|
      ensures |r| == baseSrc.size
    {
      Cut(baseSrc.bytes, 0, baseSrc.size)
    }

    /** The bytes of the target. */
    ghost function Contents(): (r: seq<byte>)
      requires WellFormed()
      ensures |r| == targetSize
    {
      FlatApply(segs, Base(), LitsOf(z, addSources))
    }

    /** One decompressed block, from the cache or decompressed and offered to it. */
    method GetAddBlock(addSrc: nat, blk: nat) returns (r: Option<seq<byte>>)
      requires addSrc < |addSources| <= BC.SOURCES && blk < |addSources[addSrc].blocks| < TWO32
      requires Faithful(addSources[addSrc].file)
      requires CacheOk(cache, z, addSources)
      modifies `cache
      ensures CacheOk(cache, z, addSources)
      ensures r.Some? ==> r == BlockData(z, addSources[addSrc], blk)
      ensures Live(addSources[addSrc].file) ==> r == BlockData(z, addSources[addSrc], blk)
    {
      var key := BC.Key(addSrc, blk);
      assert BC.Addressable(addSrc, blk);
      if key in cache.blocks {
        assert StoreOf(z, addSources)(addSrc, blk) == Some(cache.blocks[key]);
        return Some(cache.blocks[key]);
      }
      var a := addSources[addSrc];
      var rec := a.blocks[blk];
      var comp: seq<byte> := [];
      if rec.compLen > 0 {
        var ok;
        ok, comp := PreadAll(a.file, rec.compLen, Wrap(a.regionOff + rec.compOff));
        if !ok {
          return None;
        }
      }
      var raw := ZDecompress(z, comp, rec.uncompLen);
      if |raw| != rec.uncompLen {
        return None;
      }
      CacheTakes(cache, z, addSources, addSrc, blk, raw);
      cache := BC.Emplace(cache, key, raw);
      return Some(raw);
    }

    /**
     * readAdd: `n` literal bytes at `addOff`. Every turn of the loop moves on, because inside the stream the offset
     * lies strictly inside a block.
     */
    method ReadAdd(addSrc: nat, n: nat, addOff: nat) returns (r: Read)
      requires addSrc < |addSources| <= BC.SOURCES && StoresOk(z, addSources)
      requires addOff + n <= |LitOf(z, addSources[addSrc])|
      requires CacheOk(cache, z, addSources)
      modifies `cache
      ensures CacheOk(cache, z, addSources)
      ensures r.Data? ==> r.bytes == Cut(LitOf(z, addSources[addSrc]), addOff, addOff + n)
      ensures Live(addSources[addSrc].file) ==> r.Data?
    {
      hide BlockData, LitOf, Cut, CacheOk, Faithful, Live, StoreOk;
      var a := addSources[addSrc];
      var buf: seq<byte> := [];
      StoreFacts(z, a);
      CutNone(LitOf(z, a), addOff);
      while |buf| < n
        invariant |buf| <= n && buf == Cut(LitOf(z, a), addOff, addOff + |buf|)
        invariant CacheOk(cache, z, addSources)
        decreases n - |buf|
      {
        var at := addOff + |buf|;
        OffsetInBlock(z, a, at);
        var b, intra := at / a.blockSize, at % a.blockSize;
        if b >= |a.blocks| {
          assert false;   // -EIO: past the last block
        }
        var raw := GetAddBlock(addSrc, b);
        if raw.None? || intra > |raw.value| {
          return Errno(EIO);
        }
        var avail := |raw.value| - intra;
        var take := Min(n - |buf|, avail);
        TurnAdds(z, a, buf, addOff, b, intra, take);
        buf := buf + raw.value[intra..intra + take];
      }
      r := Data(buf);
    }

    /** A COPY run: the base is asked again for what it did not deliver. */
    method ReadCopy(n: nat, srcOff: nat) returns (r: Read)
      requires Faithful(baseSrc) && srcOff + n <= baseSrc.size <= |baseSrc.bytes|
      ensures r.Data? ==> r.bytes == Cut(Base(), srcOff, srcOff + n)
      ensures Live(baseSrc) ==> r.Data?
    {
      var buf: seq<byte> := [];
      while |buf| < n
        invariant |buf| <= n && buf == Cut(Base(), srcOff, srcOff + |buf|)
        decreases n - |buf|
      {
        var got := baseSrc.read(n - |buf|, srcOff + |buf|);
        if got.Errno? {
          return got;
        }
        if got.bytes == [] {
          return Errno(EIO);
        }
        assert got.bytes <= Slice(baseSrc.bytes, srcOff + |buf|, n - |buf|);
        GotPiece(baseSrc.bytes, baseSrc.size, srcOff + |buf|, n - |buf|, got.bytes);
        CutJoin(Base(), srcOff, srcOff + |buf|, srcOff + |buf| + |got.bytes|);
        buf := buf + got.bytes;
      }
      r := Data(buf);
    }

    /** One segment's share of a read. */
    method ReadSeg(i: nat, d: nat, n: nat) returns (r: Read)
      requires Valid() && i < |segs| && d + n <= segs[i].len && n > 0
      modifies `cache
      ensures Valid()
      ensures segs[i].targetOff + d + n <= targetSize
      ensures r.Data? ==> r.bytes == Cut(Contents(), segs[i].targetOff + d, segs[i].targetOff + d + n)
      ensures AllLive(baseSrc, addSources) ==> r.Data?
    {
      hide Cut, FlatApply, Faithful, Live, LitOf, CacheOk, Placed, StoreOk;
      var s := segs[i];
      assert FlatOk(s, baseSrc.size, LitsOf(z, addSources));
      FlatPiece(segs, i, Base(), LitsOf(z, addSources), d, n);
      if s.kind == KIND_COPY {
        CutOfCut(Base(), s.srcOff, s.srcOff + s.len, d, d + n);
        r := ReadCopy(n, s.srcOff + d);
      } else {
        CutOfCut(LitOf(z, addSources[s.addSrc]), s.srcOff, s.srcOff + s.len, d, d + n);
        r := ReadAdd(s.addSrc, n, s.srcOff + d);
      }
    }

    /**
     * pread: whatever is returned is the requested range of the target, clipped at its end; with all sources readable
     * it is returned in full. The gap and -EIO branches are never taken.
     */
    method Pread(n: nat, off: nat) returns (r: Read)
      requires Valid()
      modifies `cache
      ensures Valid()
      ensures r.Data? ==> r.bytes == Slice(Contents(), off, n)
      ensures AllLive(baseSrc, addSources) ==> r == MemSource(Contents()).read(n, off)
    {
      hide Cut, FlatApply, Faithful, Live, LitOf, CacheOk, FlatsOk, StoresOk, FlatLen, AllLive, WellFormed;
      MapFacts();
      if off >= targetSize || segs == [] {
        return Data([]);
      }
      var want := Min(n, targetSize - off);
      SliceIsCut(Contents(), off, n);
      var idx := SegAt(segs, off);
      SegAtCovers(segs, off);
      var buf: seq<byte> := [];
      CutNone(Contents(), off);
      while |buf| < want && idx < |segs|
        invariant Valid() && idx <= |segs| && |buf| <= want
        invariant buf == Cut(Contents(), off, off + |buf|)
        invariant |buf| < want ==>
          idx < |segs| && segs[idx].targetOff <= off + |buf| < segs[idx].targetOff + segs[idx].len
        decreases |segs| - idx
      {
        var s := segs[idx];
        var pos := off + |buf|;
        var segEnd := s.targetOff + s.len;
        if pos < s.targetOff || pos >= segEnd {
          assert false;   // -EIO: gap / ordering guard
        }
        var chunk := Min(segEnd, off + want) - pos;
        var got := ReadSeg(idx, pos - s.targetOff, chunk);
        if got.Errno? {
          return got;
        }
        CutJoin(Contents(), off, pos, pos + chunk);
        buf := buf + got.bytes;
        NextCovers(idx);
        idx := idx + 1;
      }
      r := Data(buf);
    }

    lemma MapFacts()
      requires WellFormed()
      ensures Placed(segs) && FlatLen(segs) == targetSize
      ensures segs == [] ==> targetSize == 0
    {
    }

    lemma NextCovers(idx: nat)
      requires WellFormed() && idx < |segs|
      ensures idx + 1 < |segs| ==>
        segs[idx + 1].targetOff == segs[idx].targetOff + segs[idx].len && segs[idx + 1].len > 0
      ensures idx + 1 == |segs| ==> segs[idx].targetOff + segs[idx].len == targetSize
    {
      PlacedLen(segs);
      if idx + 1 < |segs| {
        assert FlatOk(segs[idx + 1], baseSrc.size, LitsOf(z, addSources));
      }
    }
  }

  lemma CacheTakes(c: BC.Cache, z: Codec, adds: seq<AddSource>, a: nat, b: nat, data: seq<byte>)
    requires CacheOk(c, z, adds) && BC.Addressable(a, b) && StoreAt(z, adds, a, b) == Some(data)
    ensures CacheOk(BC.Emplace(c, BC.Key(a, b), data), z, adds)
  {
    BC.EmplaceTidy(c, BC.Key(a, b), data);
    BC.EmplaceAgrees(c, a, b, data, StoreOf(z, adds));
  }

  /** A piece of a block is the same piece of the stream. */
  lemma StreamPiece(z: Codec, a: AddSource, b: nat, intra: nat, take: nat)
    requires StoreOk(z, a) && b < |a.blocks| && BlockData(z, a, b).Some? && intra + take <= |BlockData(z, a, b).value|
    ensures b * a.blockSize + intra + take <= |LitOf(z, a)|
    ensures Cut(LitOf(z, a), b * a.blockSize + intra, b * a.blockSize + intra + take)
         == BlockData(z, a, b).value[intra..intra + take]
  {
    hide BlockData, LitOf, StoreOk;
    BlockOfStream(z, a, b);
    var d, at := BlockData(z, a, b).value, b * a.blockSize;
    CutOfCut(LitOf(z, a), at, at + |d|, intra, intra + take);
    CutPlus(LitOf(z, a), at, intra, take);
  }

  lemma StoreFacts(z: Codec, a: AddSource)
    requires StoreOk(z, a)
    ensures a.blockSize > 0 && |a.blocks| < TWO32
  {
  }

  /** One turn of `readAdd` continues the stream. */
  lemma TurnAdds(z: Codec, a: AddSource, buf: seq<byte>, addOff: nat, b: nat, intra: nat, take: nat)
    requires StoreOk(z, a) && b < |a.blocks| && BlockData(z, a, b).Some? && intra + take <= |BlockData(z, a, b).value|
    requires addOff + |buf| == b * a.blockSize + intra <= |LitOf(z, a)|
    requires buf == Cut(LitOf(z, a), addOff, addOff + |buf|)
    ensures addOff + |buf| + take <= |LitOf(z, a)|
    ensures buf + BlockData(z, a, b).value[intra..intra + take] == Cut(LitOf(z, a), addOff, addOff + |buf| + take)
  {
    hide BlockData, LitOf, StoreOk, Cut;
    var at := addOff + |buf|;
    StreamPiece(z, a, b, intra, take);
    CutJoin(LitOf(z, a), addOff, at, at + take);
  }

  lemma GotPiece(bytes: seq<byte>, size: nat, at: nat, n: nat, got: seq<byte>)
    requires got <= Slice(bytes, at, n) && at + n <= size <= |bytes|
    ensures |got| <= n && got == Cut(Cut(bytes, 0, size), at, at + |got|)
  {
    hide Cut;
    SliceIsCut(bytes, at, n);
    GotPrefix(bytes, at, n, got);
    CutOfCut(bytes, 0, size, at, at + |got|);
  }

  lemma GotPrefix(bytes: seq<byte>, at: nat, n: nat, got: seq<byte>)
    requires at + n <= |bytes| && got <= Slice(bytes, at, n)
    ensures |got| <= n && got == Cut(bytes, at, at + |got|)
  {
  }

  lemma SliceIsCut<T>(s: seq<T>, off: nat, n: nat)
    requires off <= |s|
    ensures Slice(s, off, n) == Cut(s, off, off + Min(n, |s| - off))
  {
  }
}
