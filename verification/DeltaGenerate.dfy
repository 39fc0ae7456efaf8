/** GenerateDelta: cutting the literal stream into blocks and writing the file. */
module DeltaGenerate {
  import opened Bytes
  import opened Sources
  import opened DeltaFormat
  import opened DeltaMap
  import opened LiteralStore
  import opened DeltaCreate
  import opened Matcher

  // ---- literal blocks ----

  /** Block `b` of the literal stream: full, except the last. */
  function Piece(lit: seq<byte>, bs: nat, b: nat): (r: seq<byte>)
    requires b * bs < |lit|
    ensures |r| == Min(bs, |lit| - b * bs)
  {
    Cut(lit, b * bs, b * bs + Min(bs, |lit| - b * bs))
  }

  /** The record describes exactly the frame stored for `piece`. */
  ghost predicate Frame(z: Codec, rec: BlockRec, region: seq<byte>, piece: seq<byte>) {
    && rec.compLen == |z.compress(piece)| && rec.uncompLen == |piece|
    && rec.compOff + rec.compLen <= |region|
    && Cut(region, rec.compOff, rec.compOff + rec.compLen) == z.compress(piece)
  }

  ghost predicate Framed(z: Codec, lit: seq<byte>, bs: nat, blocks: seq<BlockRec>, region: seq<byte>) {
    forall b :: 0 <= b < |blocks| ==> b * bs < |lit| && Frame(z, blocks[b], region, Piece(lit, bs, b))
  }

  /** Every compressed block's length fits its 32-bit field. */
  ghost predicate FramesFit(z: Codec, lit: seq<byte>, bs: nat) {
    forall b: nat :: b * bs < |lit| ==> |z.compress(Piece(lit, bs, b))| < TWO32
  }

  lemma FrameGrows(z: Codec, rec: BlockRec, region: seq<byte>, more: seq<byte>, piece: seq<byte>)
    requires Frame(z, rec, region, piece)
    ensures Frame(z, rec, region + more, piece)
  {
    hide Cut;
    CutLeft(region, more, rec.compOff, rec.compOff + rec.compLen);
  }

  lemma FramedStep(z: Codec, lit: seq<byte>, bs: nat, blocks: seq<BlockRec>, region: seq<byte>, rec: BlockRec,
                   c: seq<byte>)
    requires Framed(z, lit, bs, blocks, region) && |blocks| * bs < |lit|
    requires c == z.compress(Piece(lit, bs, |blocks|)) && |region| < TWO64 && |c| < TWO32
    requires rec.compOff == |region| && rec.compLen == |c| && rec.uncompLen == |Piece(lit, bs, |blocks|)|
    ensures Framed(z, lit, bs, blocks + [rec], region + c)
  {
    hide Piece;
    var blocks', region' := blocks + [rec], region + c;
    forall b | 0 <= b < |blocks'|
      ensures b * bs < |lit| && Frame(z, blocks'[b], region', Piece(lit, bs, b))
    {
      if b < |blocks| {
        FrameGrows(z, blocks[b], region, c, Piece(lit, bs, b));
      } else {
        CutRight(region, c);
      }
    }
  }

  /** The literal stream is read back block by block, each compressed on its own. */
  method CutBlocks(z: Codec, lit: seq<byte>, bs: u32) returns (blocks: seq<BlockRec>, region: seq<byte>)
    requires bs > 0 && |lit| < TWO64
    ensures |blocks| <= |lit| / bs + 1
    ensures FramesFit(z, lit, bs) ==> |region| <= |blocks| * TWO32
    ensures FramesFit(z, lit, bs) && |region| < TWO64 ==> Framed(z, lit, bs, blocks, region) && |blocks| * bs >= |lit|
  {
    hide Frame, Cut, Framed, FramesFit, Piece, Counted;
    blocks, region := [], [];
    var o := 0;
    FramedNothing(z, lit, bs);
    NothingCounted(bs, |lit|);
    while o < |lit|
      invariant Counted(|blocks|, bs, |lit|, o)
      invariant FramesFit(z, lit, bs) ==> |region| <= |blocks| * TWO32
      invariant FramesFit(z, lit, bs) && |region| < TWO64 ==> Framed(z, lit, bs, blocks, region)
      decreases |lit| - o
    {
      CountedNext(|blocks|, bs, |lit|, o);
      var ul := Min(bs, |lit| - o);
      var c := z.compress(lit[o..o + ul]);
      PieceIs(lit, bs, |blocks|);
      var rec := BlockRec(Wrap(|region|), |c| % TWO32, ul);
      if FramesFit(z, lit, bs) {
        FrameFits(z, lit, bs, |blocks|);
        if |region| + |c| < TWO64 {
          RecordIs(rec, |region|, |c|, ul);
          FramedStep(z, lit, bs, blocks, region, rec, c);
        }
      }
      blocks := blocks + [rec];
      region := region + c;
      o := o + bs;
    }
    CountedEnd(|blocks|, bs, |lit|, o);
  }

  /** `k` blocks stand for the first `o` of `n` bytes. */
  ghost predicate Counted(k: nat, bs: nat, n: nat, o: nat) {
    bs > 0 && o == k * bs && k <= n / bs + 1
  }

  lemma NothingCounted(bs: nat, n: nat)
    requires bs > 0
    ensures Counted(0, bs, n, 0)
  {
  }

  lemma CountedNext(k: nat, bs: nat, n: nat, o: nat)
    requires Counted(k, bs, n, o) && o < n
    ensures o == k * bs && o + Min(bs, n - o) <= n && Counted(k + 1, bs, n, o + bs)
  {
    CountOf(k, bs, n);
  }

  lemma CountedEnd(k: nat, bs: nat, n: nat, o: nat)
    requires Counted(k, bs, n, o) && o >= n
    ensures k <= n / bs + 1 && k * bs >= n
  {
  }

  lemma RecordIs(rec: BlockRec, off: nat, len: nat, ul: nat)
    requires off < TWO64 && len < TWO32 && ul < TWO32 && rec == BlockRec(Wrap(off), len % TWO32, ul)
    ensures rec.compOff == off && rec.compLen == len && rec.uncompLen == ul
  {
    WrapId(off);
  }

  lemma FramedNothing(z: Codec, lit: seq<byte>, bs: nat)
    ensures Framed(z, lit, bs, [], [])
  {
  }

  lemma PieceIs(lit: seq<byte>, bs: nat, b: nat)
    requires b * bs < |lit|
    ensures lit[b * bs..b * bs + Min(bs, |lit| - b * bs)] == Piece(lit, bs, b)
  {
  }

  lemma FrameFits(z: Codec, lit: seq<byte>, bs: nat, b: nat)
    requires FramesFit(z, lit, bs) && b * bs < |lit|
    ensures |z.compress(Piece(lit, bs, b))| < TWO32
  {
  }

  lemma CountOf(k: nat, bs: nat, n: nat)
    requires bs > 0 && k * bs < n
    ensures k <= n / bs && (k + 1) * bs == k * bs + bs
  {
    DivMod(n, bs);
    if k > n / bs { MulOrder(bs, n / bs + 1, k); }
  }

  // ---- reading the blocks back ----

  /** The store of a written file: its region holds the frames. */
  ghost predicate StoreOver(a: AddSource, region: seq<byte>, blocks: seq<BlockRec>, bs: nat) {
    && a.blockSize == bs && a.blocks == blocks
    && a.regionOff + |region| == |a.file.bytes| < TWO64
    && Cut(a.file.bytes, a.regionOff, a.regionOff + |region|) == region
  }

  lemma BlockReadsBack(z: Codec, a: AddSource, lit: seq<byte>, region: seq<byte>, bs: nat, b: nat)
    requires Lossless(z) && StoreOver(a, region, a.blocks, bs) && Framed(z, lit, bs, a.blocks, region) && b < |a.blocks|
    ensures b * bs < |lit| && BlockData(z, a, b) == Some(Piece(lit, bs, b))
  {
    hide Piece, Cut;
    var rec, piece := a.blocks[b], Piece(lit, bs, b);
    assert Frame(z, rec, region, piece);
    var at := a.regionOff + rec.compOff;
    WrapId(at);
    CutOfCut(a.file.bytes, a.regionOff, a.regionOff + |region|, rec.compOff, rec.compOff + rec.compLen);
    CutPlus(a.file.bytes, a.regionOff, rec.compOff, rec.compLen);
    CutIs(a.file.bytes, at, at + rec.compLen);
    assert z.decompress(z.compress(piece)) == Some(piece);
    if rec.compLen == 0 {
      assert z.compress(piece) == [];
    }
  }

  lemma WrittenStoreOk(z: Codec, a: AddSource, lit: seq<byte>, region: seq<byte>, bs: nat)
    requires Lossless(z) && bs > 0 && |a.blocks| < TWO32
    requires StoreOver(a, region, a.blocks, bs) && Framed(z, lit, bs, a.blocks, region)
    ensures StoreOk(z, a)
  {
    hide BlockData, StoreOver, Frame, Piece, Framed;
    forall b | 0 <= b < |a.blocks|
      ensures BlockOk(z, a, b)
    {
      BlockReadsBack(z, a, lit, region, bs, b);
      if b < |a.blocks| - 1 {
        BlockReadsBack(z, a, lit, region, bs, b + 1);
        assert (b + 1) * bs == b * bs + bs;
      }
      assert a.blockSize == bs by { BlockSizeIs(a, region, bs); }
    }
    BlockSizeIs(a, region, bs);
  }

  lemma BlockSizeIs(a: AddSource, region: seq<byte>, bs: nat)
    requires StoreOver(a, region, a.blocks, bs)
    ensures a.blockSize == bs
  {
  }

  /** The blocks read back are the stream that was cut. */
  lemma {:induction false} WrittenLit(z: Codec, a: AddSource, lit: seq<byte>, region: seq<byte>, bs: nat, n: nat)
    requires Lossless(z) && StoreOver(a, region, a.blocks, bs) && Framed(z, lit, bs, a.blocks, region)
    requires StoreOk(z, a) && n <= |a.blocks|
    ensures LitUpTo(z, a, n) == Cut(lit, 0, Min(n * bs, |lit|))
  {
    hide BlockData, StoreOver, Framed, Cut, BlockOk;
    if n == 0 {
      CutNone(lit, 0);
    } else {
      WrittenLit(z, a, lit, region, bs, n - 1);
      BlockReadsBack(z, a, lit, region, bs, n - 1);
      assert n * bs == (n - 1) * bs + bs;
      CutJoin(lit, 0, (n - 1) * bs, (n - 1) * bs + Min(bs, |lit| - (n - 1) * bs));
    }
  }

  lemma WrittenStore(z: Codec, a: AddSource, lit: seq<byte>, region: seq<byte>, bs: nat)
    requires Lossless(z) && bs > 0 && |a.blocks| < TWO32 && |a.blocks| * bs >= |lit|
    requires StoreOver(a, region, a.blocks, bs) && Framed(z, lit, bs, a.blocks, region)
    ensures StoreOk(z, a) && LitOf(z, a) == lit
  {
    hide StoreOver, Framed, Cut, StoreOk, LitUpTo;
    WrittenStoreOk(z, a, lit, region, bs);
    WrittenLit(z, a, lit, region, bs, |a.blocks|);
    CutAll(lit);
  }

  // ---- writing the file ----

  method WriteSegs(segs: seq<RawSeg>) returns (raw: seq<byte>)
    ensures raw == EncodeSegs(segs)
  {
    hide Le;
    raw := [];
    for i := 0 to |segs|
      invariant raw == EncodeSegs(segs[..i])
    {
      assert segs[..i + 1][..i] == segs[..i];
      ghost var front := raw;
      raw := raw + [segs[i].kind];
      raw := PutLe(raw, segs[i].len, 8);
      raw := PutLe(raw, segs[i].srcOff, 8);
      assert raw == front + EncodeSeg(segs[i]);
    }
    assert segs[..|segs|] == segs;
  }

  method WriteBlocks(blocks: seq<BlockRec>) returns (raw: seq<byte>)
    ensures raw == EncodeBlocks(blocks)
  {
    hide Le;
    raw := [];
    for i := 0 to |blocks|
      invariant raw == EncodeBlocks(blocks[..i])
    {
      assert blocks[..i + 1][..i] == blocks[..i];
      ghost var front := raw;
      raw := PutLe(raw, blocks[i].compOff, 8);
      raw := PutLe(raw, blocks[i].compLen, 4);
      raw := PutLe(raw, blocks[i].uncompLen, 4);
      assert raw == front + EncodeBlock(blocks[i]);
    }
    assert blocks[..|blocks|] == blocks;
  }

  method WriteHeader(t: Tables) returns (out: seq<byte>)
    ensures out == EncodeHeader(t)
  {
    hide Le;
    out := MAGIC;
    out := PutLe(out, VERSION, 4);
    out := PutLe(out, t.blockSize, 4);
    out := PutLe(out, t.targetSize, 8);
    out := PutLe(out, t.baseSize, 8);
    out := PutLe(out, t.baseHash, 8);
    out := PutLe(out, |t.segs| % TWO32, 4);
    out := PutLe(out, |t.blocks| % TWO32, 4);
    CastsAreLe(|t.segs|);
    CastsAreLe(|t.blocks|);
  }

  /** A 32-bit cast changes none of the four bytes written. */
  lemma CastsAreLe(n: nat)
    ensures Le(n % TWO32, 4) == Le(n, 4)
  {
    hide Le;
    Pow256Values();
    UnLe(n, 4);
    UnLe(n % TWO32, 4);
    LeUn(Le(n, 4));
    LeUn(Le(n % TWO32, 4));
  }

  method WriteFile(z: Codec, t: Tables, region: seq<byte>) returns (out: seq<byte>)
    ensures out == EncodeFile(z, t, region)
  {
    hide EncodeHeader, EncodeSegs, EncodeBlocks, Le;
    var segRaw := WriteSegs(t.segs);
    var segComp := z.compress(segRaw);
    var blkRaw := WriteBlocks(t.blocks);
    var blkComp := z.compress(blkRaw);
    out := WriteHeader(t);
    ghost var h := out;
    out := PutLe(out, |segComp|, 8);
    out := PutLe(out, |segRaw|, 8);
    out := out + segComp;
    assert out == h + EncodeTable(z, segRaw);
    ghost var hs := out;
    out := PutLe(out, |blkComp|, 8);
    out := PutLe(out, |blkRaw|, 8);
    out := out + blkComp;
    assert out == hs + EncodeTable(z, blkRaw);
    out := out + region;
  }

  // ---- sizes ----

  /** The compressor's own worst case, which its output buffers are sized by. */
  function CompressBound(n: nat): nat {
    n + n / 256 + (if n < 131072 then (131072 - n) / 2048 else 0)
  }

  ghost predicate Bounded(z: Codec) {
    forall x: seq<byte> :: |z.compress(x)| <= CompressBound(|x|)
  }

  /**
   * Target and block sizes that keep every count and length of the written file inside its field: the number of
   * segments and of blocks, and the length of a compressed block, each below 2^32.
   */
  predicate SizesFit(targetLen: nat, blockSize: nat) {
    var bs := if blockSize == 0 then DEFAULT_BLOCK else blockSize;
    targetLen / 128 + 1 < TWO32 && targetLen / bs + 1 <= TWO32 - 256 && CompressBound(Min(bs, targetLen)) < TWO32
  }

  lemma SizesSuffice(z: Codec, t: Tables, lit: seq<byte>, targetLen: nat)
    requires Bounded(z) && SizesFit(targetLen, t.blockSize) && t.blockSize > 0
    requires |t.segs| <= targetLen / 128 + 1 && |t.blocks| <= |lit| / t.blockSize + 1 && |lit| <= targetLen
    ensures CountsFit(z, t) && FramesFit(z, lit, t.blockSize)
    ensures RegionOff(z, t) + |t.blocks| * TWO32 < TWO64
  {
    hide Piece, EncodeSegs, EncodeBlocks, Le;
    FewerBlocks(|lit|, targetLen, t.blockSize);
    forall b: nat | b * t.blockSize < |lit|
      ensures |z.compress(Piece(lit, t.blockSize, b))| < TWO32
    {
      BoundGrows(|Piece(lit, t.blockSize, b)|, Min(t.blockSize, targetLen));
    }
  }

  lemma FewerBlocks(m: nat, n: nat, bs: nat)
    requires m <= n && bs > 0
    ensures m / bs <= n / bs
  {
    var q, r := m / bs, n / bs;
    DivMod(m, bs);
    DivMod(n, bs);
    Distribute(q, r + 1, bs);
    Distribute(r + 1, r, bs);
    NegativeFactor(q - (r + 1), bs);
  }

  lemma Distribute(a: int, b: int, k: int)
    ensures (a - b) * k == a * k - b * k
  {
  }

  lemma NegativeFactor(x: int, k: int)
    requires k > 0
    ensures x * k < 0 ==> x < 0
  {
    if x >= 0 { assert x * k >= 0; }
  }

  lemma BoundGrows(a: nat, b: nat)
    requires a <= b
    ensures CompressBound(a) <= CompressBound(b)
  {
  }

  // ---- the generator ----

  /** A file that reconstructs exactly `target` over exactly `base`. */
  ghost predicate DeltaFor(z: Codec, f: seq<byte>, base: seq<byte>, target: seq<byte>) {
    FileOk(z, MemSource(f), |base|) && Reconstruct(z, MemSource(f), base) == target
  }

  /**
   * GenerateDelta. Whenever the counts and lengths fit the fields they are stored in, the file it writes parses back
   * to its own tables, every block reads back, and applying it to the base gives the target. They do fit for any
   * target and block size within `SizesFit`.
   */
  method GenerateDelta(z: Codec, base: seq<byte>, target: seq<byte>, blockSize: u32)
    returns (out: seq<byte>, ghost t: Tables, ghost lit: seq<byte>)
    requires |base| < TWO64 && |target| < TWO64
    ensures t.blockSize == (if blockSize == 0 then DEFAULT_BLOCK else blockSize)
    ensures |t.segs| <= |target| / 128 + 1 && |t.blocks| <= |lit| / t.blockSize + 1 && |lit| <= |target|
    ensures FramesFit(z, lit, t.blockSize) ==> |out| <= RegionOff(z, t) + |t.blocks| * TWO32
    ensures Lossless(z) && CountsFit(z, t) && FramesFit(z, lit, t.blockSize) && |out| < TWO64 ==>
      DeltaFor(z, out, base, target) && ParseBytes(z, out) == Ok(t)
    ensures Lossless(z) && Bounded(z) && SizesFit(|target|, blockSize) ==>
      |out| < TWO64 && DeltaFor(z, out, base, target)
    ensures Justified(t.segs, base, target)
    ensures base == target && |base| >= 256 ==> t.segs == [RawSeg(KIND_COPY, |base|, 0)]
  {
    hide Spells, Framed, EncodeFile, Justified, RegionOff, CountsFit, Lossless, FramesFit, DeltaFor, Bounded,
      ParseBytes;
    var bs: u32 := if blockSize == 0 then DEFAULT_BLOCK else blockSize;
    var segs, literals := Match(base, target);
    lit := literals;
    Spelled(segs, literals, base, target);
    var blocks, region := CutBlocks(z, literals, bs);
    var tables := Tables(bs, |target|, |base|, z.hash(base), segs, blocks, 0);
    out := WriteFile(z, tables, region);
    t := tables.(regionOff := RegionOff(z, tables));
    SameEncoding(z, tables, t, region);
    RegionFits(z, tables, region);
    if Lossless(z) && Bounded(z) && SizesFit(|target|, blockSize) { SizesSuffice(z, t, lit, |target|); }
    if Lossless(z) && CountsFit(z, t) && FramesFit(z, lit, bs) && |out| < TWO64 {
      FewEnough(z, t);
      WrittenDeltaIsRight(z, t, region, lit, base, target);
    }
  }

  lemma FewEnough(z: Codec, t: Tables)
    requires CountsFit(z, t)
    ensures |t.blocks| < TWO32
  {
  }

  lemma Spelled(segs: seq<RawSeg>, lit: seq<byte>, base: seq<byte>, target: seq<byte>)
    requires Spells(segs, lit, base, target, |target|)
    ensures |lit| <= |target| && TotalLen(segs) == |target| && SegsOk(segs, |base|, |lit|)
    ensures Apply(segs, base, lit) == target && Justified(segs, base, target)
  {
    hide Apply, Justified, Cut;
    LitFits(segs, lit, base, target, |target|);
    CutAll(target);
  }

  lemma SameEncoding(z: Codec, t: Tables, t': Tables, region: seq<byte>)
    requires t' == t.(regionOff := t'.regionOff)
    ensures EncodeFile(z, t', region) == EncodeFile(z, t, region) && RegionOff(z, t') == RegionOff(z, t)
  {
    hide Le;
  }

  lemma RegionFits(z: Codec, t: Tables, region: seq<byte>)
    ensures |EncodeFile(z, t, region)| == RegionOff(z, t) + |region|
    ensures Cut(EncodeFile(z, t, region), RegionOff(z, t), RegionOff(z, t) + |region|) == region
  {
    hide Cut, EncodeTable, EncodeHeader;
    CutRight(EncodeHeader(t) + EncodeTable(z, EncodeSegs(t.segs)) + EncodeTable(z, EncodeBlocks(t.blocks)), region);
  }

  lemma WrittenDeltaIsRight(z: Codec, t: Tables, region: seq<byte>, lit: seq<byte>, base: seq<byte>, target: seq<byte>)
    requires Lossless(z) && CountsFit(z, t) && |t.blocks| < TWO32 && |EncodeFile(z, t, region)| < TWO64
    requires t.blockSize > 0 && t.targetSize == |target| == TotalLen(t.segs) && t.baseSize == |base|
    requires t.regionOff == RegionOff(z, t) && |lit| < TWO64
    requires Framed(z, lit, t.blockSize, t.blocks, region) && |t.blocks| * t.blockSize >= |lit|
    requires SegsOk(t.segs, |base|, |lit|) && Apply(t.segs, base, lit) == target
    ensures DeltaFor(z, EncodeFile(z, t, region), base, target)
    ensures ParseBytes(z, EncodeFile(z, t, region)) == Ok(t)
  {
    hide EncodeFile, ParseBytes, Cut, StoreOk, LitOf, Apply, Framed, RegionOff, Lossless, SegsOk, TotalLen, Faithful,
      CountsFit;
    var f := EncodeFile(z, t, region);
    WrapId(TotalLen(t.segs));
    ParseEncoded(z, t, region);
    WrittenStoreHolds(z, t, region, lit);
    MemSourceIsExact(f);
  }

  lemma WrittenStoreHolds(z: Codec, t: Tables, region: seq<byte>, lit: seq<byte>)
    requires Lossless(z) && |t.blocks| < TWO32 && |EncodeFile(z, t, region)| < TWO64
    requires t.blockSize > 0 && t.regionOff == RegionOff(z, t)
    requires Framed(z, lit, t.blockSize, t.blocks, region) && |t.blocks| * t.blockSize >= |lit|
    ensures var a := AddSourceOf(MemSource(EncodeFile(z, t, region)), t); StoreOk(z, a) && LitOf(z, a) == lit
  {
    hide EncodeFile, Cut, StoreOk, LitOf, Framed, RegionOff, Lossless;
    RegionFits(z, t, region);
    WrittenStore(z, AddSourceOf(MemSource(EncodeFile(z, t, region)), t), lit, region, t.blockSize);
  }
}
