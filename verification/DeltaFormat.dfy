/** The on-disk form of a .vgdelta: tables, their encoding, and the parser. */
module DeltaFormat {
  import opened Bytes

  const MAGIC: seq<byte> := [0x56, 0x47, 0x44, 0x31]   // "VGD1"
  const VERSION := 1
  const HEADER_SIZE := 44
  const DEFAULT_BLOCK := 262144
  const KIND_COPY: byte := 0
  const KIND_ADD: byte := 1
  const SEG_BYTES := 17
  const BLK_BYTES := 16

  /**
   * The block compressor and the base-identity hash. `decompress` yields None where the library reports an error.
   */
  datatype Codec = Codec(
    compress: seq<byte> -> seq<byte>, decompress: seq<byte> -> Option<seq<byte>>, hash: seq<byte> -> u64)

  /** The only law the delta engine relies on. */
  ghost predicate Lossless(z: Codec) {
    forall x: seq<byte> :: z.decompress(z.compress(x)) == Some(x)
  }

  /** ZDecompress: exactly `ulen` bytes, or nothing. */
  function ZDecompress(z: Codec, comp: seq<byte>, ulen: nat): (r: seq<byte>)
    ensures r == [] || |r| == ulen
  {
    var d := z.decompress(comp);
    if d.Some? && |d.value| == ulen then d.value else []
  }

  datatype RawSeg = RawSeg(kind: byte, len: u64, srcOff: u64)
  datatype BlockRec = BlockRec(compOff: u64, compLen: u32, uncompLen: u32)

  /** Everything a .vgdelta states about itself; its literal blocks stay in the file from `regionOff` on. */
  datatype Tables = Tables(
    blockSize: u32, targetSize: u64, baseSize: u64, baseHash: u64,
    segs: seq<RawSeg>, blocks: seq<BlockRec>, regionOff: nat)

  /** The target bytes a segment list accounts for, as a mathematical sum. */
  function TotalLen(segs: seq<RawSeg>): nat {
    if segs == [] then 0 else TotalLen(segs[..|segs| - 1]) + segs[|segs| - 1].len
  }

  // ---- records ----

  function EncodeSeg(s: RawSeg): (r: seq<byte>)
    ensures |r| == SEG_BYTES
  {
    [s.kind] + Le(s.len, 8) + Le(s.srcOff, 8)
  }

  function DecodeSeg(r: seq<byte>): RawSeg
    requires |r| == SEG_BYTES
  {
    Pow256Values(); UnBound(r[1..9]); UnBound(r[9..17]);
    RawSeg(r[0], Un(r[1..9]), Un(r[9..17]))
  }

  function EncodeBlock(b: BlockRec): (r: seq<byte>)
    ensures |r| == BLK_BYTES
  {
    Le(b.compOff, 8) + Le(b.compLen, 4) + Le(b.uncompLen, 4)
  }

  function DecodeBlock(r: seq<byte>): BlockRec
    requires |r| == BLK_BYTES
  {
    Pow256Values(); UnBound(r[0..8]); UnBound(r[8..12]); UnBound(r[12..16]);
    BlockRec(Un(r[0..8]), Un(r[8..12]), Un(r[12..16]))
  }

  lemma UnLeFits(x: nat, n: nat)
    requires x < Pow256(n)
    ensures Un(Le(x, n)) == x
  {
    UnLe(x, n);
    ModUnique(x, Pow256(n), 0, x);
  }

  lemma SegRecordRoundTrip(s: RawSeg)
    ensures DecodeSeg(EncodeSeg(s)) == s
  {
    var r := EncodeSeg(s);
    assert r[1..9] == Le(s.len, 8) && r[9..17] == Le(s.srcOff, 8);
    Pow256Values();
    UnLeFits(s.len, 8);
    UnLeFits(s.srcOff, 8);
  }

  lemma BlockRecordRoundTrip(b: BlockRec)
    ensures DecodeBlock(EncodeBlock(b)) == b
  {
    var r := EncodeBlock(b);
    assert r[0..8] == Le(b.compOff, 8) && r[8..12] == Le(b.compLen, 4) && r[12..16] == Le(b.uncompLen, 4);
    Pow256Values();
    UnLeFits(b.compOff, 8);
    UnLeFits(b.compLen, 4);
    UnLeFits(b.uncompLen, 4);
  }

  // ---- tables: records back to back ----

  function EncodeSegs(segs: seq<RawSeg>): (r: seq<byte>)
    ensures |r| == SEG_BYTES * |segs|
  {
    if segs == [] then [] else EncodeSegs(segs[..|segs| - 1]) + EncodeSeg(segs[|segs| - 1])
  }

  function DecodeSegs(raw: seq<byte>, n: nat): (segs: seq<RawSeg>)
    requires |raw| == SEG_BYTES * n
    ensures |segs| == n
  {
    if n == 0 then [] else DecodeSegs(raw[..SEG_BYTES * (n - 1)], n - 1) + [DecodeSeg(raw[SEG_BYTES * (n - 1)..])]
  }

  function EncodeBlocks(blocks: seq<BlockRec>): (r: seq<byte>)
    ensures |r| == BLK_BYTES * |blocks|
  {
    if blocks == [] then [] else EncodeBlocks(blocks[..|blocks| - 1]) + EncodeBlock(blocks[|blocks| - 1])
  }

  function DecodeBlocks(raw: seq<byte>, n: nat): (blocks: seq<BlockRec>)
    requires |raw| == BLK_BYTES * n
    ensures |blocks| == n
  {
    if n == 0 then [] else DecodeBlocks(raw[..BLK_BYTES * (n - 1)], n - 1) + [DecodeBlock(raw[BLK_BYTES * (n - 1)..])]
  }

  lemma {:induction false} SegTableRoundTrip(segs: seq<RawSeg>)
    ensures DecodeSegs(EncodeSegs(segs), |segs|) == segs
  {
    if segs != [] {
      var k := |segs| - 1;
      var raw := EncodeSegs(segs);
      assert raw[..SEG_BYTES * k] == EncodeSegs(segs[..k]) && raw[SEG_BYTES * k..] == EncodeSeg(segs[k]);
      SegTableRoundTrip(segs[..k]);
      SegRecordRoundTrip(segs[k]);
      assert segs == segs[..k] + [segs[k]];
    }
  }

  lemma {:induction false} BlockTableRoundTrip(blocks: seq<BlockRec>)
    ensures DecodeBlocks(EncodeBlocks(blocks), |blocks|) == blocks
  {
    if blocks != [] {
      var k := |blocks| - 1;
      var raw := EncodeBlocks(blocks);
      assert raw[..BLK_BYTES * k] == EncodeBlocks(blocks[..k]) && raw[BLK_BYTES * k..] == EncodeBlock(blocks[k]);
      BlockTableRoundTrip(blocks[..k]);
      BlockRecordRoundTrip(blocks[k]);
      assert blocks == blocks[..k] + [blocks[k]];
    }
  }

  // ---- the whole file ----

  /** A compressed table: its compressed length, its raw length, and the compressed bytes. */
  function EncodeTable(z: Codec, raw: seq<byte>): seq<byte> {
    Le(|z.compress(raw)|, 8) + Le(|raw|, 8) + z.compress(raw)
  }

  /** The counts are cast to 32 bits on their way into the header. */
  function EncodeHeader(t: Tables): (r: seq<byte>)
    ensures |r| == HEADER_SIZE
  {
    MAGIC + Le(VERSION, 4) + Le(t.blockSize, 4) + Le(t.targetSize, 8) + Le(t.baseSize, 8) + Le(t.baseHash, 8)
      + Le(|t.segs|, 4) + Le(|t.blocks|, 4)
  }

  function EncodeFile(z: Codec, t: Tables, region: seq<byte>): seq<byte> {
    EncodeHeader(t) + EncodeTable(z, EncodeSegs(t.segs)) + EncodeTable(z, EncodeBlocks(t.blocks)) + region
  }

  /** Where the literal region of an encoded file starts. */
  function RegionOff(z: Codec, t: Tables): nat {
    HEADER_SIZE + |EncodeTable(z, EncodeSegs(t.segs))| + |EncodeTable(z, EncodeBlocks(t.blocks))|
  }

  /** A compressed table at `off`: the raw bytes it holds and where it ends. */
  function ParseTable(z: Codec, f: seq<byte>, off: nat, due: nat, unit: string, what: string):
    Result<(seq<byte>, nat), string> {
    if |f| < off + 16 then Err("vgdelta: short " + unit + " lens") else
    var clen := Field(f, off, 8);
    var ulen := Field(f, off + 8, 8);
    if ulen != due then Err("vgdelta: " + what + " size mismatch") else
    if |f| < off + 16 + clen then Err("vgdelta: short " + what) else
    var raw := ZDecompress(z, f[off + 16..off + 16 + clen], ulen);
    if |raw| != ulen then Err("vgdelta: " + what + " corrupt") else Ok((raw, off + 16 + clen))
  }

  datatype Header = Header(blockSize: u32, targetSize: u64, baseSize: u64, baseHash: u64, numSeg: nat, numBlk: nat)

  /** The fixed-size header at the start of a file. */
  function ParseHeader(f: seq<byte>): Result<Header, string> {
    if |f| < HEADER_SIZE then Err("vgdelta: short header") else
    if f[0..4] != MAGIC then Err("vgdelta: bad magic") else
    if Field(f, 4, 4) != VERSION then Err("vgdelta: unsupported version") else
    if Field(f, 8, 4) == 0 then Err("vgdelta: zero block size") else
    FieldsFit(f);
    Ok(Header(Field(f, 8, 4), Field(f, 12, 8), Field(f, 20, 8), Field(f, 28, 8), Field(f, 36, 4), Field(f, 40, 4)))
  }

  /** What ParseDelta makes of a file's bytes. */
  function ParseBytes(z: Codec, f: seq<byte>): Result<Tables, string> {
    match ParseHeader(f)
    case Err(e) => Err(e)
    case Ok(h) =>
      match ParseTable(z, f, HEADER_SIZE, SEG_BYTES * h.numSeg, "seg", "seg table")
      case Err(e) => Err(e)
      case Ok((segRaw, off1)) =>
        var segs := DecodeSegs(segRaw, h.numSeg);
        if Wrap(TotalLen(segs)) != h.targetSize then Err("vgdelta: segments do not cover target") else
        match ParseTable(z, f, off1, BLK_BYTES * h.numBlk, "blk", "blk index")
        case Err(e) => Err(e)
        case Ok((blkRaw, off2)) =>
          Ok(Tables(h.blockSize, h.targetSize, h.baseSize, h.baseHash, segs, DecodeBlocks(blkRaw, h.numBlk), off2))
  }

  lemma FieldsFit(f: seq<byte>)
    requires |f| >= HEADER_SIZE
    ensures Field(f, 8, 4) < TWO32
    ensures Field(f, 12, 8) < TWO64 && Field(f, 20, 8) < TWO64 && Field(f, 28, 8) < TWO64
  {
    Pow256Values();
    UnBound(f[8..12]);
    UnBound(f[12..20]);
    UnBound(f[20..28]);
    UnBound(f[28..36]);
  }

  // ---- encoding then parsing ----

  /** The counts and lengths of a delta fit the fields they are stored in. */
  predicate CountsFit(z: Codec, t: Tables) {
    && |t.segs| < TWO32 && |t.blocks| < TWO32
    && |z.compress(EncodeSegs(t.segs))| < TWO64 && |z.compress(EncodeBlocks(t.blocks))| < TWO64
  }

  lemma HeaderFields(t: Tables, f: seq<byte>)
    requires EncodeHeader(t) <= f && |t.segs| < TWO32 && |t.blocks| < TWO32
    ensures f[0..4] == MAGIC && Field(f, 4, 4) == VERSION && Field(f, 8, 4) == t.blockSize
    ensures Field(f, 12, 8) == t.targetSize && Field(f, 20, 8) == t.baseSize && Field(f, 28, 8) == t.baseHash
    ensures Field(f, 36, 4) == |t.segs| && Field(f, 40, 4) == |t.blocks|
  {
    hide Le, Un, Field, Pow256;
    var h := EncodeHeader(t);
    assert forall a, b :: 0 <= a <= b <= |h| ==> f[a..b] == h[a..b];
    Pow256Values();
    assert h[0..4] == MAGIC;
    FieldOfLe(f, 4, 4, VERSION);
    FieldOfLe(f, 8, 4, t.blockSize);
    FieldOfLe(f, 12, 8, t.targetSize);
    FieldOfLe(f, 20, 8, t.baseSize);
    FieldOfLe(f, 28, 8, t.baseHash);
    FieldOfLe(f, 36, 4, |t.segs|);
    FieldOfLe(f, 40, 4, |t.blocks|);
  }

  lemma TableRoundTrip(z: Codec, pre: seq<byte>, raw: seq<byte>, post: seq<byte>, unit: string, what: string)
    requires Lossless(z) && |raw| < TWO64 && |z.compress(raw)| < TWO64
    ensures ParseTable(z, pre + EncodeTable(z, raw) + post, |pre|, |raw|, unit, what)
         == Ok((raw, |pre| + |EncodeTable(z, raw)|))
  {
    var comp := z.compress(raw);
    var f := pre + EncodeTable(z, raw) + post;
    var off := |pre|;
    Pow256Values();
    assert f[off..off + 8] == Le(|comp|, 8);
    assert f[off + 8..off + 8 + 8] == Le(|raw|, 8);
    FieldOfLe(f, off, 8, |comp|);
    FieldOfLe(f, off + 8, 8, |raw|);
    assert f[off + 16..off + 16 + |comp|] == comp;
  }

  lemma HeaderRoundTrip(t: Tables, f: seq<byte>)
    requires EncodeHeader(t) <= f && |t.segs| < TWO32 && |t.blocks| < TWO32 && t.blockSize > 0
    ensures ParseHeader(f) == Ok(Header(t.blockSize, t.targetSize, t.baseSize, t.baseHash, |t.segs|, |t.blocks|))
  {
    hide EncodeHeader, Le, Un;
    HeaderFields(t, f);
  }

  lemma EncodedHeader(z: Codec, t: Tables, region: seq<byte>)
    ensures EncodeHeader(t) <= EncodeFile(z, t, region)
  {
  }

  lemma EncodedTables(z: Codec, t: Tables, region: seq<byte>)
    requires Lossless(z) && CountsFit(z, t)
    ensures var f, s, b := EncodeFile(z, t, region), EncodeSegs(t.segs), EncodeBlocks(t.blocks);
      && ParseTable(z, f, HEADER_SIZE, |s|, "seg", "seg table") == Ok((s, HEADER_SIZE + |EncodeTable(z, s)|))
      && ParseTable(z, f, HEADER_SIZE + |EncodeTable(z, s)|, |b|, "blk", "blk index") == Ok((b, RegionOff(z, t)))
  {
    hide EncodeHeader, EncodeTable, EncodeSegs, EncodeBlocks, ParseTable;
    var h, s, b := EncodeHeader(t), EncodeSegs(t.segs), EncodeBlocks(t.blocks);
    var f := EncodeFile(z, t, region);
    assert f == h + EncodeTable(z, s) + (EncodeTable(z, b) + region);
    TableRoundTrip(z, h, s, EncodeTable(z, b) + region, "seg", "seg table");
    assert f == (h + EncodeTable(z, s)) + EncodeTable(z, b) + region;
    TableRoundTrip(z, h + EncodeTable(z, s), b, region, "blk", "blk index");
  }

  /** Parsing a written delta gives back exactly the tables that were written. */
  lemma ParseEncoded(z: Codec, t: Tables, region: seq<byte>)
    requires Lossless(z) && CountsFit(z, t)
    requires t.blockSize > 0 && t.targetSize == Wrap(TotalLen(t.segs)) && t.regionOff == RegionOff(z, t)
    ensures ParseBytes(z, EncodeFile(z, t, region)) == Ok(t)
  {
    hide EncodeFile, EncodeHeader, EncodeTable, EncodeSegs, EncodeBlocks, ParseHeader, ParseTable, RegionOff, TotalLen;
    EncodedHeader(z, t, region);
    HeaderRoundTrip(t, EncodeFile(z, t, region));
    EncodedTables(z, t, region);
    SegTableRoundTrip(t.segs);
    BlockTableRoundTrip(t.blocks);
  }

  // ---- the layout in literal positions ----

  /** A segment record: one byte of kind, 0 for COPY and 1 for ADD, then length and source offset in 64 bits each. */
  lemma SegRecordLayout(s: RawSeg)
    ensures var r := EncodeSeg(s);
      && |r| == 17 && Word8(r, 1) == s.len && Word8(r, 9) == s.srcOff
      && (s.kind == KIND_COPY <==> r[0] == 0) && (s.kind == KIND_ADD <==> r[0] == 1)
  {
    hide Un;
    var r := EncodeSeg(s);
    Pow256Values();
    assert r[1..9] == Le(s.len, 8) && r[9..17] == Le(s.srcOff, 8);
    FieldOfLe(r, 1, 8, s.len);
    FieldOfLe(r, 9, 8, s.srcOff);
    FieldIsWord(r, 1);
    FieldIsWord(r, 9);
  }

  /** A block record: the frame's offset in 64 bits, its length and the block's in 32 each. */
  lemma BlockRecordLayout(b: BlockRec)
    ensures var r := EncodeBlock(b);
      |r| == 16 && Word8(r, 0) == b.compOff && Word4(r, 8) == b.compLen && Word4(r, 12) == b.uncompLen
  {
    hide Un;
    var r := EncodeBlock(b);
    Pow256Values();
    assert r[0..8] == Le(b.compOff, 8) && r[8..12] == Le(b.compLen, 4) && r[12..16] == Le(b.uncompLen, 4);
    FieldOfLe(r, 0, 8, b.compOff);
    FieldOfLe(r, 8, 4, b.compLen);
    FieldOfLe(r, 12, 4, b.uncompLen);
    FieldIsWord(r, 0);
    FieldIsWord(r, 8);
    FieldIsWord(r, 12);
  }

  /** The file: "VGD1", version 1, the sizes, hash and counts, and the first table's lengths. */
  lemma FileLayout(z: Codec, t: Tables, region: seq<byte>)
    requires CountsFit(z, t)
    ensures var f := EncodeFile(z, t, region);
      && |f| >= 60 && f[..4] == [0x56, 0x47, 0x44, 0x31] && Word4(f, 4) == 1 && Word4(f, 8) == t.blockSize
      && Word8(f, 12) == t.targetSize && Word8(f, 20) == t.baseSize && Word8(f, 28) == t.baseHash
      && Word4(f, 36) == |t.segs| && Word4(f, 40) == |t.blocks|
      && Word8(f, 44) == |z.compress(EncodeSegs(t.segs))| && Word8(f, 52) == 17 * |t.segs|
  {
    hide Le, Un, Field, Pow256, EncodeHeader, EncodeSegs, EncodeBlocks, Word4, Word8;
    var f := EncodeFile(z, t, region);
    EncodedHeader(z, t, region);
    HeaderFields(t, f);
    TableLengths(z, t, region);
    assert f[0..4] == f[..4];
    FieldIsWord(f, 4); FieldIsWord(f, 8); FieldIsWord(f, 12); FieldIsWord(f, 20); FieldIsWord(f, 28);
    FieldIsWord(f, 36); FieldIsWord(f, 40); FieldIsWord(f, 44); FieldIsWord(f, 52);
  }

  lemma TableLengths(z: Codec, t: Tables, region: seq<byte>)
    requires CountsFit(z, t)
    ensures var f := EncodeFile(z, t, region);
      |f| >= 60 && Field(f, 44, 8) == |z.compress(EncodeSegs(t.segs))| && Field(f, 52, 8) == 17 * |t.segs|
  {
    hide Le, Un, Pow256, EncodeHeader, EncodeSegs, EncodeBlocks;
    var f, raw := EncodeFile(z, t, region), EncodeSegs(t.segs);
    Pow256Values();
    assert f[44..52] == Le(|z.compress(raw)|, 8) && f[52..60] == Le(|raw|, 8);
    FieldOfLe(f, 44, 8, |z.compress(raw)|);
    FieldOfLe(f, 52, 8, |raw|);
  }
}
