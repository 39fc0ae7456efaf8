/** ParseDelta: reading the tables of a .vgdelta through a byte source. */
module DeltaParse {
  import opened Bytes
  import opened Sources
  import opened DeltaFormat

  /** Reads one compressed table. An I/O failure is an error; success is what the file's bytes hold. */
  method ReadTable(z: Codec, src: Source, off: nat, due: nat, unit: string, what: string)
    returns (r: Result<(seq<byte>, nat), string>)
    requires Faithful(src)
    ensures r.Ok? ==> r == ParseTable(z, src.bytes, off, due, unit, what)
    ensures Live(src) ==> r == ParseTable(z, src.bytes, off, due, unit, what)
  {
    var ok, lens := PreadAll(src, 16, off);
    if !ok {
      return Err("vgdelta: short " + unit + " lens");
    }
    assert lens[..8] == src.bytes[off..off + 8] && lens[8..] == src.bytes[off + 8..off + 16];
    var clen := RdLe(lens[..8]);
    var ulen := RdLe(lens[8..]);
    if ulen != due {
      return Err("vgdelta: " + what + " size mismatch");
    }
    var comp: seq<byte> := [];
    if clen > 0 {
      ok, comp := PreadAll(src, clen, off + 16);
      if !ok {
        return Err("vgdelta: short " + what);
      }
    }
    assert comp == src.bytes[off + 16..off + 16 + clen];
    var raw := ZDecompress(z, comp, ulen);
    if |raw| != ulen {
      return Err("vgdelta: " + what + " corrupt");
    }
    r := Ok((raw, off + 16 + clen));
  }

  /** The segment records, and the running 64-bit sum of their lengths. */
  method ReadSegs(raw: seq<byte>, n: nat) returns (segs: seq<RawSeg>, tpos: u64)
    requires |raw| == SEG_BYTES * n
    ensures segs == DecodeSegs(raw, n) && tpos == Wrap(TotalLen(segs))
  {
    segs, tpos := [], 0;
    assert raw[..0] == [];
    for i := 0 to n
      invariant segs == DecodeSegs(raw[..SEG_BYTES * i], i) && tpos == Wrap(TotalLen(segs))
    {
      var rec := raw[SEG_BYTES * i..SEG_BYTES * (i + 1)];
      var upTo := raw[..SEG_BYTES * (i + 1)];
      assert upTo[..SEG_BYTES * i] == raw[..SEG_BYTES * i] && upTo[SEG_BYTES * i..] == rec;
      var s := DecodeSeg(rec);
      assert (segs + [s])[..i] == segs;
      tpos := Wrap(tpos + s.len);
      segs := segs + [s];
    }
    assert raw[..SEG_BYTES * n] == raw;
  }

  method ReadBlocks(raw: seq<byte>, n: nat) returns (blocks: seq<BlockRec>)
    requires |raw| == BLK_BYTES * n
    ensures blocks == DecodeBlocks(raw, n)
  {
    blocks := [];
    assert raw[..0] == [];
    for i := 0 to n
      invariant blocks == DecodeBlocks(raw[..BLK_BYTES * i], i)
    {
      var rec := raw[BLK_BYTES * i..BLK_BYTES * (i + 1)];
      var upTo := raw[..BLK_BYTES * (i + 1)];
      assert upTo[..BLK_BYTES * i] == raw[..BLK_BYTES * i] && upTo[BLK_BYTES * i..] == rec;
      blocks := blocks + [DecodeBlock(rec)];
    }
    assert raw[..BLK_BYTES * n] == raw;
  }

  method ReadHeader(src: Source) returns (r: Result<Header, string>)
    requires Faithful(src)
    ensures r.Ok? ==> r == ParseHeader(src.bytes)
    ensures Live(src) ==> r == ParseHeader(src.bytes)
  {
    hide Faithful, Live, Un;
    var ok, hdr := PreadAll(src, HEADER_SIZE, 0);
    if !ok {
      return Err("vgdelta: short header");
    }
    var f := src.bytes;
    assert hdr[0..4] == f[0..4] && hdr[4..8] == f[4..8] && hdr[8..12] == f[8..12] && hdr[12..20] == f[12..20];
    assert hdr[20..28] == f[20..28] && hdr[28..36] == f[28..36] && hdr[36..40] == f[36..40] && hdr[40..44] == f[40..44];
    if hdr[0..4] != MAGIC {
      return Err("vgdelta: bad magic");
    }
    var version := RdLe(hdr[4..8]);
    if version != VERSION {
      return Err("vgdelta: unsupported version");
    }
    var blockSize := RdLe(hdr[8..12]);
    var targetSize := RdLe(hdr[12..20]);
    var baseSize := RdLe(hdr[20..28]);
    var baseHash := RdLe(hdr[28..36]);
    var numSeg := RdLe(hdr[36..40]);
    var numBlk := RdLe(hdr[40..44]);
    FieldsFit(f);
    if blockSize == 0 {
      return Err("vgdelta: zero block size");
    }
    r := Ok(Header(blockSize, targetSize, baseSize, baseHash, numSeg, numBlk));
  }

  /**
   * Over a source that can be read, the parser is exactly ParseBytes of the file; a failing source only
   * adds errors.
   */
  method ParseDelta(z: Codec, src: Source) returns (r: Result<Tables, string>)
    requires Faithful(src)
    ensures r.Ok? ==> r == ParseBytes(z, src.bytes)
    ensures Live(src) ==> r == ParseBytes(z, src.bytes)
  {
    hide ParseHeader, ParseTable, Faithful, Live, DecodeSegs, DecodeBlocks, TotalLen, Wrap;
    var header := ReadHeader(src);
    if header.Err? {
      return Err(header.error);
    }
    var h := header.value;
    var segTable := ReadTable(z, src, HEADER_SIZE, SEG_BYTES * h.numSeg, "seg", "seg table");
    if segTable.Err? {
      return Err(segTable.error);
    }
    TableLength(z, src.bytes, HEADER_SIZE, SEG_BYTES * h.numSeg, "seg", "seg table");
    var segs, tpos := ReadSegs(segTable.value.0, h.numSeg);
    if tpos != h.targetSize {
      return Err("vgdelta: segments do not cover target");
    }
    var blkTable := ReadTable(z, src, segTable.value.1, BLK_BYTES * h.numBlk, "blk", "blk index");
    if blkTable.Err? {
      return Err(blkTable.error);
    }
    TableLength(z, src.bytes, segTable.value.1, BLK_BYTES * h.numBlk, "blk", "blk index");
    var blocks := ReadBlocks(blkTable.value.0, h.numBlk);
    r := Ok(Tables(h.blockSize, h.targetSize, h.baseSize, h.baseHash, segs, blocks, blkTable.value.1));
  }

  lemma TableLength(z: Codec, f: seq<byte>, off: nat, due: nat, unit: string, what: string)
    ensures ParseTable(z, f, off, due, unit, what).Ok? ==> |ParseTable(z, f, off, due, unit, what).value.0| == due
  {
  }
}
