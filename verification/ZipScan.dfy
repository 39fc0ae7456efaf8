/** The central directory of an archive: the layout a standard writer leaves, and the walk that reads it back. */
module ZipScan {
  import opened Bytes
  import opened Sources

  const END_SIG := 0x06054b50
  const LOCATOR_SIG := 0x07064b50
  const END64_SIG := 0x06064b50
  const CENTRAL_SIG := 0x02014b50
  const LOCAL_SIG := 0x04034b50

  const SENTINEL16 := 0xFFFF
  const SENTINEL32 := 0xFFFFFFFF
  const ZIP64_ID := 1
  const MAX_TAIL := 22 + 65535

  /** What the callback receives for one entry. */
  datatype Call = Call(name: seq<byte>, compression: nat, offset: nat)

  /** One block of an extra field. */
  datatype Block = Block(id: nat, data: seq<byte>)

  /**
   * One entry as a writer knows it. A `wide` value is written as a sentinel in its 32-bit field, and in full in the
   * ZIP64 block of the extra field.
   */
  datatype Entry = Entry(
    name: seq<byte>, compression: nat, offset: u64, size: u64, packed: u64,
    wideOffset: bool, wideSize: bool, widePacked: bool,
    extras: seq<Block>, comment: seq<byte>)

  function CallOf(e: Entry): Call {
    Call(e.name, e.compression, e.offset)
  }

  function BlockBytes(b: Block): seq<byte> {
    Le(b.id, 2) + Le(|b.data|, 2) + b.data
  }

  function ExtraBytes(bs: seq<Block>): seq<byte> {
    if bs == [] then [] else ExtraBytes(bs[..|bs| - 1]) + BlockBytes(bs[|bs| - 1])
  }

  /** APPNOTE section 4.5.3: the wide values, in this order. */
  function Zip64Data(e: Entry): seq<byte> {
    (if e.wideSize then Le(e.size, 8) else []) +
    (if e.widePacked then Le(e.packed, 8) else []) +
    (if e.wideOffset then Le(e.offset, 8) else [])
  }

  function Short(wide: bool, x: nat): nat {
    if wide then 0xFFFF_FFFF else x
  }

  ghost predicate EntryOk(e: Entry) {
    && |e.name| < 0x1_0000 && |e.comment| < 0x1_0000 && e.compression < 0x1_0000 && |ExtraBytes(e.extras)| < 0x1_0000
    && (!e.wideOffset ==> e.offset < SENTINEL32) && (!e.wideSize ==> e.size < SENTINEL32)
    && (!e.widePacked ==> e.packed < SENTINEL32)
    && (forall i :: 0 <= i < |e.extras| ==> e.extras[i].id < 0x1_0000 && |e.extras[i].data| < 0x1_0000)
    && (e.wideOffset ==> exists i :: IsZip64At(e, i))
  }

  /** Block `i` is the first ZIP64 block, and begins with the wide values. */
  ghost predicate IsZip64At(e: Entry, i: nat) {
    && i < |e.extras| && e.extras[i].id == 0x0001 && Zip64Data(e) <= e.extras[i].data
    && forall j :: 0 <= j < i ==> e.extras[j].id != 0x0001
  }

  function RecordSize(e: Entry): nat {
    46 + |e.name| + |ExtraBytes(e.extras)| + |e.comment|
  }

  /** Where record `i` starts in a central directory at `cd`. */
  function RecordStart(es: seq<Entry>, cd: nat, i: nat): nat
    requires i <= |es|
  {
    if i == 0 then cd else RecordStart(es, cd, i - 1) + RecordSize(es[i - 1])
  }

  /** APPNOTE section 4.3.12: a central directory record for `e` at `p`. */
  ghost predicate RecordAt(f: seq<byte>, p: nat, e: Entry) {
    && p + RecordSize(e) <= |f|
    && Field(f, p, 4) == 0x02014b50
    && Field(f, p + 10, 2) == e.compression
    && Field(f, p + 20, 4) == Short(e.widePacked, e.packed)
    && Field(f, p + 24, 4) == Short(e.wideSize, e.size)
    && Field(f, p + 28, 2) == |e.name|
    && Field(f, p + 30, 2) == |ExtraBytes(e.extras)|
    && Field(f, p + 32, 2) == |e.comment|
    && Field(f, p + 42, 4) == Short(e.wideOffset, e.offset)
    && Cut(f, p + 46, p + 46 + |e.name|) == e.name
    && Cut(f, p + 46 + |e.name|, p + 46 + |e.name| + |ExtraBytes(e.extras)|) == ExtraBytes(e.extras)
  }

  /** Where the end record and the central directory are; `end64` is used when either field holds a sentinel. */
  datatype Layout = Layout(end: nat, cd: nat, end64: nat)

  ghost predicate WideEnd(f: seq<byte>, lay: Layout)
    requires lay.end + 22 <= |f|
  {
    Field(f, lay.end + 16, 4) == 0xFFFF_FFFF || Field(f, lay.end + 10, 2) == 0xFFFF
  }

  /** APPNOTE sections 4.3.14 to 4.3.16: the end record and, where a sentinel stands, the ZIP64 records. */
  ghost predicate EndAt(f: seq<byte>, count: nat, lay: Layout) {
    && lay.end + 22 <= |f| <= lay.end + 22 + 65535
    && Field(f, lay.end, 4) == 0x06054b50
    && (!WideEnd(f, lay) ==> Field(f, lay.end + 16, 4) == lay.cd && Field(f, lay.end + 10, 2) == count)
    && (WideEnd(f, lay) ==>
          && lay.end >= 20 && Field(f, lay.end - 20, 4) == 0x07064b50 && Field(f, lay.end - 12, 8) == lay.end64
          && lay.end64 + 56 <= |f| && Field(f, lay.end64, 4) == 0x06064b50
          && Field(f, lay.end64 + 32, 8) == count && Field(f, lay.end64 + 48, 8) == lay.cd)
  }

  /** What the scan for the end record looks for: its signature where a whole record fits. */
  predicate LooksLikeEnd(f: seq<byte>, i: nat) {
    i + 22 <= |f| && Field(f, i, 4) == 0x06054b50
  }

  /** Nothing after the end record's own signature, in it or in its comment, reads as another. */
  ghost predicate NoFalseEnd(f: seq<byte>, end: nat) {
    forall i: nat :: end < i ==> !LooksLikeEnd(f, i)
  }

  /** An archive of the entries `es`, laid out as the standard says. */
  ghost predicate LaidOut(f: seq<byte>, es: seq<Entry>, lay: Layout) {
    && EndAt(f, |es|, lay) && NoFalseEnd(f, lay.end)
    && forall i :: 0 <= i < |es| ==> EntryOk(es[i]) && RecordAt(f, RecordStart(es, lay.cd, i), es[i])
  }

  /** The entries in order, up to and including the first at which the callback stops. */
  ghost predicate Delivered(calls: seq<Call>, es: seq<Entry>, goOn: Call -> bool) {
    && |calls| <= |es|
    && (forall i :: 0 <= i < |calls| ==>
      calls[i].name == es[i].name && calls[i].compression == es[i].compression && calls[i].offset == es[i].offset)
    && (forall i :: 0 <= i < |calls| - 1 ==> goOn(calls[i]))
    && (|calls| < |es| ==> calls != [] && !goOn(calls[|calls| - 1]))
  }

  lemma FieldOfSlice(f: seq<byte>, off: nat, n: nat, k: nat, w: nat)
    requires off + n <= |f| && k + w <= n
    ensures Field(f[off..off + n], k, w) == Field(f, off + k, w)
  {
    CutOfCut(f, off, off + n, k, k + w);
  }

  /** Backwards from the last place an end record fits, to the first signature met. */
  method FindEnd(buf: seq<byte>) returns (i: int)
    requires |buf| >= 22
    ensures i < 0 ==> forall k: nat :: !LooksLikeEnd(buf, k)
    ensures i >= 0 ==> LooksLikeEnd(buf, i) && NoFalseEnd(buf, i)
  {
    i := |buf| - 22;
    while i >= 0
      invariant -1 <= i <= |buf| - 22
      invariant forall k: nat :: i < k ==> !LooksLikeEnd(buf, k)
    {
      if Field(buf, i, 4) == END_SIG { return; }
      i := i - 1;
    }
  }

  function TailOf(size: nat): nat {
    if size < MAX_TAIL then size else MAX_TAIL
  }

  lemma TailEnds(f: seq<byte>, i: nat)
    requires |f| - TailOf(|f|) + i <= |f|
    ensures LooksLikeEnd(f[|f| - TailOf(|f|)..|f|], i) <==> LooksLikeEnd(f, |f| - TailOf(|f|) + i)
  {
    if i + 22 <= TailOf(|f|) { FieldOfSlice(f, |f| - TailOf(|f|), TailOf(|f|), i, 4); }
  }

  lemma EndFound(f: seq<byte>, es: seq<Entry>, lay: Layout, i: int)
    requires LaidOut(f, es, lay)
    requires var buf := f[|f| - TailOf(|f|)..|f|];
      if i < 0 then forall k: nat :: !LooksLikeEnd(buf, k) else LooksLikeEnd(buf, i) && NoFalseEnd(buf, i)
    ensures i >= 0 && |f| - TailOf(|f|) + i == lay.end
  {
    var base := |f| - TailOf(|f|);
    TailEnds(f, lay.end - base);
    assert LooksLikeEnd(f, lay.end);
    if i >= 0 { TailEnds(f, i); }
  }

  // ---- one record ----

  lemma BlockFields(b: Block)
    requires b.id < 0x1_0000 && |b.data| < 0x1_0000
    ensures |BlockBytes(b)| == 4 + |b.data|
    ensures Field(BlockBytes(b), 0, 2) == b.id && Field(BlockBytes(b), 2, 2) == |b.data|
    ensures Cut(BlockBytes(b), 4, 4 + |b.data|) == b.data
  {
    Pow256Values();
    var x := BlockBytes(b);
    assert x[0..2] == Le(b.id, 2) && x[2..4] == Le(|b.data|, 2);
    FieldOfLe(x, 0, 2, b.id);
    FieldOfLe(x, 2, 2, |b.data|);
  }

  /** Block `i` sits in the extra field right after those before it. */
  lemma {:induction false} BlockAt(bs: seq<Block>, i: nat)
    requires i < |bs|
    ensures |ExtraBytes(bs[..i])| + |BlockBytes(bs[i])| <= |ExtraBytes(bs)|
    ensures Cut(ExtraBytes(bs), |ExtraBytes(bs[..i])|, |ExtraBytes(bs[..i])| + |BlockBytes(bs[i])|) == BlockBytes(bs[i])
  {
    hide Cut, BlockBytes;
    var front := bs[..|bs| - 1];
    var last := bs[|bs| - 1];
    if i < |bs| - 1 {
      BlockAt(front, i);
      assert front[..i] == bs[..i];
      CutLeft(ExtraBytes(front), BlockBytes(last), |ExtraBytes(bs[..i])|, |ExtraBytes(bs[..i])| + |BlockBytes(bs[i])|);
    } else {
      CutRight(ExtraBytes(front), BlockBytes(last));
    }
  }

  lemma BlockReads(bs: seq<Block>, i: nat)
    requires i < |bs| && bs[i].id < 0x1_0000 && |bs[i].data| < 0x1_0000
    ensures var x := ExtraBytes(bs); var p := |ExtraBytes(bs[..i])|;
      && p + 4 + |bs[i].data| <= |x|
      && Field(x, p, 2) == bs[i].id && Field(x, p + 2, 2) == |bs[i].data|
      && Cut(x, p + 4, p + 4 + |bs[i].data|) == bs[i].data
      && |ExtraBytes(bs[..i + 1])| == p + 4 + |bs[i].data|
  {
    var x, p := ExtraBytes(bs), |ExtraBytes(bs[..i])|;
    var b := bs[i];
    BlockAt(bs, i);
    BlockFields(b);
    var n := 4 + |b.data|;
    FieldOfSlice(x, p, n, 0, 2);
    FieldOfSlice(x, p, n, 2, 2);
    CutOfCut(x, p, p + n, 4, n);
    assert bs[..i + 1][..i] == bs[..i];
  }

  lemma ValueReads(x: seq<byte>, p: nat, pre: seq<byte>, v: u64, rest: seq<byte>, n: nat)
    requires p + n <= |x| && Cut(x, p, p + n) == pre + Le(v, 8) + rest
    ensures Field(x, p + |pre|, 8) == v && p + |pre| + 8 <= p + n
  {
    Pow256Values();
    var k := |pre|;
    CutOfCut(x, p, p + n, k, k + 8);
    assert (pre + Le(v, 8) + rest)[k..k + 8] == Le(v, 8);
    assert x[p + k..p + k + 8] == Le(v, 8);
    FieldOfLe(x, p + k, 8, v);
  }

  /** The wide offset comes after the wide sizes. */
  lemma WideOffsetReads(x: seq<byte>, p: nat, e: Entry, n: nat)
    requires p + n <= |x| && e.wideOffset && Zip64Data(e) <= Cut(x, p, p + n)
    ensures var k := (if e.wideSize then 8 else 0) + (if e.widePacked then 8 else 0);
      k + 8 <= n && Field(x, p + k, 8) == e.offset
  {
    var data := Cut(x, p, p + n);
    var a := if e.wideSize then Le(e.size, 8) else [];
    var b := if e.widePacked then Le(e.packed, 8) else [];
    var rest := data[|Zip64Data(e)|..];
    assert data == Zip64Data(e) + rest;
    ValueReads(x, p, a + b, e.offset, rest, n);
  }

  /** While no ZIP64 block was met, there is a next block, and it reads back. */
  lemma NextBlock(e: Entry, k: nat)
    requires EntryOk(e) && e.wideOffset && k <= |e.extras| && forall j :: 0 <= j < k ==> e.extras[j].id != ZIP64_ID
    ensures k < |e.extras|
    ensures var x := ExtraBytes(e.extras); var p := |ExtraBytes(e.extras[..k])|; var b := e.extras[k];
      && p + 4 + |b.data| <= |x|
      && Field(x, p, 2) == b.id && Field(x, p + 2, 2) == |b.data|
      && Cut(x, p + 4, p + 4 + |b.data|) == b.data
      && |ExtraBytes(e.extras[..k + 1])| == p + 4 + |b.data|
  {
    hide ExtraBytes, Field, Cut, Zip64Data;
    var i :| IsZip64At(e, i);
    assert k <= i;
    BlockReads(e.extras, k);
  }

  lemma FirstZip64(x: seq<byte>, p: nat, e: Entry, k: nat)
    requires EntryOk(e) && e.wideOffset && k < |e.extras| && e.extras[k].id == ZIP64_ID
    requires forall j :: 0 <= j < k ==> e.extras[j].id != ZIP64_ID
    requires p + |e.extras[k].data| <= |x| && Cut(x, p, p + |e.extras[k].data|) == e.extras[k].data
    ensures var a := (if e.wideSize then 8 else 0) + (if e.widePacked then 8 else 0);
      a + 8 <= |e.extras[k].data| && Field(x, p + a, 8) == e.offset
  {
    hide Zip64Data, Cut, Field, ExtraBytes;
    var i :| IsZip64At(e, i);
    assert i == k;
    WideOffsetReads(x, p, e, |e.extras[k].data|);
  }

  lemma ShortOf(e: Entry)
    requires EntryOk(e)
    ensures Short(e.wideSize, e.size) == SENTINEL32 <==> e.wideSize
    ensures Short(e.widePacked, e.packed) == SENTINEL32 <==> e.widePacked
    ensures Short(e.wideOffset, e.offset) == SENTINEL32 <==> e.wideOffset
    ensures !e.wideOffset ==> Short(e.wideOffset, e.offset) == e.offset
  {
  }

  /** What the walk knows of the record when it turns to the extra field. */
  ghost predicate WideCase(e: Entry, extra: seq<byte>, size32: nat, packed32: nat) {
    && EntryOk(e) && e.wideOffset && extra == ExtraBytes(e.extras)
    && size32 == Short(e.wideSize, e.size) && packed32 == Short(e.widePacked, e.packed)
  }

  lemma WideFacts(e: Entry, extra: seq<byte>, size32: nat, packed32: nat)
    requires WideCase(e, extra, size32, packed32)
    ensures EntryOk(e) && e.wideOffset && extra == ExtraBytes(e.extras)
    ensures (size32 == SENTINEL32 <==> e.wideSize) && (packed32 == SENTINEL32 <==> e.widePacked)
    ensures |ExtraBytes(e.extras[..0])| == 0
  {
    ShortOf(e);
  }

  /** The 64-bit offset from the extra field, or `short` when it has none. */
  method WideOffset(extra: seq<byte>, size32: nat, packed32: nat, short: nat, ghost e: Entry) returns (r: nat)
    ensures WideCase(e, extra, size32, packed32) ==> r == e.offset
  {
    hide ExtraBytes, Zip64Data, IsZip64At, Cut, Field, WideCase, EntryOk;
    r := short;
    var at: nat := 0;
    ghost var k: nat := 0;
    ghost var good := WideCase(e, extra, size32, packed32);
    if good { WideFacts(e, extra, size32, packed32); }
    while at + 4 <= |extra|
      invariant good ==> k <= |e.extras| && at == |ExtraBytes(e.extras[..k])|
      invariant good ==> forall j :: 0 <= j < k ==> e.extras[j].id != ZIP64_ID
      decreases |extra| - at
    {
      var id, sz := Field(extra, at, 2), Field(extra, at + 2, 2);
      if good { NextBlock(e, k); }
      if at + 4 + sz > |extra| { break; }
      if id == ZIP64_ID {
        var f, end := at + 4, at + 4 + sz;
        if good { FirstZip64(extra, at + 4, e, k); }
        if size32 == SENTINEL32 && f + 8 <= end { f := f + 8; }
        if packed32 == SENTINEL32 && f + 8 <= end { f := f + 8; }
        if f + 8 <= end { r := Field(extra, f, 8); }
        return;
      }
      at := at + 4 + sz;
      k := k + 1;
    }
    if good { NextBlock(e, k); }
  }

  // ---- the walk ----

  lemma RecordFields(f: seq<byte>, p: nat, e: Entry, rec: seq<byte>)
    requires RecordAt(f, p, e) && p + 46 <= |f| && rec == f[p..p + 46]
    ensures Field(rec, 0, 4) == CENTRAL_SIG && Field(rec, 10, 2) == e.compression
    ensures Field(rec, 20, 4) == Short(e.widePacked, e.packed) && Field(rec, 24, 4) == Short(e.wideSize, e.size)
    ensures Field(rec, 28, 2) == |e.name| && Field(rec, 30, 2) == |ExtraBytes(e.extras)|
    ensures Field(rec, 32, 2) == |e.comment| && Field(rec, 42, 4) == Short(e.wideOffset, e.offset)
  {
    hide Field;
    FieldOfSlice(f, p, 46, 0, 4);
    FieldOfSlice(f, p, 46, 10, 2);
    FieldOfSlice(f, p, 46, 20, 4);
    FieldOfSlice(f, p, 46, 24, 4);
    FieldOfSlice(f, p, 46, 28, 2);
    FieldOfSlice(f, p, 46, 30, 2);
    FieldOfSlice(f, p, 46, 32, 2);
    FieldOfSlice(f, p, 46, 42, 4);
  }

  lemma RecordFits(f: seq<byte>, p: nat, e: Entry)
    requires RecordAt(f, p, e)
    ensures p + RecordSize(e) <= |f|
    ensures f[p + 46..p + 46 + |e.name|] == e.name
    ensures f[p + 46 + |e.name|..p + 46 + |e.name| + |ExtraBytes(e.extras)|] == ExtraBytes(e.extras)
  {
  }

  /**
   * One record at `pos`: what it delivers and where the next one starts; failure on a short read or a
   * bad signature.
   */
  method ReadRecord(s: Source, pos: nat, ghost e: Entry) returns (ok: bool, call: Call, next: nat)
    requires Faithful(s)
    ensures Live(s) && EntryOk(e) && RecordAt(s.bytes, pos, e) ==>
      ok && call == CallOf(e) && next == pos + RecordSize(e)
  {
    hide Field, RecordAt, EntryOk, ExtraBytes, Cut, Live, Faithful;
    ghost var good := Live(s) && EntryOk(e) && RecordAt(s.bytes, pos, e);
    if good { RecordFits(s.bytes, pos, e); LiveReads(s); ShortOf(e); }
    call, next := Call([], 0, 0), pos;
    var rec: seq<byte>;
    ok, rec := PreadAll(s, 46, pos);
    if !ok { return; }
    if good { RecordFields(s.bytes, pos, e, rec); }
    if Field(rec, 0, 4) != CENTRAL_SIG { return false, call, next; }
    var compression := Field(rec, 10, 2);
    var nameLen, extraLen, commLen := Field(rec, 28, 2), Field(rec, 30, 2), Field(rec, 32, 2);
    var packed32, size32 := Field(rec, 20, 4), Field(rec, 24, 4);
    var offset := Field(rec, 42, 4);
    var name: seq<byte>;
    ok, name := PreadAll(s, nameLen, pos + 46);
    if !ok { return; }
    if offset == SENTINEL32 {
      var got, extra := PreadAll(s, extraLen, pos + 46 + nameLen);
      if got && extraLen > 0 {
        if good && e.wideOffset {
          assert WideCase(e, extra, size32, packed32) by { IsWide(e, extra, size32, packed32); }
        }
        offset := WideOffset(extra, size32, packed32, offset, e);
      }
      if good && extraLen == 0 { WideNeedsExtra(e); }
    }
    call := Call(name, compression, offset);
    next := pos + 46 + nameLen + extraLen + commLen;
  }

  lemma LiveReads(s: Source)
    requires Live(s)
    ensures s.size <= |s.bytes|
  {
  }

  lemma IsWide(e: Entry, extra: seq<byte>, size32: nat, packed32: nat)
    requires EntryOk(e) && e.wideOffset && extra == ExtraBytes(e.extras)
    requires size32 == Short(e.wideSize, e.size) && packed32 == Short(e.widePacked, e.packed)
    ensures WideCase(e, extra, size32, packed32)
  {
  }

  lemma WideNeedsExtra(e: Entry)
    requires EntryOk(e) && e.wideOffset
    ensures |ExtraBytes(e.extras)| > 0
  {
    NextBlock(e, 0);
  }

  /** The end record, and through it the number of entries and the start of the central directory. */
  method ReadEnd(s: Source, ghost es: seq<Entry>, ghost lay: Layout) returns (ok: bool, count: nat, cd: nat)
    requires Faithful(s)
    ensures Live(s) && s.size == |s.bytes| && LaidOut(s.bytes, es, lay) ==> ok && count == |es| && cd == lay.cd
  {
    hide Field, LaidOut, Live, Faithful, LooksLikeEnd;
    ghost var good := Live(s) && s.size == |s.bytes| && LaidOut(s.bytes, es, lay);
    if good { EndFields(s.bytes, es, lay); }
    ok, count, cd := false, 0, 0;
    if s.size < 22 { return; }
    var tail := TailOf(s.size);
    var buf: seq<byte>;
    ok, buf := PreadAll(s, tail, s.size - tail);
    if !ok { return; }
    var end := FindEnd(buf);
    if good { EndFound(s.bytes, es, lay, end); }
    if end < 0 { return false, 0, 0; }
    EndIsThere(buf, end);
    if good { TailFields(s.bytes, lay, end); }
    count, cd := Field(buf, end + 10, 2), Field(buf, end + 16, 4);
    var endOff := s.size - tail + end;
    if cd == SENTINEL32 || count == SENTINEL16 {
      if endOff < 20 { return false, 0, 0; }
      var loc: seq<byte>;
      ok, loc := PreadAll(s, 20, endOff - 20);
      if !ok { return; }
      if good { FieldOfSlice(s.bytes, endOff - 20, 20, 0, 4); FieldOfSlice(s.bytes, endOff - 20, 20, 8, 8); }
      if Field(loc, 0, 4) != LOCATOR_SIG { return false, 0, 0; }
      var end64 := Field(loc, 8, 8);
      var z64: seq<byte>;
      ok, z64 := PreadAll(s, 56, end64);
      if !ok { return; }
      if good { End64Fields(s.bytes, end64); }
      if Field(z64, 0, 4) != END64_SIG { return false, 0, 0; }
      count, cd := Field(z64, 32, 8), Field(z64, 48, 8);
    }
  }

  lemma EndFields(f: seq<byte>, es: seq<Entry>, lay: Layout)
    requires LaidOut(f, es, lay)
    ensures EndAt(f, |es|, lay)
  {
  }

  lemma EndIsThere(buf: seq<byte>, i: nat)
    requires LooksLikeEnd(buf, i)
    ensures i + 22 <= |buf|
  {
  }

  lemma TailFields(f: seq<byte>, lay: Layout, i: nat)
    requires lay.end + 22 <= |f| && |f| - TailOf(|f|) + i == lay.end
    ensures var buf := f[|f| - TailOf(|f|)..|f|];
      Field(buf, i + 10, 2) == Field(f, lay.end + 10, 2) && Field(buf, i + 16, 4) == Field(f, lay.end + 16, 4)
  {
    FieldOfSlice(f, |f| - TailOf(|f|), TailOf(|f|), i + 10, 2);
    FieldOfSlice(f, |f| - TailOf(|f|), TailOf(|f|), i + 16, 4);
  }

  lemma End64Fields(f: seq<byte>, p: nat)
    requires p + 56 <= |f|
    ensures var z := f[p..p + 56];
      Field(z, 0, 4) == Field(f, p, 4) &&
      Field(z, 32, 8) == Field(f, p + 32, 8) && Field(z, 48, 8) == Field(f, p + 48, 8)
  {
    FieldOfSlice(f, p, 56, 0, 4);
    FieldOfSlice(f, p, 56, 32, 8);
    FieldOfSlice(f, p, 56, 48, 8);
  }

  /**
   * WalkCentralDir: over an archive a standard writer laid out, the callback receives exactly the writer's entries, in
   * order and with their 64-bit offsets, up to the first at which it stops.
   */
  method WalkCentralDir(s: Source, goOn: Call -> bool, ghost es: seq<Entry>, ghost lay: Layout)
    returns (ok: bool, calls: seq<Call>)
    requires Faithful(s)
    ensures Live(s) && s.size == |s.bytes| && LaidOut(s.bytes, es, lay) ==> ok && Delivered(calls, es, goOn)
  {
    hide LaidOut, Live, Faithful, EntryOk, RecordAt, RecordSize;
    ghost var good := Live(s) && s.size == |s.bytes| && LaidOut(s.bytes, es, lay);
    calls := [];
    var count, pos: nat;
    ok, count, pos := ReadEnd(s, es, lay);
    if !ok { return; }
    for i := 0 to count
      invariant good ==> count == |es| && pos == RecordStart(es, lay.cd, i) && |calls| == i
      invariant good ==> forall k :: 0 <= k < i ==> calls[k] == CallOf(es[k]) && goOn(calls[k])
    {
      if good { RecordLaid(s.bytes, es, lay, i); }
      var call: Call;
      var next: nat;
      ok, call, next := ReadRecord(s, pos,
        if i < |es| then es[i] else Entry([], 0, 0, 0, 0, false, false, false, [], []));
      if !ok { return; }
      calls := calls + [call];
      if !goOn(call) { return true, calls; }
      pos := next;
    }
    ok := true;
  }

  lemma RecordLaid(f: seq<byte>, es: seq<Entry>, lay: Layout, i: nat)
    requires LaidOut(f, es, lay) && i < |es|
    ensures EntryOk(es[i]) && RecordAt(f, RecordStart(es, lay.cd, i), es[i])
  {
  }

  /** LocalDataOffset: where the data of a local entry begins, by the lengths of its own header. */
  method LocalDataOffset(s: Source, header: nat) returns (r: Option<nat>)
    requires Faithful(s)
    ensures r.Some? ==>
      && header + 30 <= |s.bytes| && Field(s.bytes, header, 4) == 0x04034b50
      && r.value == header + 30 + Field(s.bytes, header + 26, 2) + Field(s.bytes, header + 28, 2)
    ensures Live(s) ==> (r.None? <==> header + 30 > |s.bytes| || Field(s.bytes, header, 4) != 0x04034b50)
  {
    hide Field;
    var ok, lh := PreadAll(s, 30, header);
    if !ok { return None; }
    FieldOfSlice(s.bytes, header, 30, 0, 4);
    FieldOfSlice(s.bytes, header, 30, 26, 2);
    FieldOfSlice(s.bytes, header, 30, 28, 2);
    if Field(lh, 0, 4) != LOCAL_SIG { return None; }
    r := Some(header + 30 + Field(lh, 26, 2) + Field(lh, 28, 2));
  }

  /** FirstCompressedEntry: the name of the first entry that is not merely stored. */
  method FirstCompressedEntry(s: Source, ghost es: seq<Entry>, ghost lay: Layout) returns (r: Option<seq<byte>>)
    requires Faithful(s)
    ensures Live(s) && s.size == |s.bytes| && LaidOut(s.bytes, es, lay) ==>
      && (r.None? <==> forall i :: 0 <= i < |es| ==> es[i].compression == 0)
      && (r.Some? ==> exists i :: 0 <= i < |es| && es[i].name == r.value && es[i].compression != 0
                        && forall j :: 0 <= j < i ==> es[j].compression == 0)
  {
    hide LaidOut, Live, Faithful;
    ghost var good := Live(s) && s.size == |s.bytes| && LaidOut(s.bytes, es, lay);
    var ok, calls := WalkCentralDir(s, (c: Call) => c.compression == 0, es, lay);
    if calls == [] || calls[|calls| - 1].compression == 0 {
      r := None;
      if good {
        forall i | 0 <= i < |es| ensures es[i].compression == 0 {
          assert calls[i].compression == es[i].compression;
        }
      }
    } else {
      r := Some(calls[|calls| - 1].name);
      if good {
        var n := |calls| - 1;
        assert calls[n].name == es[n].name;
        forall j | 0 <= j < n ensures es[j].compression == 0 {
          assert calls[j].compression == es[j].compression;
        }
      }
    }
  }
}
