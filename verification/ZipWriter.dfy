/** A standard archive writer, and that what it writes is laid out as the walk expects. */
module ZipWriter {
  import opened Bytes
  import opened Sources
  import opened ZipScan

  // ---- packed fields ----

  datatype Packed = Packed(x: nat, w: nat)

  function Pack(ws: seq<Packed>): seq<byte> {
    if ws == [] then [] else Pack(ws[..|ws| - 1]) + Le(ws[|ws| - 1].x, ws[|ws| - 1].w)
  }

  function Widths(ws: seq<Packed>): nat {
    if ws == [] then 0 else Widths(ws[..|ws| - 1]) + ws[|ws| - 1].w
  }

  lemma {:induction false} PackLength(ws: seq<Packed>)
    ensures |Pack(ws)| == Widths(ws)
  {
    if ws != [] { PackLength(ws[..|ws| - 1]); }
  }

  /** A packed field reads back at the sum of the widths before it. */
  lemma {:induction false} PackedField(ws: seq<Packed>, i: nat)
    requires i < |ws| && ws[i].x < Pow256(ws[i].w)
    ensures Widths(ws[..i]) + ws[i].w <= |Pack(ws)|
    ensures Field(Pack(ws), Widths(ws[..i]), ws[i].w) == ws[i].x
  {
    var front, last := ws[..|ws| - 1], ws[|ws| - 1];
    PackLength(ws);
    PackLength(front);
    if i < |front| {
      PackedField(front, i);
      assert front[..i] == ws[..i];
      FieldOfLeft(Pack(front), Le(last.x, last.w), Widths(ws[..i]), ws[i].w);
    } else {
      assert ws[..i] == front;
      var f := Pack(ws);
      assert f[|Pack(front)|..|Pack(front)| + last.w] == Le(last.x, last.w);
      FieldOfLe(f, |Pack(front)|, last.w, last.x);
    }
  }

  lemma FieldOfLeft(a: seq<byte>, b: seq<byte>, off: nat, w: nat)
    requires off + w <= |a|
    ensures Field(a + b, off, w) == Field(a, off, w)
  {
    assert (a + b)[off..off + w] == a[off..off + w];
  }

  lemma WidthsStep(ws: seq<Packed>, i: nat)
    requires i < |ws|
    ensures Widths(ws[..i + 1]) == Widths(ws[..i]) + ws[i].w
  {
    assert ws[..i + 1][..i] == ws[..i];
  }

  // ---- central directory records ----

  /** APPNOTE section 4.3.12, the fixed part of a record. */
  function Header(e: Entry): seq<Packed> {
    [ Packed(CENTRAL_SIG, 4), Packed(45, 2), Packed(45, 2), Packed(0, 2), Packed(e.compression, 2), Packed(0, 2),
      Packed(0, 2), Packed(0, 4), Packed(Short(e.widePacked, e.packed), 4), Packed(Short(e.wideSize, e.size), 4),
      Packed(|e.name|, 2), Packed(|ExtraBytes(e.extras)|, 2), Packed(|e.comment|, 2), Packed(0, 2), Packed(0, 2),
      Packed(0, 4), Packed(Short(e.wideOffset, e.offset), 4) ]
  }

  function Record(e: Entry): seq<byte> {
    Pack(Header(e)) + e.name + ExtraBytes(e.extras) + e.comment
  }

  function Records(es: seq<Entry>): seq<byte> {
    if es == [] then [] else Records(es[..|es| - 1]) + Record(es[|es| - 1])
  }

  lemma {:induction false} HeaderWidths(e: Entry)
    ensures var h := Header(e);
      && Widths(h[..0]) == 0 && Widths(h[..4]) == 10 && Widths(h[..8]) == 20 && Widths(h[..9]) == 24
      && Widths(h[..10]) == 28 && Widths(h[..11]) == 30 && Widths(h[..12]) == 32 && Widths(h[..16]) == 42
      && Widths(h) == 46
  {
    hide Widths, Short;
    var h := Header(e);
    assert Widths(h[..0]) == 0 by { NoWidth(); assert h[..0] == []; }
    WidthsStep(h, 0); WidthsStep(h, 1); WidthsStep(h, 2); WidthsStep(h, 3);
    WidthsStep(h, 4); WidthsStep(h, 5); WidthsStep(h, 6); WidthsStep(h, 7);
    WidthsStep(h, 8); WidthsStep(h, 9); WidthsStep(h, 10); WidthsStep(h, 11);
    WidthsStep(h, 12); WidthsStep(h, 13); WidthsStep(h, 14); WidthsStep(h, 15);
    WidthsStep(h, 16);
    assert h[..17] == h;
  }

  lemma NoWidth()
    ensures Widths([]) == 0
  {
  }

  lemma {:induction false} HeaderReads(e: Entry)
    requires EntryOk(e)
    ensures var x := Pack(Header(e));
      && |x| == 46
      && Field(x, 0, 4) == CENTRAL_SIG && Field(x, 10, 2) == e.compression
      && Field(x, 20, 4) == Short(e.widePacked, e.packed) && Field(x, 24, 4) == Short(e.wideSize, e.size)
      && Field(x, 28, 2) == |e.name| && Field(x, 30, 2) == |ExtraBytes(e.extras)|
      && Field(x, 32, 2) == |e.comment| && Field(x, 42, 4) == Short(e.wideOffset, e.offset)
  {
    hide Pack, Field, Widths, ExtraBytes;
    var h := Header(e);
    Pow256Values();
    HeaderWidths(e);
    PackLength(h);
    PackedField(h, 0);
    PackedField(h, 4);
    PackedField(h, 8);
    PackedField(h, 9);
    PackedField(h, 10);
    PackedField(h, 11);
    PackedField(h, 12);
    PackedField(h, 16);
  }

  lemma RecordReads(e: Entry)
    requires EntryOk(e)
    ensures RecordAt(Record(e), 0, e) && |Record(e)| == RecordSize(e)
  {
    hide Pack, Header, ExtraBytes, Field, Cut;
    HeaderReads(e);
    var h, x := Pack(Header(e)), ExtraBytes(e.extras);
    var rest := e.name + x + e.comment;
    assert Record(e) == h + rest;
    FieldOfLeft(h, rest, 0, 4);
    FieldOfLeft(h, rest, 10, 2);
    FieldOfLeft(h, rest, 20, 4);
    FieldOfLeft(h, rest, 24, 4);
    FieldOfLeft(h, rest, 28, 2);
    FieldOfLeft(h, rest, 30, 2);
    FieldOfLeft(h, rest, 32, 2);
    FieldOfLeft(h, rest, 42, 4);
    CutLeft(h + e.name, x + e.comment, 46, 46 + |e.name|);
    CutRight(h, e.name);
    assert h + e.name + (x + e.comment) == Record(e);
    CutLeft(h + e.name + x, e.comment, 46 + |e.name|, 46 + |e.name| + |x|);
    CutRight(h + e.name, x);
  }

  /** A record read inside a longer file. */
  lemma RecordShifts(f: seq<byte>, p: nat, e: Entry)
    requires p + RecordSize(e) <= |f| && RecordAt(f[p..p + RecordSize(e)], 0, e)
    ensures RecordAt(f, p, e)
  {
    hide Field, Cut, ExtraBytes, Short;
    var n := RecordSize(e);
    FieldOfSlice(f, p, n, 0, 4);
    FieldOfSlice(f, p, n, 10, 2);
    FieldOfSlice(f, p, n, 20, 4);
    FieldOfSlice(f, p, n, 24, 4);
    FieldOfSlice(f, p, n, 28, 2);
    FieldOfSlice(f, p, n, 30, 2);
    FieldOfSlice(f, p, n, 32, 2);
    FieldOfSlice(f, p, n, 42, 4);
    SliceIsCut(f, p, p + n);
    CutOfCut(f, p, p + n, 46, 46 + |e.name|);
    CutOfCut(f, p, p + n, 46 + |e.name|, 46 + |e.name| + |ExtraBytes(e.extras)|);
  }

  lemma SliceIsCut<T>(f: seq<T>, a: nat, b: nat)
    requires a <= b <= |f|
    ensures f[a..b] == Cut(f, a, b)
  {
  }

  /** Record `i` of a directory that starts at `|body|`. */
  lemma {:induction false} RecordsAt(body: seq<byte>, es: seq<Entry>, rest: seq<byte>, i: nat)
    requires i < |es| && forall k :: 0 <= k < |es| ==> EntryOk(es[k])
    ensures RecordStart(es, |body|, i) + RecordSize(es[i]) <= |body + Records(es) + rest|
    ensures RecordAt(body + Records(es) + rest, RecordStart(es, |body|, i), es[i])
    ensures RecordStart(es, |body|, |es|) == |body| + |Records(es)|
    decreases |es|
  {
    hide Record, RecordAt, EntryOk, RecordSize;
    var front, last := es[..|es| - 1], es[|es| - 1];
    var f := body + Records(es) + rest;
    RecordReads(last);
    StartsAt(body, es, |es| - 1);
    assert f == body + Records(front) + (Record(last) + rest);
    if i < |es| - 1 {
      RecordsAt(body, front, Record(last) + rest, i);
      SameStart(es, |body|, i);
    } else {
      var p := |body| + |Records(front)|;
      assert f[p..p + |Record(last)|] == Record(last);
      RecordShifts(f, p, last);
    }
  }

  lemma {:induction false} StartsAt(body: seq<byte>, es: seq<Entry>, i: nat)
    requires i <= |es| && forall k :: 0 <= k < |es| ==> EntryOk(es[k])
    ensures RecordStart(es, |body|, i) == |body| + |Records(es[..i])|
  {
    hide EntryOk, RecordSize, Record;
    if i > 0 {
      StartsAt(body, es, i - 1);
      RecordReads(es[i - 1]);
      assert es[..i][..i - 1] == es[..i - 1];
    }
  }

  lemma {:induction false} SameStart(es: seq<Entry>, cd: nat, i: nat)
    requires i <= |es| - 1
    ensures RecordStart(es[..|es| - 1], cd, i) == RecordStart(es, cd, i)
  {
    if i > 0 { SameStart(es, cd, i - 1); }
  }

  // ---- the end records ----

  predicate NeedsWideEnd(count: nat, cd: nat) {
    count >= SENTINEL16 || cd >= SENTINEL32
  }

  /** APPNOTE section 4.3.14. */
  function End64(count: nat, size: nat, cd: nat): seq<Packed> {
    [ Packed(END64_SIG, 4), Packed(44, 8), Packed(45, 2), Packed(45, 2), Packed(0, 4), Packed(0, 4),
      Packed(count, 8), Packed(count, 8), Packed(size, 8), Packed(cd, 8) ]
  }

  /** APPNOTE section 4.3.15. */
  function Locator(end64: nat): seq<Packed> {
    [ Packed(LOCATOR_SIG, 4), Packed(0, 4), Packed(end64, 8), Packed(1, 4) ]
  }

  /** APPNOTE section 4.3.16. */
  function End(count: nat, size: nat, cd: nat, comment: seq<byte>): seq<Packed> {
    var n := if count >= SENTINEL16 then SENTINEL16 else count;
    [ Packed(END_SIG, 4), Packed(0, 2), Packed(0, 2), Packed(n, 2), Packed(n, 2),
      Packed(if size >= SENTINEL32 then SENTINEL32 else size, 4),
      Packed(if cd >= SENTINEL32 then SENTINEL32 else cd, 4),
      Packed(|comment|, 2) ]
  }

  function WideTail(count: nat, size: nat, cd: nat): seq<byte> {
    if NeedsWideEnd(count, cd) then Pack(End64(count, size, cd)) + Pack(Locator(cd + size)) else []
  }

  /** The archive: the local entries, the central directory, the end records. */
  function Write(body: seq<byte>, es: seq<Entry>, comment: seq<byte>): seq<byte> {
    var size := |Records(es)|;
    body + Records(es) + WideTail(|es|, size, |body|) + Pack(End(|es|, size, |body|, comment)) + comment
  }

  function LayoutOf(body: seq<byte>, es: seq<Entry>): Layout {
    var size := |Records(es)|;
    Layout(|body| + size + |WideTail(|es|, size, |body|)|, |body|, |body| + size)
  }

  lemma {:induction false} End64Reads(count: u64, size: u64, cd: u64)
    ensures var x := Pack(End64(count, size, cd));
      |x| == 56 && Field(x, 0, 4) == END64_SIG && Field(x, 32, 8) == count && Field(x, 48, 8) == cd
  {
    hide Pack, Field, Widths;
    var h := End64(count, size, cd);
    Pow256Values();
    NoWidth();
    assert h[..0] == [];
    WidthsStep(h, 0); WidthsStep(h, 1); WidthsStep(h, 2); WidthsStep(h, 3); WidthsStep(h, 4);
    WidthsStep(h, 5); WidthsStep(h, 6); WidthsStep(h, 7); WidthsStep(h, 8); WidthsStep(h, 9);
    assert h[..10] == h;
    PackLength(h);
    PackedField(h, 0);
    PackedField(h, 7);
    PackedField(h, 9);
  }

  lemma {:induction false} LocatorReads(end64: u64)
    ensures var x := Pack(Locator(end64));
      |x| == 20 && Field(x, 0, 4) == LOCATOR_SIG && Field(x, 8, 8) == end64
  {
    hide Pack, Field, Widths;
    var h := Locator(end64);
    Pow256Values();
    NoWidth();
    assert h[..0] == [];
    WidthsStep(h, 0); WidthsStep(h, 1); WidthsStep(h, 2); WidthsStep(h, 3);
    assert h[..4] == h;
    PackLength(h);
    PackedField(h, 0);
    PackedField(h, 2);
  }

  lemma {:induction false} EndReads(count: nat, size: nat, cd: nat, comment: seq<byte>)
    requires |comment| < 0x1_0000
    ensures var x := Pack(End(count, size, cd, comment));
      && |x| == 22 && Field(x, 0, 4) == END_SIG
      && Field(x, 10, 2) == (if count >= SENTINEL16 then SENTINEL16 else count)
      && Field(x, 16, 4) == (if cd >= SENTINEL32 then SENTINEL32 else cd)
  {
    hide Pack, Field, Widths;
    var h := End(count, size, cd, comment);
    Pow256Values();
    NoWidth();
    assert h[..0] == [];
    WidthsStep(h, 0); WidthsStep(h, 1); WidthsStep(h, 2); WidthsStep(h, 3);
    WidthsStep(h, 4); WidthsStep(h, 5); WidthsStep(h, 6); WidthsStep(h, 7);
    assert h[..8] == h;
    PackLength(h);
    PackedField(h, 0);
    PackedField(h, 4);
    PackedField(h, 6);
  }

  /** A field of a piece is a field of the whole. */
  lemma FieldInside(a: seq<byte>, x: seq<byte>, b: seq<byte>, k: nat, w: nat)
    requires k + w <= |x|
    ensures Field(a + x + b, |a| + k, w) == Field(x, k, w)
  {
    var f := a + x + b;
    assert f[|a|..|a| + |x|] == x;
    FieldOfSlice(f, |a|, |x|, k, w);
  }

  lemma WriteEnd(body: seq<byte>, es: seq<Entry>, comment: seq<byte>)
    requires |comment| < 0x1_0000 && |Write(body, es, comment)| < TWO64
    ensures EndAt(Write(body, es, comment), |es|, LayoutOf(body, es))
  {
    hide Pack, Field, Records, End64, Locator, End;
    var size, f := |Records(es)|, Write(body, es, comment);
    var lay := LayoutOf(body, es);
    var recs, wide, end := Records(es), WideTail(|es|, size, |body|), Pack(End(|es|, size, |body|, comment));
    EndReads(|es|, size, |body|, comment);
    RecordsLong(es);
    FieldInside(body + recs + wide, end, comment, 0, 4);
    FieldInside(body + recs + wide, end, comment, 10, 2);
    FieldInside(body + recs + wide, end, comment, 16, 4);
    if NeedsWideEnd(|es|, |body|) {
      var e64, loc := Pack(End64(|es|, size, |body|)), Pack(Locator(|body| + size));
      End64Reads(|es|, size, |body|);
      LocatorReads(|body| + size);
      var after := loc + end + comment;
      assert f == (body + recs) + e64 + after;
      FieldInside(body + recs, e64, after, 0, 4);
      FieldInside(body + recs, e64, after, 32, 8);
      FieldInside(body + recs, e64, after, 48, 8);
      assert f == (body + recs + e64) + loc + (end + comment);
      FieldInside(body + recs + e64, loc, end + comment, 0, 4);
      FieldInside(body + recs + e64, loc, end + comment, 8, 8);
    }
  }

  /** A directory is longer than the number of its records, so a count always fits 64 bits. */
  lemma {:induction false} RecordsLong(es: seq<Entry>)
    ensures |Records(es)| >= |es|
  {
    if es != [] {
      RecordsLong(es[..|es| - 1]);
      HeaderWidths(es[|es| - 1]);
      PackLength(Header(es[|es| - 1]));
    }
  }

  /**
   * What the writer writes is laid out as the standard says, when no signature of its own turns up in
   * the end record.
   */
  lemma WriteLaysOut(body: seq<byte>, es: seq<Entry>, comment: seq<byte>)
    requires |comment| < 0x1_0000 && |Write(body, es, comment)| < TWO64
    requires forall i :: 0 <= i < |es| ==> EntryOk(es[i])
    requires NoFalseEnd(Write(body, es, comment), LayoutOf(body, es).end)
    ensures LaidOut(Write(body, es, comment), es, LayoutOf(body, es))
  {
    hide Pack, Field, Records, EndAt, NoFalseEnd, RecordAt, EntryOk, WideTail, End;
    WriteEnd(body, es, comment);
    var size := |Records(es)|;
    var rest := WideTail(|es|, size, |body|) + Pack(End(|es|, size, |body|, comment)) + comment;
    assert Write(body, es, comment) == body + Records(es) + rest;
    forall i | 0 <= i < |es|
      ensures RecordAt(Write(body, es, comment), RecordStart(es, |body|, i), es[i])
    {
      RecordsAt(body, es, rest, i);
    }
  }

  /** Write, then walk: the callback receives exactly what was written. */
  method WriteAndWalk(body: seq<byte>, es: seq<Entry>, comment: seq<byte>, goOn: Call -> bool)
    returns (ok: bool, calls: seq<Call>)
    requires |comment| < 0x1_0000 && |Write(body, es, comment)| < TWO64
    requires forall i :: 0 <= i < |es| ==> EntryOk(es[i])
    requires NoFalseEnd(Write(body, es, comment), LayoutOf(body, es).end)
    ensures ok && Delivered(calls, es, goOn)
  {
    hide Write, LaidOut, LayoutOf, EntryOk, NoFalseEnd;
    var f := Write(body, es, comment);
    WriteLaysOut(body, es, comment);
    MemSourceIsExact(f);
    ok, calls := WalkCentralDir(MemSource(f), goOn, es, LayoutOf(body, es));
  }
}
