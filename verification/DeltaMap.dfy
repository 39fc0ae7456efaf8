/** What a segment list means, and how a delta over a delta becomes one flat map over the ultimate base. */
module DeltaMap {
  import opened Bytes
  import opened DeltaFormat

  // ---- meaning of one delta over its immediate base ----

  /** A segment that can be served: a known kind, some bytes, and a source range that exists. */
  predicate SegOk(s: RawSeg, baseLen: nat, litLen: nat) {
    && s.len > 0
    && ((s.kind == KIND_COPY && s.srcOff + s.len <= baseLen) || (s.kind == KIND_ADD && s.srcOff + s.len <= litLen))
  }

  predicate SegsOk(segs: seq<RawSeg>, baseLen: nat, litLen: nat) {
    forall i :: 0 <= i < |segs| ==> SegOk(segs[i], baseLen, litLen)
  }

  function SegBytes(s: RawSeg, base: seq<byte>, lit: seq<byte>): (r: seq<byte>)
    requires SegOk(s, |base|, |lit|)
    ensures |r| == s.len
  {
    if s.kind == KIND_COPY then Cut(base, s.srcOff, s.srcOff + s.len) else Cut(lit, s.srcOff, s.srcOff + s.len)
  }

  /** The target a delta describes: its segments' bytes, one after the other. */
  function Apply(segs: seq<RawSeg>, base: seq<byte>, lit: seq<byte>): (r: seq<byte>)
    requires SegsOk(segs, |base|, |lit|)
    ensures |r| == TotalLen(segs)
  {
    if segs == [] then [] else
      Apply(segs[..|segs| - 1], base, lit) + SegBytes(segs[|segs| - 1], base, lit)
  }

  lemma ApplySnoc(segs: seq<RawSeg>, s: RawSeg, base: seq<byte>, lit: seq<byte>)
    requires SegsOk(segs, |base|, |lit|) && SegOk(s, |base|, |lit|)
    ensures SegsOk(segs + [s], |base|, |lit|)
    ensures Apply(segs + [s], base, lit) == Apply(segs, base, lit) + SegBytes(s, base, lit)
  {
    assert (segs + [s])[..|segs|] == segs;
  }

  /** More literals appended to the stream change nothing a delta already says. */
  lemma {:induction false} ApplyLitGrows(segs: seq<RawSeg>, base: seq<byte>, lit: seq<byte>, more: seq<byte>)
    requires SegsOk(segs, |base|, |lit|)
    ensures SegsOk(segs, |base|, |lit + more|) && Apply(segs, base, lit + more) == Apply(segs, base, lit)
  {
    if segs != [] {
      ApplyLitGrows(segs[..|segs| - 1], base, lit, more);
      var s := segs[|segs| - 1];
      assert SegOk(s, |base|, |lit|);
      if s.kind == KIND_ADD {
        CutLeft(lit, more, s.srcOff, s.srcOff + s.len);
      }
    }
  }

  // ---- the flat map ----

  /** A resolved segment: COPY reads the ultimate base, any other kind the literals of delta file `addSrc`. */
  datatype FlatSeg = FlatSeg(targetOff: u64, len: u64, srcOff: u64, addSrc: nat, kind: byte)

  ghost predicate FlatOk(s: FlatSeg, baseLen: nat, lits: seq<seq<byte>>) {
    && s.len > 0
    && ((s.kind == KIND_COPY && s.srcOff + s.len <= baseLen)
        || (s.kind != KIND_COPY && s.addSrc < |lits| && s.srcOff + s.len <= |lits[s.addSrc]|))
  }

  ghost predicate FlatsOk(segs: seq<FlatSeg>, baseLen: nat, lits: seq<seq<byte>>) {
    forall i :: 0 <= i < |segs| ==> FlatOk(segs[i], baseLen, lits)
  }

  function FlatLen(segs: seq<FlatSeg>): nat {
    if segs == [] then 0 else FlatLen(segs[..|segs| - 1]) + segs[|segs| - 1].len
  }

  ghost function FlatBytes(s: FlatSeg, base: seq<byte>, lits: seq<seq<byte>>): (r: seq<byte>)
    requires FlatOk(s, |base|, lits)
    ensures |r| == s.len
  {
    if s.kind == KIND_COPY then Cut(base, s.srcOff, s.srcOff + s.len)
      else Cut(lits[s.addSrc], s.srcOff, s.srcOff + s.len)
  }

  ghost function FlatApply(segs: seq<FlatSeg>, base: seq<byte>, lits: seq<seq<byte>>): (r: seq<byte>)
    requires FlatsOk(segs, |base|, lits)
    ensures |r| == FlatLen(segs)
  {
    if segs == [] then [] else
      FlatApply(segs[..|segs| - 1], base, lits) + FlatBytes(segs[|segs| - 1], base, lits)
  }

  /** Sorted and gap-free: the first segment starts at 0 and every other one where its predecessor ends. */
  ghost predicate Placed(segs: seq<FlatSeg>) {
    && (segs != [] ==> segs[0].targetOff == 0)
    && forall i, j :: 0 <= i && j == i + 1 < |segs| ==> segs[j].targetOff == segs[i].targetOff + segs[i].len
  }

  /** A flat map that covers [0, size) and can be served. */
  ghost predicate WellFlat(segs: seq<FlatSeg>, baseLen: nat, lits: seq<seq<byte>>, size: nat) {
    FlatsOk(segs, baseLen, lits) && Placed(segs) && FlatLen(segs) == size < TWO64
  }

  lemma {:induction false} FlatLenAppend(a: seq<FlatSeg>, b: seq<FlatSeg>)
    ensures FlatLen(a + b) == FlatLen(a) + FlatLen(b)
  {
    if b == [] {
      assert a + b == a;
    } else {
      assert (a + b)[..|a + b| - 1] == a + b[..|b| - 1];
      FlatLenAppend(a, b[..|b| - 1]);
    }
  }

  lemma FlatSnoc(segs: seq<FlatSeg>, s: FlatSeg, base: seq<byte>, lits: seq<seq<byte>>)
    requires FlatsOk(segs, |base|, lits) && FlatOk(s, |base|, lits)
    ensures FlatsOk(segs + [s], |base|, lits)
    ensures FlatApply(segs + [s], base, lits) == FlatApply(segs, base, lits) + FlatBytes(s, base, lits)
  {
    assert (segs + [s])[..|segs|] == segs;
  }

  lemma FlatsAppend(a: seq<FlatSeg>, b: seq<FlatSeg>, baseLen: nat, lits: seq<seq<byte>>)
    requires FlatsOk(a, baseLen, lits) && FlatsOk(b, baseLen, lits)
    ensures FlatsOk(a + b, baseLen, lits)
  {
  }

  lemma {:induction false} FlatApplyAppend(a: seq<FlatSeg>, b: seq<FlatSeg>, base: seq<byte>, lits: seq<seq<byte>>)
    requires FlatsOk(a, |base|, lits) && FlatsOk(b, |base|, lits)
    ensures FlatsOk(a + b, |base|, lits)
    ensures FlatApply(a + b, base, lits) == FlatApply(a, base, lits) + FlatApply(b, base, lits)
  {
    FlatsAppend(a, b, |base|, lits);
    if b == [] {
      assert a + b == a;
    } else {
      hide FlatBytes, FlatOk, FlatLen;
      var k := |b| - 1;
      var front, last := b[..k], b[k];
      assert b == front + [last];
      FlatApplyAppend(a, front, base, lits);
      FlatSnoc(a + front, last, base, lits);
      FlatSnoc(front, last, base, lits);
      Assoc(a, front, [last]);
      hide *;
      Assoc(FlatApply(a, base, lits), FlatApply(front, base, lits), FlatBytes(last, base, lits));
    }
  }

  /** Offsets play no part in what segments mean. */
  ghost predicate SameSource(a: seq<FlatSeg>, b: seq<FlatSeg>) {
    |a| == |b| && forall i :: 0 <= i < |a| ==> a[i] == b[i].(targetOff := a[i].targetOff)
  }

  lemma {:induction false} SameSourceSameBytes(a: seq<FlatSeg>, b: seq<FlatSeg>, base: seq<byte>, lits: seq<seq<byte>>)
    requires SameSource(a, b) && FlatsOk(b, |base|, lits)
    ensures FlatsOk(a, |base|, lits) && FlatLen(a) == FlatLen(b)
    ensures FlatApply(a, base, lits) == FlatApply(b, base, lits)
  {
    forall i | 0 <= i < |a| ensures FlatOk(a[i], |base|, lits) {
      assert FlatOk(b[i], |base|, lits);
    }
    if a != [] {
      SameSourceSameBytes(a[..|a| - 1], b[..|b| - 1], base, lits);
      assert FlatOk(b[|b| - 1], |base|, lits);
    }
  }

  /** One more literal store at the end keeps every older segment's meaning. */
  lemma {:induction false} FlatApplyMoreLits(segs: seq<FlatSeg>, base: seq<byte>, lits: seq<seq<byte>>, lit: seq<byte>)
    requires FlatsOk(segs, |base|, lits)
    ensures FlatsOk(segs, |base|, lits + [lit]) && FlatApply(segs, base, lits + [lit]) == FlatApply(segs, base, lits)
  {
    forall i | 0 <= i < |segs| ensures FlatOk(segs[i], |base|, lits + [lit]) {
      assert FlatOk(segs[i], |base|, lits);
    }
    if segs != [] {
      FlatApplyMoreLits(segs[..|segs| - 1], base, lits, lit);
      assert FlatOk(segs[|segs| - 1], |base|, lits);
    }
  }

  /** In a placed map, offsets are the lengths of what comes before. */
  lemma {:induction false} PlacedLen(segs: seq<FlatSeg>)
    requires Placed(segs) && segs != []
    ensures FlatLen(segs) == segs[|segs| - 1].targetOff + segs[|segs| - 1].len
  {
    var front := segs[..|segs| - 1];
    if front != [] {
      PlacedLen(front);
    }
  }

  lemma {:induction false} PlacedSorted(segs: seq<FlatSeg>, i: nat, j: nat)
    requires Placed(segs) && i < j < |segs|
    ensures segs[i].targetOff + segs[i].len <= segs[j].targetOff
    decreases j - i
  {
    if i + 1 < j {
      PlacedSorted(segs, i + 1, j);
      assert segs[i + 1].targetOff == segs[i].targetOff + segs[i].len;
    }
  }

  lemma PlacedEnds(segs: seq<FlatSeg>, i: nat)
    requires Placed(segs) && i < |segs|
    ensures segs[i].targetOff + segs[i].len <= FlatLen(segs)
  {
    PlacedLen(segs);
    if i < |segs| - 1 {
      PlacedSorted(segs, i, |segs| - 1);
    }
  }

  /** Segment `i` is what the map shows on its own range. */
  lemma {:induction false} FlatAt(segs: seq<FlatSeg>, i: nat, base: seq<byte>, lits: seq<seq<byte>>)
    requires FlatsOk(segs, |base|, lits) && Placed(segs) && i < |segs|
    ensures FlatOk(segs[i], |base|, lits) && segs[i].targetOff + segs[i].len <= FlatLen(segs)
    ensures Cut(FlatApply(segs, base, lits), segs[i].targetOff, segs[i].targetOff + segs[i].len)
         == FlatBytes(segs[i], base, lits)
  {
    hide Cut, FlatBytes, FlatOk, FlatApply;
    PlacedEnds(segs, i);
    var k := |segs| - 1;
    var front := segs[..k];
    assert front + [segs[k]] == segs;
    FlatSnoc(front, segs[k], base, lits);
    var x, s := FlatApply(front, base, lits), FlatBytes(segs[k], base, lits);
    if i < k {
      assert segs[i] == front[i];
      FlatAt(front, i, base, lits);
      CutLeft(x, s, segs[i].targetOff, segs[i].targetOff + segs[i].len);
    } else {
      PlacedLen(segs);
      CutRight(x, s);
    }
  }

  /** Part of segment `i`, from `from` to `to` inside its range. */
  lemma FlatPiece(segs: seq<FlatSeg>, i: nat, base: seq<byte>, lits: seq<seq<byte>>, d: nat, n: nat)
    requires FlatsOk(segs, |base|, lits) && Placed(segs) && i < |segs| && d + n <= segs[i].len
    ensures FlatOk(segs[i], |base|, lits) && segs[i].targetOff + d + n <= FlatLen(segs)
    ensures Cut(FlatApply(segs, base, lits), segs[i].targetOff + d, segs[i].targetOff + d + n)
         == Cut(FlatBytes(segs[i], base, lits), d, d + n)
  {
    hide *;
    FlatAt(segs, i, base, lits);
    var whole, a := FlatApply(segs, base, lits), segs[i].targetOff;
    var e := a + segs[i].len;
    CutOfCut(whole, a, e, d, d + n);
    CutPlus(whole, a, d, n);
  }

  // ---- std::upper_bound and SegAt ----

  /** First index in [lo, lo + n) whose segment starts after `o`, searched by halving. */
  function UpperBound(segs: seq<FlatSeg>, o: nat, lo: nat, n: nat): (r: nat)
    requires lo + n <= |segs|
    ensures lo <= r <= lo + n
    decreases n
  {
    if n == 0 then lo else
    var half := n / 2;
    if o < segs[lo + half].targetOff then UpperBound(segs, o, lo, half)
    else UpperBound(segs, o, lo + half + 1, n - half - 1)
  }

  function SegAt(segs: seq<FlatSeg>, o: nat): (r: nat)
    ensures segs != [] ==> r < |segs|
    ensures segs == [] ==> r == 0
  {
    var i := UpperBound(segs, o, 0, |segs|);
    if i > 0 then i - 1 else 0
  }

  lemma {:induction false} UpperBoundSplits(segs: seq<FlatSeg>, o: nat, lo: nat, n: nat)
    requires lo + n <= |segs|
    requires lo > 0 ==> segs[lo - 1].targetOff <= o
    requires lo + n < |segs| ==> o < segs[lo + n].targetOff
    ensures SplitsAt(segs, o, UpperBound(segs, o, lo, n))
    decreases n
  {
    if n > 0 {
      var half := n / 2;
      var mid := lo + half;
      assert lo <= mid < lo + n;
      if o < segs[mid].targetOff {
        UpperBoundSplits(segs, o, lo, half);
      } else {
        UpperBoundSplits(segs, o, mid + 1, n - half - 1);
      }
    }
  }

  predicate SplitsAt(segs: seq<FlatSeg>, o: nat, r: nat) {
    && r <= |segs|
    && (r > 0 ==> segs[r - 1].targetOff <= o)
    && (r < |segs| ==> o < segs[r].targetOff)
  }

  /** Inside the map the binary search finds the covering segment; past its end, the last one. */
  lemma SegAtCovers(segs: seq<FlatSeg>, o: nat)
    requires Placed(segs) && segs != []
    ensures segs[SegAt(segs, o)].targetOff <= o
    ensures o < FlatLen(segs) ==> o < segs[SegAt(segs, o)].targetOff + segs[SegAt(segs, o)].len
    ensures o >= FlatLen(segs) ==> o >= segs[SegAt(segs, o)].targetOff + segs[SegAt(segs, o)].len
  {
    UpperBoundSplits(segs, o, 0, |segs|);
    var i := SegAt(segs, o);
    PlacedEnds(segs, i);
    PlacedLen(segs);
  }

  // ---- composition ----

  /** One COPY of `rem` bytes at `m` of a flat base, cut along the base's segments from `bi` on; 64-bit arithmetic. */
  function ComposeCopy(b: seq<FlatSeg>, bi: nat, m: u64, rem: u64): Result<seq<FlatSeg>, string>
    decreases |b| - bi
  {
    if rem == 0 then Ok([]) else
    if bi >= |b| then Err("vgdelta: compose out of range") else
    var bs := b[bi];
    var bsEnd := Wrap(bs.targetOff + bs.len);
    if m < bs.targetOff || m >= bsEnd then Err("vgdelta: compose gap") else
    var take := Wrap(Min(bsEnd, Wrap(m + rem)) - m);
    var piece := FlatSeg(0, take, Wrap(bs.srcOff + (m - bs.targetOff)), bs.addSrc, bs.kind);
    match ComposeCopy(b, bi + 1, Wrap(m + take), Wrap(rem - take))
    case Err(e) => Err(e)
    case Ok(rest) => Ok([piece] + rest)
  }

  /** One segment of a delta over a flat base: every kind but ADD is cut like a COPY. */
  function ComposeSeg(s: RawSeg, b: seq<FlatSeg>, thisAdd: nat): Result<seq<FlatSeg>, string> {
    if s.kind == KIND_ADD then Ok([FlatSeg(0, s.len, s.srcOff, thisAdd, KIND_ADD)])
    else ComposeCopy(b, SegAt(b, s.srcOff), s.srcOff, s.len)
  }

  function Compose(segs: seq<RawSeg>, b: seq<FlatSeg>, thisAdd: nat): Result<seq<FlatSeg>, string> {
    if segs == [] then Ok([]) else
    match Compose(segs[..|segs| - 1], b, thisAdd)
    case Err(e) => Err(e)
    case Ok(done) =>
      match ComposeSeg(segs[|segs| - 1], b, thisAdd)
      case Err(e) => Err(e)
      case Ok(more) => Ok(done + more)
  }

  /** A delta straight over a source that is not a delta. */
  function Direct(segs: seq<RawSeg>): (r: seq<FlatSeg>)
    ensures |r| == |segs|
    ensures forall i :: 0 <= i < |segs| ==> r[i] == FlatSeg(0, segs[i].len, segs[i].srcOff, 0, segs[i].kind)
  {
    if segs == [] then [] else
      var s := segs[|segs| - 1];
      Direct(segs[..|segs| - 1]) + [FlatSeg(0, s.len, s.srcOff, 0, s.kind)]
  }

  /** Running 64-bit target offsets. */
  function Place(segs: seq<FlatSeg>): (r: seq<FlatSeg>)
    ensures |r| == |segs|
  {
    if segs == [] then [] else
      var front := segs[..|segs| - 1];
      Place(front) + [segs[|segs| - 1].(targetOff := Wrap(FlatLen(front)))]
  }

  /** The flat map of a delta over `base` (the base's own flat map, when the base is a delta). */
  function Flatten(t: Tables, base: Option<seq<FlatSeg>>, thisAdd: nat): Result<seq<FlatSeg>, string> {
    var cut := if base.Some? then Compose(t.segs, base.value, thisAdd) else Ok(Direct(t.segs));
    match cut
    case Err(e) => Err(e)
    case Ok(segs) =>
      if Wrap(FlatLen(segs)) != t.targetSize then Err("vgdelta: flat segments do not cover target") else Ok(Place(segs))
  }
}
