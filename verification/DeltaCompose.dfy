/** Composition preserves meaning, fails exactly when it should (64-bit wrap-around aside), and flattens chains. */
module DeltaCompose {
  import opened Bytes
  import opened DeltaFormat
  import opened DeltaMap

  /** `take` bytes from `d` inside a flat segment. */
  function SubSeg(s: FlatSeg, d: nat, take: nat): (r: FlatSeg)
    requires 0 < take && d + take <= s.len && s.srcOff + s.len < TWO64
    ensures r.len == take
  {
    FlatSeg(0, take, s.srcOff + d, s.addSrc, s.kind)
  }

  lemma SubSegMeans(s: FlatSeg, d: nat, take: nat, base: seq<byte>, lits: seq<seq<byte>>)
    requires FlatOk(s, |base|, lits) && 0 < take && d + take <= s.len && s.srcOff + s.len < TWO64
    ensures FlatOk(SubSeg(s, d, take), |base|, lits)
    ensures FlatBytes(SubSeg(s, d, take), base, lits) == Cut(FlatBytes(s, base, lits), d, d + take)
  {
    hide Cut;
    var src := if s.kind == KIND_COPY then base else lits[s.addSrc];
    CutOfCut(src, s.srcOff, s.srcOff + s.len, d, d + take);
    CutPlus(src, s.srcOff, d, take);
  }

  /** All sources of a flat map are small enough for 64-bit offsets. */
  ghost predicate Addressable(base: seq<byte>, lits: seq<seq<byte>>) {
    |base| < TWO64 && forall i :: 0 <= i < |lits| ==> |lits[i]| < TWO64
  }

  /** How much of `rem` bytes at `m` segment `s` can serve. */
  function Take(s: FlatSeg, m: nat, rem: nat): (t: nat)
    requires s.targetOff <= m < s.targetOff + s.len && rem > 0
    ensures 0 < t <= rem && m - s.targetOff + t <= s.len
    ensures t < rem ==> m + t == s.targetOff + s.len
  {
    Min(s.targetOff + s.len, m + rem) - m
  }

  /** One turn of the cut, when nothing wraps around 64 bits. */
  lemma ComposeCopyStep(b: seq<FlatSeg>, bi: nat, m: u64, rem: u64)
    requires bi < |b| && rem > 0 && m + rem < TWO64
    requires b[bi].targetOff <= m < b[bi].targetOff + b[bi].len < TWO64 && b[bi].srcOff + b[bi].len < TWO64
    ensures var t := Take(b[bi], m, rem);
      ComposeCopy(b, bi, m, rem) == match ComposeCopy(b, bi + 1, m + t, rem - t)
        case Err(e) => Err(e)
        case Ok(rest) => Ok([SubSeg(b[bi], m - b[bi].targetOff, t)] + rest)
  {
    hide Wrap, Min, Take, SubSeg;
    var bs := b[bi];
    var t := Take(bs, m, rem);
    TakeIs(bs, m, rem);
  }

  /** The pieces of one turn, in the code's 64-bit terms. */
  lemma TakeIs(bs: FlatSeg, m: u64, rem: u64)
    requires rem > 0 && m + rem < TWO64
    requires bs.targetOff <= m < bs.targetOff + bs.len < TWO64 && bs.srcOff + bs.len < TWO64
    ensures var t := Take(bs, m, rem); var bsEnd := Wrap(bs.targetOff + bs.len);
      && m < bsEnd && Wrap(Min(bsEnd, Wrap(m + rem)) - m) == t && Wrap(m + t) == m + t && Wrap(rem - t) == rem - t
      && FlatSeg(0, t, Wrap(bs.srcOff + (m - bs.targetOff)), bs.addSrc, bs.kind) == SubSeg(bs, m - bs.targetOff, t)
  {
    var t := Take(bs, m, rem);
    WrapId(bs.targetOff + bs.len);
    WrapId(m + rem);
    WrapId(t);
    WrapId(bs.srcOff + (m - bs.targetOff));
    WrapId(m + t);
    WrapId(rem - t);
  }

  /** Where a cut stands in a well-formed base: what is left of the segment, and what follows it. */
  lemma StepFacts(b: seq<FlatSeg>, bi: nat, base: seq<byte>, lits: seq<seq<byte>>)
    requires WellFlat(b, |base|, lits, FlatLen(b)) && Addressable(base, lits) && bi < |b|
    ensures FlatOk(b[bi], |base|, lits)
    ensures b[bi].targetOff + b[bi].len <= FlatLen(b) < TWO64 && b[bi].srcOff + b[bi].len < TWO64
    ensures bi + 1 < |b| ==> b[bi + 1].targetOff == b[bi].targetOff + b[bi].len && b[bi + 1].len > 0
    ensures bi + 1 == |b| ==> b[bi].targetOff + b[bi].len == FlatLen(b)
  {
    PlacedEnds(b, bi);
    PlacedLen(b);
    if bi + 1 < |b| { assert FlatOk(b[bi + 1], |base|, lits); }
  }

  lemma PieceMeans(b: seq<FlatSeg>, bi: nat, m: nat, t: nat, base: seq<byte>, lits: seq<seq<byte>>)
    requires FlatsOk(b, |base|, lits) && Placed(b) && bi < |b| && b[bi].srcOff + b[bi].len < TWO64
    requires b[bi].targetOff <= m && 0 < t && m + t <= b[bi].targetOff + b[bi].len
    ensures m + t <= FlatLen(b)
    ensures var piece := SubSeg(b[bi], m - b[bi].targetOff, t);
      && FlatOk(piece, |base|, lits) && piece.len == t
      && FlatBytes(piece, base, lits) == Cut(FlatApply(b, base, lits), m, m + t)
  {
    hide *;
    var d := m - b[bi].targetOff;
    FlatPiece(b, bi, base, lits, d, t);
    SubSegMeans(b[bi], d, t, base, lits);
    assert b[bi].targetOff + d == m;
  }

  /** What a cut of `rem` bytes at `m` of `whole` has to be. */
  ghost predicate IsCut(r: seq<FlatSeg>, whole: seq<byte>, m: nat, rem: nat, base: seq<byte>, lits: seq<seq<byte>>)
    requires m + rem <= |whole|
  {
    FlatsOk(r, |base|, lits) && FlatLen(r) == rem && FlatApply(r, base, lits) == Cut(whole, m, m + rem)
  }

  /** A first piece and the rest of a cut, put together. */
  lemma CutJoins(whole: seq<byte>, piece: FlatSeg, rest: seq<FlatSeg>, m: nat, rem: nat, base: seq<byte>,
                 lits: seq<seq<byte>>)
    requires piece.len <= rem && m + rem <= |whole|
    requires FlatOk(piece, |base|, lits) && FlatBytes(piece, base, lits) == Cut(whole, m, m + piece.len)
    requires IsCut(rest, whole, m + piece.len, rem - piece.len, base, lits)
    ensures IsCut([piece] + rest, whole, m, rem, base, lits)
  {
    hide Cut, FlatBytes, FlatOk;
    FlatSnoc([], piece, base, lits);
    assert [] + [piece] == [piece];
    FlatApplyAppend([piece], rest, base, lits);
    FlatLenAppend([piece], rest);
    var mid, end := m + piece.len, m + rem;
    assert m + piece.len + (rem - piece.len) == end;
    CutJoin(whole, m, mid, end);
    assert FlatApply([piece], base, lits) == FlatBytes(piece, base, lits);
  }

  /** A COPY inside the base's range is cut into segments that denote exactly the bytes it names. */
  lemma {:induction false} ComposeCopyMeans(b: seq<FlatSeg>, bi: nat, m: u64, rem: u64, base: seq<byte>,
                                            lits: seq<seq<byte>>)
    requires WellFlat(b, |base|, lits, FlatLen(b)) && Addressable(base, lits)
    requires m + rem <= FlatLen(b)
    requires rem > 0 ==> bi < |b| && b[bi].targetOff <= m < b[bi].targetOff + b[bi].len
    ensures ComposeCopy(b, bi, m, rem).Ok?
    ensures IsCut(ComposeCopy(b, bi, m, rem).value, FlatApply(b, base, lits), m, rem, base, lits)
    decreases |b| - bi
  {
    hide Cut, FlatBytes, FlatOk;
    if rem == 0 {
      assert FlatApply([], base, lits) == [] == Cut(FlatApply(b, base, lits), m, m);
    } else {
      StepFacts(b, bi, base, lits);
      var t := Take(b[bi], m, rem);
      ComposeCopyMeans(b, bi + 1, m + t, rem - t, base, lits);
      ComposeCopyTurn(b, bi, m, rem, base, lits);
    }
  }

  lemma ComposeCopyTurn(b: seq<FlatSeg>, bi: nat, m: u64, rem: u64, base: seq<byte>, lits: seq<seq<byte>>)
    requires WellFlat(b, |base|, lits, FlatLen(b)) && Addressable(base, lits) && m + rem <= FlatLen(b) < TWO64
    requires rem > 0 && bi < |b| && b[bi].targetOff <= m < b[bi].targetOff + b[bi].len
    requires b[bi].targetOff + b[bi].len < TWO64 && b[bi].srcOff + b[bi].len < TWO64
    requires var t := Take(b[bi], m, rem);
      && ComposeCopy(b, bi + 1, m + t, rem - t).Ok?
      && IsCut(ComposeCopy(b, bi + 1, m + t, rem - t).value, FlatApply(b, base, lits), m + t, rem - t, base, lits)
    ensures ComposeCopy(b, bi, m, rem).Ok?
    ensures IsCut(ComposeCopy(b, bi, m, rem).value, FlatApply(b, base, lits), m, rem, base, lits)
  {
    hide Cut, FlatBytes, FlatOk, FlatsOk, Placed, ComposeCopy, FlatApply, FlatLen, IsCut, SubSeg, Take, Addressable;
    var t := Take(b[bi], m, rem);
    ComposeCopyStep(b, bi, m, rem);
    PieceMeans(b, bi, m, t, base, lits);
    var piece := SubSeg(b[bi], m - b[bi].targetOff, t);
    CutJoins(FlatApply(b, base, lits), piece, ComposeCopy(b, bi + 1, m + t, rem - t).value, m, rem, base, lits);
  }

  /** When the range leaves the base without wrapping around 64 bits, composition refuses it. */
  lemma {:induction false} ComposeCopyRefuses(b: seq<FlatSeg>, bi: nat, m: u64, rem: u64, base: seq<byte>,
                                              lits: seq<seq<byte>>)
    requires WellFlat(b, |base|, lits, FlatLen(b)) && Addressable(base, lits)
    requires rem > 0 && FlatLen(b) < m + rem < TWO64
    ensures ComposeCopy(b, bi, m, rem).Err?
    decreases |b| - bi
  {
    hide ComposeCopy, FlatOk, FlatsOk, FlatLen, Placed, Addressable;
    if bi < |b| {
      StepFacts(b, bi, base, lits);
    }
    if bi < |b| && b[bi].targetOff <= m < b[bi].targetOff + b[bi].len {
      ComposeCopyStep(b, bi, m, rem);
      var t := Take(b[bi], m, rem);
      ComposeCopyRefuses(b, bi + 1, m + t, rem - t, base, lits);
    } else {
      ComposeCopyGap(b, bi, m, rem);
    }
  }

  lemma ComposeCopyGap(b: seq<FlatSeg>, bi: nat, m: u64, rem: u64)
    requires rem > 0
    requires bi < |b| ==>
      b[bi].targetOff + b[bi].len < TWO64 && (m < b[bi].targetOff || m >= b[bi].targetOff + b[bi].len)
    ensures ComposeCopy(b, bi, m, rem).Err?
  {
    if bi < |b| {
      WrapId(b[bi].targetOff + b[bi].len);
    }
  }

  /**
   * When `m + rem` wraps around 64 bits, the end of the range computes as a number below `m`, the first base segment
   * is taken to hold all of it, and composition succeeds with a segment that reaches past the base.
   */
  lemma ComposeCopyWraps(b: seq<FlatSeg>, m: u64, rem: u64, base: seq<byte>, lits: seq<seq<byte>>)
    requires WellFlat(b, |base|, lits, FlatLen(b))
    requires m < FlatLen(b) && m + rem >= TWO64
    ensures b != []
    ensures var bs := b[SegAt(b, m)];
      ComposeCopy(b, SegAt(b, m), m, rem) ==
        Ok([FlatSeg(0, rem, Wrap(bs.srcOff + (m - bs.targetOff)), bs.addSrc, bs.kind)])
  {
    hide SegAt, FlatApply, FlatOk, FlatsOk, FlatBytes;
    SegAtCovers(b, m);
    var bi := SegAt(b, m);
    PlacedEnds(b, bi);
    var bs := b[bi];
    var bsEnd := Wrap(bs.targetOff + bs.len);
    assert bsEnd == bs.targetOff + bs.len;
    assert Wrap(m + rem) == m + rem - TWO64 < m;
    assert Wrap(Min(bsEnd, Wrap(m + rem)) - m) == rem;
    assert Wrap(rem - rem) == 0 && ComposeCopy(b, bi + 1, Wrap(m + rem), 0) == Ok([]);
    var piece := FlatSeg(0, rem, Wrap(bs.srcOff + (m - bs.targetOff)), bs.addSrc, bs.kind);
    assert [piece] + [] == [piece];
  }

  /** Exactly which COPY ranges a flat base of `n` bytes accepts. */
  predicate CopyAccepted(s: RawSeg, n: nat) {
    s.len == 0 || s.srcOff + s.len <= n || (s.srcOff < n && s.srcOff + s.len >= TWO64)
  }

  lemma ComposeSegAccepts(s: RawSeg, b: seq<FlatSeg>, thisAdd: nat, base: seq<byte>, lits: seq<seq<byte>>)
    requires WellFlat(b, |base|, lits, FlatLen(b)) && Addressable(base, lits)
    ensures ComposeSeg(s, b, thisAdd).Ok? <==> s.kind == KIND_ADD || CopyAccepted(s, FlatLen(b))
  {
    hide ComposeCopy, FlatOk, FlatsOk, FlatApply, FlatLen, Placed, Addressable, SegAt, IsCut, Wrap;
    if s.kind != KIND_ADD && s.len > 0 {
      var bi, n := SegAt(b, s.srcOff), FlatLen(b);
      if b != [] {
        SegAtCovers(b, s.srcOff);
        StepFacts(b, bi, base, lits);
      } else {
        EmptyMapIsEmpty();
      }
      if s.srcOff + s.len <= n {
        ComposeCopyMeans(b, bi, s.srcOff, s.len, base, lits);
      } else if s.srcOff + s.len < TWO64 {
        ComposeCopyRefuses(b, bi, s.srcOff, s.len, base, lits);
      } else if s.srcOff < n {
        ComposeCopyWraps(b, s.srcOff, s.len, base, lits);
      } else {
        ComposeCopyGap(b, bi, s.srcOff, s.len);
      }
    } else {
      ComposeNothing(b, s);
    }
  }

  lemma EmptyMapIsEmpty()
    ensures FlatLen([]) == 0
  {
  }

  lemma ComposeNothing(b: seq<FlatSeg>, s: RawSeg)
    ensures s.len == 0 ==> ComposeCopy(b, SegAt(b, s.srcOff), s.srcOff, s.len).Ok?
  {
  }

  /**
   * Composition over a well-formed flat base succeeds exactly when every segment that is not an ADD stays inside the
   * base, is empty, or starts inside it and runs past 2^64.
   */
  lemma {:induction false} ComposeSucceedsIff(segs: seq<RawSeg>, b: seq<FlatSeg>, thisAdd: nat, base: seq<byte>,
                                              lits: seq<seq<byte>>)
    requires WellFlat(b, |base|, lits, FlatLen(b)) && Addressable(base, lits)
    ensures Compose(segs, b, thisAdd).Ok? <==>
      forall i :: 0 <= i < |segs| ==> segs[i].kind == KIND_ADD || CopyAccepted(segs[i], FlatLen(b))
  {
    if segs != [] {
      var k := |segs| - 1;
      ComposeSucceedsIff(segs[..k], b, thisAdd, base, lits);
      ComposeSegAccepts(segs[k], b, thisAdd, base, lits);
      assert forall i :: 0 <= i < k ==> segs[..k][i] == segs[i];
    }
  }

  /**
   * "Fails exactly when some COPY leaves the base" is false: this COPY of 2^64 - 1 bytes at 1 is
   * accepted by a 2-byte base.
   */
  lemma ComposeAcceptsAWrappedCopy(base: seq<byte>)
    requires |base| == 2
    ensures var b := [FlatSeg(0, 2, 0, 0, KIND_COPY)];
      var s := RawSeg(KIND_COPY, TWO64 - 1, 1);
      WellFlat(b, |base|, [], 2) && s.srcOff + s.len > FlatLen(b) && Compose([s], b, 0).Ok?
  {
    var b := [FlatSeg(0, 2, 0, 0, KIND_COPY)];
    var s := RawSeg(KIND_COPY, TWO64 - 1, 1);
    assert b[..0] == [] && FlatLen(b) == 2;
    assert FlatOk(b[0], |base|, []);
    ComposeSucceedsIff([s], b, 0, base, []);
  }

  // ---- kinds the format does not name ----

  /** The map of a base read whole. */
  function Whole(n: u64): seq<FlatSeg> {
    [FlatSeg(0, n, 0, 0, KIND_COPY)]
  }

  /** Both source ranges a segment could mean are there. */
  ghost predicate InBoth(s: RawSeg, base: seq<byte>, lit: seq<byte>) {
    s.len > 0 && s.srcOff + s.len <= |base| < TWO64 && s.srcOff + s.len <= |lit| < TWO64
  }

  /** Over a base that is no delta the reader takes every kind but COPY for literals. */
  lemma OverPlain(s: RawSeg, base: seq<byte>, lit: seq<byte>)
    requires InBoth(s, base, lit)
    ensures FlatsOk(Direct([s]), |base|, [lit])
    ensures FlatApply(Direct([s]), base, [lit]) ==
      Cut(if s.kind == KIND_COPY then base else lit, s.srcOff, s.srcOff + s.len)
  {
    hide Cut;
    var f := FlatSeg(0, s.len, s.srcOff, 0, s.kind);
    assert [s][..0] == [] && Direct([s]) == [] + [f] == [f];
    FlatSingle(f, base, [lit]);
  }

  /** Over a base that is a delta, of the same bytes, composition takes every kind but ADD for a COPY. */
  lemma OverDelta(s: RawSeg, base: seq<byte>, lit: seq<byte>)
    requires InBoth(s, base, lit)
    ensures ComposeSeg(s, Whole(|base|), 0).Ok? && FlatsOk(ComposeSeg(s, Whole(|base|), 0).value, |base|, [lit])
    ensures FlatApply(ComposeSeg(s, Whole(|base|), 0).value, base, [lit]) ==
      Cut(if s.kind == KIND_ADD then lit else base, s.srcOff, s.srcOff + s.len)
  {
    hide Cut, FlatsOk, FlatApply, WellFlat, Whole, FlatLen;
    var whole := Whole(|base|);
    WholeIs(base);
    assert [] + [lit] == [lit];
    if s.kind == KIND_ADD {
      ComposeSegMeans(s, whole, base, [], lit);
    } else {
      var copy := s.(kind := KIND_COPY);
      assert ComposeSeg(s, whole, 0) == ComposeSeg(copy, whole, 0);
      ComposeSegMeans(copy, whole, base, [], lit);
    }
  }

  lemma WholeIs(base: seq<byte>)
    requires 0 < |base| < TWO64
    ensures WellFlat(Whole(|base|), |base|, [], FlatLen(Whole(|base|))) && FlatLen(Whole(|base|)) == |base|
    ensures FlatApply(Whole(|base|), base, []) == base
  {
    var whole := Whole(|base|);
    assert whole[..0] == [];
    assert FlatOk(whole[0], |base|, []);
    CutAll(base);
    assert FlatApply(whole[..0], base, []) == [];
  }

  /** The segment denotes the same bytes over a plain base and over a delta that reconstructs that base. */
  ghost predicate MeansOneThing(s: RawSeg, base: seq<byte>, lit: seq<byte>)
    requires InBoth(s, base, lit)
  {
    OverPlain(s, base, lit);
    OverDelta(s, base, lit);
    FlatApply(Direct([s]), base, [lit]) == FlatApply(ComposeSeg(s, Whole(|base|), 0).value, base, [lit])
  }

  /** A segment means the same over every base and literals, delta or not, if and only if its kind is COPY or ADD. */
  lemma UnknownKindsDiverge(s: RawSeg)
    requires s.len > 0 && s.srcOff + s.len < TWO64
    ensures (forall base: seq<byte>, lit: seq<byte> :: InBoth(s, base, lit) ==> MeansOneThing(s, base, lit))
      <==> s.kind == KIND_COPY || s.kind == KIND_ADD
  {
    hide Cut, FlatApply, FlatsOk, ComposeSeg, Direct;
    forall base: seq<byte>, lit: seq<byte> | InBoth(s, base, lit)
      ensures MeansOneThing(s, base, lit) <==>
        s.kind == KIND_COPY || s.kind == KIND_ADD ||
        Cut(base, s.srcOff, s.srcOff + s.len) == Cut(lit, s.srcOff, s.srcOff + s.len)
    {
      OverPlain(s, base, lit);
      OverDelta(s, base, lit);
    }
    var n := s.srcOff + s.len;
    var zeros: seq<byte>, ones: seq<byte> := seq(n, _ => 0), seq(n, _ => 1);
    CutsDiffer(zeros, ones, s.srcOff, n);
    assert InBoth(s, zeros, ones);
  }

  lemma CutsDiffer(x: seq<byte>, y: seq<byte>, a: nat, b: nat)
    requires a < b <= |x| && b <= |y| && x[a] != y[a]
    ensures Cut(x, a, b) != Cut(y, a, b)
  {
    assert Cut(x, a, b)[0] != Cut(y, a, b)[0];
  }

  /** One segment of a well-formed delta over the bytes a flat map denotes. */
  lemma ComposeSegMeans(s: RawSeg, b: seq<FlatSeg>, base: seq<byte>, lits: seq<seq<byte>>, lit: seq<byte>)
    requires WellFlat(b, |base|, lits, FlatLen(b)) && Addressable(base, lits)
    requires SegOk(s, FlatLen(b), |lit|)
    ensures ComposeSeg(s, b, |lits|).Ok?
    ensures var r := ComposeSeg(s, b, |lits|).value;
      && FlatsOk(r, |base|, lits + [lit]) && FlatLen(r) == s.len
      && FlatApply(r, base, lits + [lit]) == SegBytes(s, FlatApply(b, base, lits), lit)
  {
    hide Cut, ComposeCopy, SegAt, FlatApply, FlatLen, FlatOk, FlatsOk, Addressable, Placed, FlatBytes;
    if s.kind == KIND_ADD {
      AddMeans(s, base, lits, lit);
    } else {
      CopyMeans(s, b, base, lits, lit);
    }
  }

  lemma AddMeans(s: RawSeg, base: seq<byte>, lits: seq<seq<byte>>, lit: seq<byte>)
    requires s.kind == KIND_ADD && s.len > 0 && s.srcOff + s.len <= |lit|
    ensures var r := [FlatSeg(0, s.len, s.srcOff, |lits|, KIND_ADD)];
      && FlatsOk(r, |base|, lits + [lit]) && FlatLen(r) == s.len
      && FlatApply(r, base, lits + [lit]) == Cut(lit, s.srcOff, s.srcOff + s.len)
  {
    hide Cut, FlatApply, FlatLen, FlatsOk;
    var f := FlatSeg(0, s.len, s.srcOff, |lits|, KIND_ADD);
    assert (lits + [lit])[|lits|] == lit;
    FlatSingle(f, base, lits + [lit]);
  }

  lemma FlatSingle(f: FlatSeg, base: seq<byte>, lits: seq<seq<byte>>)
    requires FlatOk(f, |base|, lits)
    ensures FlatsOk([f], |base|, lits) && FlatLen([f]) == f.len
    ensures FlatApply([f], base, lits) == FlatBytes(f, base, lits)
  {
    hide FlatBytes, FlatOk;
    FlatSnoc([], f, base, lits);
    assert [] + [f] == [f];
  }

  lemma CopyMeans(s: RawSeg, b: seq<FlatSeg>, base: seq<byte>, lits: seq<seq<byte>>, lit: seq<byte>)
    requires WellFlat(b, |base|, lits, FlatLen(b)) && Addressable(base, lits)
    requires s.kind == KIND_COPY && s.len > 0 && s.srcOff + s.len <= FlatLen(b)
    ensures ComposeCopy(b, SegAt(b, s.srcOff), s.srcOff, s.len).Ok?
    ensures var r := ComposeCopy(b, SegAt(b, s.srcOff), s.srcOff, s.len).value;
      && FlatsOk(r, |base|, lits + [lit]) && FlatLen(r) == s.len
      && FlatApply(r, base, lits + [lit]) == Cut(FlatApply(b, base, lits), s.srcOff, s.srcOff + s.len)
  {
    hide Cut, ComposeCopy, SegAt, FlatApply, FlatOk, FlatsOk, Placed, Addressable;
    if b == [] { EmptyMapIsEmpty(); }
    SegAtCovers(b, s.srcOff);
    var r := SegAt(b, s.srcOff);
    ComposeCopyMeans(b, r, s.srcOff, s.len, base, lits);
    FlatApplyMoreLits(ComposeCopy(b, r, s.srcOff, s.len).value, base, lits, lit);
  }

  /** Composing a well-formed delta denotes the delta applied to the bytes its base reconstructs. */
  lemma {:induction false} ComposeMeans(segs: seq<RawSeg>, b: seq<FlatSeg>, base: seq<byte>, lits: seq<seq<byte>>,
                                        lit: seq<byte>)
    requires WellFlat(b, |base|, lits, FlatLen(b)) && Addressable(base, lits)
    requires SegsOk(segs, FlatLen(b), |lit|)
    ensures Compose(segs, b, |lits|).Ok?
    ensures var r := Compose(segs, b, |lits|).value;
      && FlatsOk(r, |base|, lits + [lit]) && FlatLen(r) == TotalLen(segs)
      && FlatApply(r, base, lits + [lit]) == Apply(segs, FlatApply(b, base, lits), lit)
  {
    if segs != [] {
      var k := |segs| - 1;
      assert SegsOk(segs[..k], FlatLen(b), |lit|);
      ComposeMeans(segs[..k], b, base, lits, lit);
      ComposeSegMeans(segs[k], b, base, lits, lit);
      var done, more := Compose(segs[..k], b, |lits|).value, ComposeSeg(segs[k], b, |lits|).value;
      assert Compose(segs, b, |lits|) == Ok(done + more);
      FlatApplyAppend(done, more, base, lits + [lit]);
      FlatLenAppend(done, more);
    }
  }

  /** Straight over a plain base the segments mean what they meant. */
  lemma {:induction false} DirectMeans(segs: seq<RawSeg>, base: seq<byte>, lit: seq<byte>)
    requires SegsOk(segs, |base|, |lit|)
    ensures FlatsOk(Direct(segs), |base|, [lit]) && FlatLen(Direct(segs)) == TotalLen(segs)
    ensures FlatApply(Direct(segs), base, [lit]) == Apply(segs, base, lit)
  {
    hide Cut, FlatOk, FlatApply, FlatLen;
    if segs == [] {
      EmptyMapIsEmpty();
      assert FlatApply([], base, [lit]) == [];
    } else {
      var k := |segs| - 1;
      var front := segs[..k];
      assert SegsOk(front, |base|, |lit|);
      DirectMeans(front, base, lit);
      assert SegOk(segs[k], |base|, |lit|);
      var f := FlatSeg(0, segs[k].len, segs[k].srcOff, 0, segs[k].kind);
      DirectSegMeans(segs[k], base, lit);
      FlatSingle(f, base, [lit]);
      FlatLenAppend(Direct(front), [f]);
      FlatApplyAppend(Direct(front), [f], base, [lit]);
    }
  }

  lemma DirectSegMeans(s: RawSeg, base: seq<byte>, lit: seq<byte>)
    requires SegOk(s, |base|, |lit|)
    ensures var f := FlatSeg(0, s.len, s.srcOff, 0, s.kind);
      FlatOk(f, |base|, [lit]) && FlatBytes(f, base, [lit]) == SegBytes(s, base, lit)
  {
    hide Cut;
  }

  /** Running offsets make any served segments of total length below 2^64 a sorted, gap-free map of the same bytes. */
  lemma {:induction false} PlaceMeans(segs: seq<FlatSeg>, base: seq<byte>, lits: seq<seq<byte>>)
    requires FlatsOk(segs, |base|, lits) && FlatLen(segs) < TWO64
    ensures WellFlat(Place(segs), |base|, lits, FlatLen(segs))
    ensures FlatApply(Place(segs), base, lits) == FlatApply(segs, base, lits)
  {
    PlaceIsPlaced(segs);
    SameSourceSameBytes(Place(segs), segs, base, lits);
  }

  lemma {:induction false} PlaceIsPlaced(segs: seq<FlatSeg>)
    requires FlatLen(segs) < TWO64
    ensures Placed(Place(segs)) && SameSource(Place(segs), segs) && FlatLen(Place(segs)) == FlatLen(segs)
  {
    hide Placed, SameSource;
    if segs == [] {
      PlacedEmpty();
    } else {
      var k := |segs| - 1;
      var front, last := segs[..k], segs[k];
      PlaceIsPlaced(front);
      var placed := last.(targetOff := FlatLen(front));
      assert Place(segs) == Place(front) + [placed];
      PlacedSnoc(Place(front), placed);
      SameSourceSnoc(Place(front), front, placed, last);
      assert front + [last] == segs;
      assert (Place(front) + [placed])[..k] == Place(front);
    }
  }

  lemma PlacedEmpty()
    ensures Placed([]) && SameSource([], [])
  {
  }

  lemma SameSourceSnoc(a: seq<FlatSeg>, b: seq<FlatSeg>, x: FlatSeg, y: FlatSeg)
    requires SameSource(a, b) && x == y.(targetOff := x.targetOff)
    ensures SameSource(a + [x], b + [y])
  {
  }

  lemma PlacedSnoc(p: seq<FlatSeg>, s: FlatSeg)
    requires Placed(p) && s.targetOff == FlatLen(p)
    ensures Placed(p + [s])
  {
    if p != [] { PlacedLen(p); }
  }

  /** A delta whose segments can all be served over `baseLen` bytes and that covers exactly its target. */
  ghost predicate DeltaOk(t: Tables, baseLen: nat, litLen: nat) {
    SegsOk(t.segs, baseLen, litLen) && TotalLen(t.segs) == t.targetSize
  }

  lemma FlattenDirectMeans(t: Tables, base: seq<byte>, lit: seq<byte>)
    requires DeltaOk(t, |base|, |lit|)
    ensures Flatten(t, None, 0).Ok?
    ensures var r := Flatten(t, None, 0).value;
      WellFlat(r, |base|, [lit], t.targetSize) && FlatApply(r, base, [lit]) == Apply(t.segs, base, lit)
  {
    hide Cut, FlatApply, FlatOk, FlatsOk, Placed, Direct, Place, Apply, SegOk, FlatLen, TotalLen;
    DirectMeans(t.segs, base, lit);
    PlaceMeans(Direct(t.segs), base, [lit]);
    WrapId(t.targetSize);
  }

  /**
   * Flattening preserves meaning: a well-formed delta over a flat base yields a sorted, gap-free map of positive-length
   * segments that denotes the delta applied to the bytes the base denotes.
   */
  lemma FlattenOverMeans(t: Tables, b: seq<FlatSeg>, base: seq<byte>, lits: seq<seq<byte>>, lit: seq<byte>)
    requires WellFlat(b, |base|, lits, FlatLen(b)) && Addressable(base, lits)
    requires DeltaOk(t, FlatLen(b), |lit|)
    ensures Flatten(t, Some(b), |lits|).Ok?
    ensures var r := Flatten(t, Some(b), |lits|).value;
      && WellFlat(r, |base|, lits + [lit], t.targetSize)
      && FlatApply(r, base, lits + [lit]) == Apply(t.segs, FlatApply(b, base, lits), lit)
  {
    hide Cut, FlatApply, FlatOk, FlatsOk, Placed, Compose, Place, Apply, SegOk, FlatLen, TotalLen, Addressable;
    ComposeMeans(t.segs, b, base, lits, lit);
    PlaceMeans(Compose(t.segs, b, |lits|).value, base, lits + [lit]);
    WrapId(t.targetSize);
  }

  /** One link of a chain of deltas: its tables and the literals its file holds. */
  datatype Link = Link(t: Tables, lit: seq<byte>)

  function Lits(links: seq<Link>): (r: seq<seq<byte>>)
    ensures |r| == |links|
  {
    if links == [] then [] else Lits(links[..|links| - 1]) + [links[|links| - 1].lit]
  }

  /** The size a link is applied to: its predecessor's target, or the base's. */
  function SizeBelow(links: seq<Link>, baseLen: nat): nat {
    if links == [] then baseLen else links[|links| - 1].t.targetSize
  }

  /** Every delta of the chain is well-formed over what the ones before it reconstruct. */
  ghost predicate ChainOk(links: seq<Link>, baseLen: nat) {
    links == [] || (
      var front, l := links[..|links| - 1], links[|links| - 1];
      ChainOk(front, baseLen) && DeltaOk(l.t, SizeBelow(front, baseLen), |l.lit|) && |l.lit| < TWO64)
  }

  /** N successive applications. */
  ghost function ApplyChain(links: seq<Link>, base: seq<byte>): (r: seq<byte>)
    requires ChainOk(links, |base|)
    ensures |r| == SizeBelow(links, |base|)
  {
    if links == [] then base else
      var front, l := links[..|links| - 1], links[|links| - 1];
      Apply(l.t.segs, ApplyChain(front, base), l.lit)
  }

  /** N successive compositions, each over the map so far. */
  function FlattenChain(links: seq<Link>): Result<seq<FlatSeg>, string>
    requires links != []
  {
    var l := links[|links| - 1].t;
    if |links| == 1 then Flatten(l, None, 0) else
    match FlattenChain(links[..|links| - 1])
    case Err(e) => Err(e)
    case Ok(b) => Flatten(l, Some(b), |links| - 1)
  }

  /** A chain of N deltas collapses to one flat map that denotes N successive applications. */
  lemma {:induction false} ChainMeans(links: seq<Link>, base: seq<byte>)
    requires links != [] && ChainOk(links, |base|) && |base| < TWO64
    ensures FlattenChain(links).Ok?
    ensures var r := FlattenChain(links).value;
      && WellFlat(r, |base|, Lits(links), SizeBelow(links, |base|))
      && FlatApply(r, base, Lits(links)) == ApplyChain(links, base)
  {
    hide FlatApply, FlatOk, Apply, Flatten, DeltaOk, FlatsOk, Placed;
    var front, l := links[..|links| - 1], links[|links| - 1];
    if |links| == 1 {
      assert front == [] && Lits(links) == [l.lit];
      FlattenDirectMeans(l.t, base, l.lit);
    } else {
      ChainMeans(front, base);
      var b := FlattenChain(front).value;
      ChainAddressable(front, base);
      FlattenOverMeans(l.t, b, base, Lits(front), l.lit);
    }
  }

  lemma {:induction false} ChainAddressable(links: seq<Link>, base: seq<byte>)
    requires ChainOk(links, |base|) && |base| < TWO64
    ensures Addressable(base, Lits(links))
  {
    hide DeltaOk;
    if links != [] {
      ChainAddressable(links[..|links| - 1], base);
    }
  }
}
