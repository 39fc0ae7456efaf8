/** The matcher of GenerateDelta: rolling-hash lookup of base windows, greedy extension, COPY and ADD segments. */
module Matcher {
  import opened Bytes
  import opened RollingHash
  import opened DeltaFormat
  import opened DeltaMap

  /** The ANCHOR bytes at `o`. */
  function Win(s: seq<byte>, o: nat): (r: seq<byte>)
    requires o + ANCHOR <= |s|
    ensures |r| == 256
  {
    Cut(s, o, o + ANCHOR)
  }

  // ---- the index of the base ----

  predicate Anchored(base: seq<byte>, o: nat) {
    o % 256 == 0 && o + 256 <= |base|
  }

  /** `o` is the first aligned window of the base with its hash: the one the index keeps. */
  ghost predicate Winner(base: seq<byte>, o: nat) {
    && Anchored(base, o)
    && forall o': nat :: o' < o && Anchored(base, o') ==> Hash(Win(base, o')) != Hash(Win(base, o))
  }

  /** The index maps the hash of every aligned window below `upTo` to the first such window. */
  ghost predicate Indexes(index: map<u64, nat>, base: seq<byte>, upTo: nat) {
    && (forall h :: h in index ==> index[h] < upTo && Winner(base, index[h]) && Hash(Win(base, index[h])) == h)
    && forall o: nat :: o < upTo && Anchored(base, o) ==> Hash(Win(base, o)) in index
  }

  method BuildIndex(base: seq<byte>) returns (index: map<u64, nat>)
    ensures Indexes(index, base, |base|)
  {
    hide Hash, Cut;
    index := map[];
    var o := 0;
    while o + ANCHOR <= |base|
      invariant o % ANCHOR == 0 && Indexes(index, base, o)
    {
      var h := HashWin(base[o..o + ANCHOR]);
      CutIs(base, o, o + ANCHOR);
      IndexStep(index, base, o, h);
      if h !in index {
        index := index[h := o];
      }
      o := o + ANCHOR;
    }
    assert forall o': nat :: Anchored(base, o') ==> o' < o;
  }

  lemma CutIs<T>(s: seq<T>, a: nat, b: nat)
    requires a <= b <= |s|
    ensures Cut(s, a, b) == s[a..b]
  {
  }

  lemma IndexStep(index: map<u64, nat>, base: seq<byte>, o: nat, h: u64)
    requires Anchored(base, o) && Indexes(index, base, o) && h == Hash(Win(base, o))
    ensures Indexes(if h in index then index else index[h := o], base, o + ANCHOR)
  {
    hide Hash, Cut;
    var index' := if h in index then index else index[h := o];
    forall x: nat | x < o + ANCHOR && Anchored(base, x)
      ensures Hash(Win(base, x)) in index'
    {
      assert x < o || x == o;
    }
  }

  /** Some indexed base window equals the target's window at `q`. */
  ghost predicate Matchable(base: seq<byte>, target: seq<byte>, q: nat)
    requires q + ANCHOR <= |target|
  {
    exists o: nat :: Winner(base, o) && Win(base, o) == Win(target, q)
  }

  /** A failed lookup with the right hash means no indexed window equals this one. */
  lemma MissMeansUnmatchable(index: map<u64, nat>, base: seq<byte>, target: seq<byte>, q: nat)
    requires Indexes(index, base, |base|) && q + ANCHOR <= |target|
    requires var h := Hash(Win(target, q)); h in index ==> Win(base, index[h]) != Win(target, q)
    ensures !Matchable(base, target, q)
  {
    hide Hash, Cut;
    forall o: nat | Winner(base, o)
      ensures Win(base, o) != Win(target, q)
    {
      var h := Hash(Win(target, q));
      if Hash(Win(base, o)) == h {
        WinnersAreUnique(base, o, index[h]);
      }
    }
  }

  lemma WinnersAreUnique(base: seq<byte>, a: nat, b: nat)
    requires Winner(base, a) && Winner(base, b) && Hash(Win(base, a)) == Hash(Win(base, b))
    ensures a == b
  {
  }

  // ---- what the emitted segments promise ----

  /** One segment, placed right after `front`. */
  ghost predicate SegJustified(front: seq<RawSeg>, s: RawSeg, base: seq<byte>, target: seq<byte>) {
    var t := TotalLen(front);
    if s.kind == KIND_ADD then
      forall q :: t <= q < t + s.len && q + 256 <= |target| ==> !Matchable(base, target, q)
    else
      && s.len >= 256
      && CannotExtend(s, t, base, target)
      && (front != [] && front[|front| - 1].kind == KIND_ADD ==> CannotReachBack(s, t, base, target))
  }

  predicate CannotExtend(s: RawSeg, t: nat, base: seq<byte>, target: seq<byte>) {
    s.srcOff + s.len >= |base| || t + s.len >= |target| || base[s.srcOff + s.len] != target[t + s.len]
  }

  predicate CannotReachBack(s: RawSeg, t: nat, base: seq<byte>, target: seq<byte>) {
    s.srcOff == 0 || t == 0 || s.srcOff > |base| || t > |target| || base[s.srcOff - 1] != target[t - 1]
  }

  ghost predicate Justified(segs: seq<RawSeg>, base: seq<byte>, target: seq<byte>) {
    segs == [] || (Justified(segs[..|segs| - 1], base, target)
                   && SegJustified(segs[..|segs| - 1], segs[|segs| - 1], base, target))
  }

  lemma JustifiedSnoc(segs: seq<RawSeg>, s: RawSeg, base: seq<byte>, target: seq<byte>)
    requires Justified(segs, base, target) && SegJustified(segs, s, base, target)
    ensures Justified(segs + [s], base, target)
  {
    assert (segs + [s])[..|segs|] == segs;
  }

  function AddLen(segs: seq<RawSeg>): nat {
    if segs == [] then 0 else
      var s := segs[|segs| - 1];
      AddLen(segs[..|segs| - 1]) + (if s.kind == KIND_ADD then s.len else 0)
  }

  lemma SnocLengths(segs: seq<RawSeg>, s: RawSeg)
    ensures TotalLen(segs + [s]) == TotalLen(segs) + s.len
    ensures AddLen(segs + [s]) == AddLen(segs) + (if s.kind == KIND_ADD then s.len else 0)
  {
    assert (segs + [s])[..|segs|] == segs;
  }

  /** Nothing in [from, to) of the target starts an indexed window. */
  ghost predicate Pending(base: seq<byte>, target: seq<byte>, from: nat, to: nat) {
    forall q :: from <= q < to && q + ANCHOR <= |target| ==> !Matchable(base, target, q)
  }

  /** The segments so far spell the target up to `done`, each for a reason, and the literals are stored once. */
  ghost predicate Spells(segs: seq<RawSeg>, lit: seq<byte>, base: seq<byte>, target: seq<byte>, done: nat) {
    && done <= |target|
    && SegsOk(segs, |base|, |lit|)
    && Apply(segs, base, lit) == Cut(target, 0, done)
    && Justified(segs, base, target)
    && |lit| == AddLen(segs)
  }

  ghost predicate EndsInCopy(segs: seq<RawSeg>) {
    segs == [] || segs[|segs| - 1].kind == KIND_COPY
  }

  // ---- steps ----

  /** emitAdd: literals, unless there are none. */
  method EmitAdd(segs: seq<RawSeg>, lit: seq<byte>, base: seq<byte>, target: seq<byte>, from: nat, to: nat)
    returns (segs': seq<RawSeg>, lit': seq<byte>)
    requires from <= to <= |target| < TWO64
    requires Spells(segs, lit, base, target, from) && Pending(base, target, from, to)
    ensures Spells(segs', lit', base, target, to)
    ensures if to <= from then segs' == segs
            else |segs'| == |segs| + 1 && segs'[..|segs|] == segs && segs'[|segs|].kind == KIND_ADD
  {
    hide Spells, Pending;
    if to <= from {
      return segs, lit;
    }
    LitFits(segs, lit, base, target, from);
    var s := RawSeg(KIND_ADD, to - from, |lit|);
    AddStep(segs, lit, base, target, from, to);
    CutIs(target, from, to);
    segs' := segs + [s];
    lit' := lit + target[from..to];
  }

  lemma {:induction false} AddAtMostTotal(segs: seq<RawSeg>)
    ensures AddLen(segs) <= TotalLen(segs)
  {
    if segs != [] { AddAtMostTotal(segs[..|segs| - 1]); }
  }

  lemma LitFits(segs: seq<RawSeg>, lit: seq<byte>, base: seq<byte>, target: seq<byte>, done: nat)
    requires Spells(segs, lit, base, target, done)
    ensures |lit| <= done && TotalLen(segs) == done
  {
    hide Cut, Apply;
    AddAtMostTotal(segs);
  }

  lemma AddStep(segs: seq<RawSeg>, lit: seq<byte>, base: seq<byte>, target: seq<byte>, from: nat, to: nat)
    requires from < to <= |target| < TWO64 && |lit| < TWO64
    requires Spells(segs, lit, base, target, from) && Pending(base, target, from, to)
    ensures Spells(segs + [RawSeg(KIND_ADD, to - from, |lit|)], lit + Cut(target, from, to), base, target, to)
  {
    hide Cut, Apply, Matchable;
    var more := Cut(target, from, to);
    var s := RawSeg(KIND_ADD, to - from, |lit|);
    LitFits(segs, lit, base, target, from);
    ApplyLitGrows(segs, base, lit, more);
    ApplySnoc(segs, s, base, lit + more);
    CutRight(lit, more);
    CutJoin(target, 0, from, to);
    JustifiedSnoc(segs, s, base, target);
    SnocLengths(segs, s);
  }

  /** The COPY found at `o`, `p`, extended both ways, goes after literals up to `p - back`. */
  lemma CopyStep(segs: seq<RawSeg>, lit: seq<byte>, base: seq<byte>, target: seq<byte>, s: RawSeg, t: nat)
    requires Spells(segs, lit, base, target, t)
    requires s.kind == KIND_COPY && s.len >= ANCHOR && s.srcOff + s.len <= |base| && t + s.len <= |target|
    requires Cut(base, s.srcOff, s.srcOff + s.len) == Cut(target, t, t + s.len)
    requires CannotExtend(s, t, base, target)
    requires !EndsInCopy(segs) ==> CannotReachBack(s, t, base, target)
    ensures Spells(segs + [s], lit, base, target, t + s.len)
  {
    hide Cut, Apply, Matchable, CannotExtend, CannotReachBack;
    LitFits(segs, lit, base, target, t);
    ApplySnoc(segs, s, base, lit);
    CutJoin(target, 0, t, t + s.len);
    JustifiedSnoc(segs, s, base, target);
    SnocLengths(segs, s);
  }

  method ExtendForward(base: seq<byte>, target: seq<byte>, o: nat, p: nat) returns (len: nat)
    requires o + ANCHOR <= |base| && p + ANCHOR <= |target| && Win(base, o) == Win(target, p)
    ensures ANCHOR <= len && o + len <= |base| && p + len <= |target|
    ensures Cut(base, o, o + len) == Cut(target, p, p + len)
    ensures o + len == |base| || p + len == |target| || base[o + len] != target[p + len]
  {
    hide Cut;
    len := ANCHOR;
    while o + len < |base| && p + len < |target| && base[o + len] == target[p + len]
      invariant ANCHOR <= len && o + len <= |base| && p + len <= |target|
      invariant Cut(base, o, o + len) == Cut(target, p, p + len)
    {
      CutGrows(base, o, o + len);
      CutGrows(target, p, p + len);
      len := len + 1;
    }
  }

  lemma CutGrows<T>(s: seq<T>, a: nat, b: nat)
    requires a <= b < |s|
    ensures Cut(s, a, b + 1) == Cut(s, a, b) + [s[b]]
  {
  }

  method ExtendBack(base: seq<byte>, target: seq<byte>, o: nat, p: nat, litStart: nat) returns (back: nat)
    requires litStart <= p <= |target| && o <= |base|
    ensures back <= p - litStart && back <= o
    ensures Cut(base, o - back, o) == Cut(target, p - back, p)
    ensures back == p - litStart || back == o || base[o - 1 - back] != target[p - 1 - back]
  {
    hide Cut;
    back := 0;
    CutNone(base, o);
    CutNone(target, p);
    while back < p - litStart && o > back && base[o - 1 - back] == target[p - 1 - back]
      invariant back <= p - litStart && back <= o
      invariant Cut(base, o - back, o) == Cut(target, p - back, p)
    {
      CutGrowsDown(base, o - back, o);
      CutGrowsDown(target, p - back, p);
      back := back + 1;
    }
  }

  lemma CutGrowsDown<T>(s: seq<T>, a: nat, b: nat)
    requires 0 < a <= b <= |s|
    ensures Cut(s, a - 1, b) == [s[a - 1]] + Cut(s, a, b)
  {
  }

  /** The rolled hash after one byte. */
  lemma RolledHash(target: seq<byte>, p: nat, h: u64, rhi: u64)
    requires p + ANCHOR < |target| && h == Hash(Win(target, p)) && rhi == Wrap(Pow(RK_R, ANCHOR - 1))
    ensures Wrap((h - target[p] * rhi) * RK_R + target[p + ANCHOR]) == Hash(Win(target, p + 1))
  {
    hide Pow, Hash, Wrap;
    RollIsHash(Win(target, p), target[p + ANCHOR]);
    NextWindow(target, p);
  }

  lemma NextWindow(target: seq<byte>, p: nat)
    requires p + ANCHOR < |target|
    ensures Win(target, p)[1..] + [target[p + ANCHOR]] == Win(target, p + 1)
    ensures Win(target, p)[0] == target[p]
  {
  }

  // ---- the scan ----

  /** Where the scan stands: literals from `litStart` to `p` are pending, and so far every segment is justified. */
  ghost predicate Scanning(segs: seq<RawSeg>, lit: seq<byte>, base: seq<byte>, target: seq<byte>,
                           litStart: nat, p: nat) {
    && litStart <= p <= |target|
    && Spells(segs, lit, base, target, litStart)
    && Pending(base, target, litStart, p)
    && EndsInCopy(segs)
    && |segs| * 128 <= litStart
  }

  /** The rolled hash is the hash of the window ahead, as long as there is one. */
  ghost predicate HashIsCurrent(h: u64, target: seq<byte>, p: nat) {
    p + ANCHOR <= |target| ==> h == Hash(Win(target, p))
  }

  lemma MissStep(segs: seq<RawSeg>, lit: seq<byte>, base: seq<byte>, target: seq<byte>, litStart: nat, p: nat)
    requires Scanning(segs, lit, base, target, litStart, p) && p + ANCHOR <= |target| && !Matchable(base, target, p)
    ensures Scanning(segs, lit, base, target, litStart, p + 1)
  {
    hide Matchable, Spells;
  }

  /** Emits the pending literals before a match and the match itself, extended both ways. */
  method EmitMatch(segs: seq<RawSeg>, lit: seq<byte>, base: seq<byte>, target: seq<byte>, litStart: nat, p: nat, o: nat)
    returns (segs': seq<RawSeg>, lit': seq<byte>, p': nat)
    requires |base| < TWO64 && |target| < TWO64
    requires Scanning(segs, lit, base, target, litStart, p)
    requires o + ANCHOR <= |base| && p + ANCHOR <= |target| && Win(base, o) == Win(target, p)
    ensures p + ANCHOR <= p' && Scanning(segs', lit', base, target, p', p')
    ensures base == target && o == 0 && p == 0 && segs == [] ==>
      p' == |target| && segs' == [RawSeg(KIND_COPY, |base|, 0)]
  {
    hide Cut, Spells, Matchable, Win;
    var len := ExtendForward(base, target, o, p);
    var back := ExtendBack(base, target, o, p, litStart);
    assert Pending(base, target, litStart, p - back);
    segs', lit' := EmitAdd(segs, lit, base, target, litStart, p - back);
    var s := RawSeg(KIND_COPY, len + back, o - back);
    CutJoin(base, o - back, o, o + len);
    CutJoin(target, p - back, p, p + len);
    CopyStep(segs', lit', base, target, s, p - back);
    segs' := segs' + [s];
    p' := p + len;
  }

  lemma StartScanning(base: seq<byte>, target: seq<byte>)
    ensures Scanning([], [], base, target, 0, 0)
  {
  }

  lemma CutIsWin(base: seq<byte>, target: seq<byte>, o: nat, p: nat)
    requires p + ANCHOR <= |target|
    ensures target[p..p + ANCHOR] == Win(target, p)
    ensures o + ANCHOR <= |base| ==> base[o..o + ANCHOR] == Win(base, o)
  {
  }

  lemma FirstWindow(target: seq<byte>)
    requires |target| >= ANCHOR
    ensures target[..ANCHOR] == Win(target, 0)
  {
  }

  /** The base's own first window always wins its slot. */
  lemma FirstIsIndexed(index: map<u64, nat>, base: seq<byte>)
    requires Indexes(index, base, |base|)
    ensures |base| >= ANCHOR ==> Hash(Win(base, 0)) in index && index[Hash(Win(base, 0))] == 0
  {
    hide Hash, Cut;
    if |base| >= ANCHOR {
      assert Anchored(base, 0);
      var h := Hash(Win(base, 0));
      WinnersAreUnique(base, 0, index[h]);
    }
  }

  /** Not matched here: no indexed window equals the one at `p`. */
  lemma MissedHere(index: map<u64, nat>, base: seq<byte>, target: seq<byte>, p: nat, h: u64)
    requires Indexes(index, base, |base|) && p + ANCHOR <= |target| && h == Hash(Win(target, p))
    requires h in index ==> index[h] + ANCHOR > |base| || base[index[h]..index[h] + ANCHOR] != target[p..p + ANCHOR]
    ensures !Matchable(base, target, p)
  {
    hide Hash, Matchable;
    if h in index {
      assert Winner(base, index[h]);
      CutIsWin(base, target, index[h], p);
    }
    MissMeansUnmatchable(index, base, target, p);
  }

  lemma TailPending(segs: seq<RawSeg>, lit: seq<byte>, base: seq<byte>, target: seq<byte>, litStart: nat, p: nat)
    requires Scanning(segs, lit, base, target, litStart, p) && p + ANCHOR > |target|
    ensures Pending(base, target, litStart, |target|)
  {
    hide Spells, Matchable;
  }

  /** The whole scan of the target. */
  method Match(base: seq<byte>, target: seq<byte>) returns (segs: seq<RawSeg>, lit: seq<byte>)
    requires |base| < TWO64 && |target| < TWO64
    ensures Spells(segs, lit, base, target, |target|)
    ensures |segs| <= |target| / 128 + 1
    ensures base == target && |base| >= ANCHOR ==> segs == [RawSeg(KIND_COPY, |base|, 0)]
  {
    hide Cut, Spells, Matchable, Win, Hash, Wrap, Pow, Indexes;
    segs, lit := [], [];
    var index := BuildIndex(base);
    var rhi := PowR(ANCHOR - 1);
    var p: nat, litStart: nat := 0, 0;
    StartScanning(base, target);
    if |target| >= ANCHOR {
      var h: u64 := HashWin(target[..ANCHOR]);
      FirstWindow(target);
      FirstIsIndexed(index, base);
      while p + ANCHOR <= |target|
        invariant Scanning(segs, lit, base, target, litStart, p)
        invariant HashIsCurrent(h, target, p)
        invariant base == target && |base| >= ANCHOR ==>
          (p == 0 && litStart == 0 && segs == []) ||
          (litStart == p == |target| && segs == [RawSeg(KIND_COPY, |base|, 0)])
        decreases |target| - p
      {
        CutIs(target, p, p + ANCHOR);
        var matched := false;
        if h in index {
          var o := index[h];
          CutIsWin(base, target, o, p);
          if o + ANCHOR <= |base| && base[o..o + ANCHOR] == target[p..p + ANCHOR] {
            segs, lit, p := EmitMatch(segs, lit, base, target, litStart, p, o);
            litStart := p;
            matched := true;
            if p + ANCHOR <= |target| {
              h := HashWin(target[p..p + ANCHOR]);
              CutIsWin(target, target, p, p);
            }
          }
        }
        if !matched {
          MissedHere(index, base, target, p, h);
          MissStep(segs, lit, base, target, litStart, p);
          if p + ANCHOR < |target| {
            RolledHash(target, p, h, rhi);
            h := Wrap((h - target[p] * rhi) * RK_R + target[p + ANCHOR]);
          }
          p := p + 1;
        }
      }
    }
    TailPending(segs, lit, base, target, litStart, p);
    segs, lit := EmitAdd(segs, lit, base, target, litStart, |target|);
  }
}
