/** Random-access byte sources: what a reader may assume of `pread`, reading exactly, and stitching sources. */
module Sources {
  import opened Bytes

  /** Outcome of one read: the bytes delivered, or a negative errno. */
  datatype Read = Data(bytes: seq<byte>) | Errno(code: int)

  /**
   * One byte source. `bytes` is what its storage holds and `size` what it declares; a source may hold more than it
   * declares. `read(n, off)` is its pread: it may deliver less than asked, or fail.
   */
  datatype Source = Source(bytes: seq<byte>, size: nat, read: (nat, nat) -> Read)

  /** Whatever a read delivers is what is stored there, and never more than was asked. */
  ghost predicate Faithful(s: Source) {
    forall n: nat, off: nat :: s.read(n, off).Data? ==> s.read(n, off).bytes <= Slice(s.bytes, off, n)
  }

  /** No read fails, a read with bytes to deliver delivers some, and the declared bytes exist. */
  ghost predicate Live(s: Source) {
    && s.size <= |s.bytes| < TWO64
    && forall n: nat, off: nat :: s.read(n, off).Data? && (n > 0 && off < |s.bytes| ==> s.read(n, off).bytes != [])
  }

  /** MemByteSource: an in-memory buffer, the reference source. */
  function MemSource(data: seq<byte>): Source {
    Source(data, |data|, (n: nat, off: nat) => Data(Slice(data, off, n)))
  }

  lemma MemSourceIsExact(data: seq<byte>)
    requires |data| < TWO64
    ensures Faithful(MemSource(data)) && Live(MemSource(data))
  {
  }

  /** preadAll: exactly `n` bytes across any number of short reads, or failure. */
  method PreadAll(s: Source, n: nat, off: nat) returns (ok: bool, buf: seq<byte>)
    requires Faithful(s)
    ensures ok ==> n == 0 || (off + n <= |s.bytes| && buf == s.bytes[off..off + n])
    ensures ok ==> |buf| == n
    ensures Live(s) ==> (ok <==> n == 0 || off + n <= |s.bytes|)
  {
    buf := [];
    while |buf| < n
      invariant |buf| <= n
      invariant buf == [] || (off + |buf| <= |s.bytes| && buf == s.bytes[off..off + |buf|])
      decreases n - |buf|
    {
      var r := s.read(n - |buf|, off + |buf|);
      if r.Errno? || r.bytes == [] {
        return false, [];
      }
      assert r.bytes <= Slice(s.bytes, off + |buf|, n - |buf|);
      buf := buf + r.bytes;
    }
    ok := true;
  }
}

/** ConcatByteSource: N sources back to back in one address space. */
module Concat {
  import opened Bytes
  import opened Sources

  datatype Part = Part(src: Option<Source>, start: nat, len: nat)

  function DeclaredSize(s: Option<Source>): nat {
    if s.Some? then s.value.size else 0
  }

  /** The bytes a part contributes: what it declares, never what lies past that. */
  ghost function Declared(s: Option<Source>): seq<byte>
    requires s.Some? ==> s.value.size <= |s.value.bytes|
  {
    if s.Some? then s.value.bytes[..s.value.size] else []
  }

  ghost predicate PartsHold(ss: seq<Option<Source>>) {
    forall i :: 0 <= i < |ss| && ss[i].Some? ==> Faithful(ss[i].value) && ss[i].value.size <= |ss[i].value.bytes|
  }

  ghost predicate PartsLive(ss: seq<Option<Source>>) {
    forall i :: 0 <= i < |ss| && ss[i].Some? ==> Live(ss[i].value)
  }

  /** The declared bytes of all parts, joined in order. */
  ghost function Joined(ss: seq<Option<Source>>): seq<byte>
    requires PartsHold(ss)
  {
    if ss == [] then [] else Joined(ss[..|ss| - 1]) + Declared(ss[|ss| - 1])
  }

  /** Part `k` sits in the joined bytes right after the parts before it. */
  lemma {:induction false} JoinedAt(ss: seq<Option<Source>>, k: nat)
    requires PartsHold(ss) && k < |ss|
    ensures |Joined(ss[..k])| + DeclaredSize(ss[k]) <= |Joined(ss)|
    ensures Cut(Joined(ss), |Joined(ss[..k])|, |Joined(ss[..k])| + DeclaredSize(ss[k])) == Declared(ss[k])
  {
    hide Cut, Faithful, Joined;
    var last := |ss| - 1;
    var front := ss[..last];
    JoinedStep(ss);
    if k < last {
      JoinedAt(front, k);
      assert front[..k] == ss[..k];
      CutLeft(Joined(front), Declared(ss[last]), |Joined(ss[..k])|, |Joined(ss[..k])| + DeclaredSize(ss[k]));
    } else {
      CutRight(Joined(front), Declared(ss[last]));
    }
  }

  lemma JoinedStep(ss: seq<Option<Source>>)
    requires PartsHold(ss) && ss != []
    ensures Joined(ss) == Joined(ss[..|ss| - 1]) + Declared(ss[|ss| - 1])
  {
  }

  class ConcatByteSource {
    var parts: seq<Part>
    var total: nat
    ghost const sources: seq<Option<Source>>

    ghost predicate Valid()
      reads this
    {
      && PartsHold(sources)
      && total == |Joined(sources)| < TWO64
      && Laid(parts, sources)
    }

    ghost function Contents(): seq<byte>
      requires PartsHold(sources)
    {
      Joined(sources)
    }

    constructor (ss: seq<Option<Source>>)
      requires PartsHold(ss) && |Joined(ss)| < TWO64
      ensures Valid() && sources == ss
    {
      hide Joined, Faithful, Laid;
      sources := ss;
      parts, total := [], 0;
      new;
      LaidEmpty();
      for i := 0 to |ss|
        invariant Laid(parts, ss[..i]) && total == |Joined(ss[..i])|
      {
        assert ss[..i + 1] == ss[..i] + [ss[i]];
        LaidSnoc(parts, ss[..i], ss[i]);
        parts := parts + [Part(ss[i], total, DeclaredSize(ss[i]))];
        total := total + DeclaredSize(ss[i]);
      }
      assert ss[..|ss|] == ss;
    }

    /** The part the binary search lands on covers `pos`; it is never empty and never short of `pos`. */
    method Locate(pos: nat) returns (lo: nat)
      requires Valid() && pos < total
      ensures lo < |parts| && parts[lo].start <= pos < parts[lo].start + parts[lo].len
    {
      assert |parts| > 0;
      lo := 0;
      var hi := |parts|;
      assert sources[..0] == [] && parts[0].start == 0;
      while lo + 1 < hi
        invariant lo < hi <= |parts|
        invariant parts[lo].start <= pos
        invariant hi < |parts| ==> pos < parts[hi].start
      {
        var mid := (lo + hi) / 2;
        if parts[mid].start <= pos { lo := mid; } else { hi := mid; }
      }
      assert sources[..lo + 1][..lo] == sources[..lo];
      if hi == |parts| {
        assert sources[..lo + 1] == sources;
      }
    }

    /** One turn of the read loop: the part covering `pos` is read up to its own end, never past it. */
    method ReadPart(pos: nat, rest: nat) returns (got: Read)
      requires Valid() && pos < total && rest > 0
      ensures got.Data? ==>
        |got.bytes| <= rest && pos + |got.bytes| <= total && got.bytes == Cut(Contents(), pos, pos + |got.bytes|)
      ensures PartsLive(sources) ==> got.Data? && got.bytes != []
    {
      hide Joined, Slice, Faithful, Live, PartsLive, Cut;
      var lo := Locate(pos);
      var pt := parts[lo];
      if pt.len == 0 || pos >= pt.start + pt.len {
        assert false;   // the gap / empty-part break
      }
      var local := pos - pt.start;
      var want := Min(rest, pt.len - local);
      got := pt.src.value.read(want, local);
      ReadOfPart(sources, lo, local, want);
    }

    /**
     * A read never returns anything but the joined declared bytes at `off`, and over parts that can be read it
     * returns all of them: exactly what an in-memory source of the joined bytes would.
     */
    method Pread(n: nat, off: nat) returns (r: Read)
      requires Valid()
      ensures r.Data? ==> r.bytes <= Slice(Contents(), off, n)
      ensures PartsLive(sources) ==> r == MemSource(Contents()).read(n, off)
    {
      hide Joined, Faithful, Live, PartsLive;
      if off >= total {
        return Data([]);
      }
      var buf: seq<byte> := [];
      while |buf| < n && off + |buf| < total
        invariant |buf| <= n && off + |buf| <= total
        invariant buf == Cut(Contents(), off, off + |buf|)
        decreases n - |buf|
      {
        var got := ReadPart(off + |buf|, n - |buf|);
        if got.Errno? || got.bytes == [] {
          return if buf != [] then Data(buf) else got;
        }
        buf := Grow(Contents(), off, buf, got.bytes);
      }
      r := Data(buf);
    }
  }

  /** Every part starts where the parts before it end. */
  ghost predicate Laid(parts: seq<Part>, ss: seq<Option<Source>>)
    requires PartsHold(ss)
  {
    && |parts| == |ss|
    && forall i :: 0 <= i < |ss| ==> parts[i] == Part(ss[i], |Joined(ss[..i])|, DeclaredSize(ss[i]))
  }

  lemma LaidEmpty()
    ensures Laid([], []) && Joined([]) == []
  {
  }

  lemma LaidSnoc(parts: seq<Part>, ss: seq<Option<Source>>, s: Option<Source>)
    requires s.Some? ==> Faithful(s.value) && s.value.size <= |s.value.bytes|
    requires PartsHold(ss) && Laid(parts, ss)
    ensures Joined(ss + [s]) == Joined(ss) + Declared(s)
    ensures Laid(parts + [Part(s, |Joined(ss)|, DeclaredSize(s))], ss + [s])
  {
    var more := ss + [s];
    assert more[..|ss|] == ss;
    forall i | 0 <= i < |more|
      ensures (parts + [Part(s, |Joined(ss)|, DeclaredSize(s))])[i] ==
        Part(more[i], |Joined(more[..i])|, DeclaredSize(more[i]))
    {
      assert more[..i] == ss[..i];
      if i == |ss| { assert ss[..i] == ss; }
    }
  }

  /** Appending the bytes found at the end of what was already read. */
  function Grow<T>(ghost s: seq<T>, ghost off: nat, buf: seq<T>, got: seq<T>): (r: seq<T>)
    requires off + |buf| + |got| <= |s| && buf == Cut(s, off, off + |buf|)
    requires got == Cut(s, off + |buf|, off + |buf| + |got|)
    ensures |r| == |buf| + |got| && r == Cut(s, off, off + |r|)
  {
    CutJoin(s, off, off + |buf|, off + |buf| + |got|);
    buf + got
  }

  /** What a faithful part delivers inside its declared size is what the joined bytes hold there. */
  lemma ReadOfPart(ss: seq<Option<Source>>, k: nat, local: nat, want: nat)
    requires PartsHold(ss) && k < |ss| && local + want <= DeclaredSize(ss[k]) && want > 0
    ensures var at, r := |Joined(ss[..k])| + local, ss[k].value.read(want, local);
      && (r.Data? ==>
        |r.bytes| <= want && at + |r.bytes| <= |Joined(ss)| && r.bytes == Cut(Joined(ss), at, at + |r.bytes|))
      && (PartsLive(ss) ==> r.Data? && r.bytes != [])
  {
    hide Joined, Declared;
    var r := ss[k].value.read(want, local);
    if r.Data? {
      assert r.bytes <= Slice(ss[k].value.bytes, local, want);
      PieceOfPart(ss, k, local, |r.bytes|);
      DeclaredPiece(ss[k], local, want, r.bytes);
    }
  }

  lemma DeclaredPiece(s: Option<Source>, local: nat, want: nat, got: seq<byte>)
    requires s.Some? && s.value.size <= |s.value.bytes| && local + want <= s.value.size
    requires got <= Slice(s.value.bytes, local, want)
    ensures |got| <= want && got == Cut(Declared(s), local, local + |got|)
  {
    hide Cut;
    assert got == Cut(s.value.bytes, local, local + |got|) by { PrefixOfSlice(s.value.bytes, local, want, got); }
    assert Declared(s) == Cut(s.value.bytes, 0, s.value.size) by { DeclaredIsCut(s); }
    CutOfCut(s.value.bytes, 0, s.value.size, local, local + |got|);
  }

  lemma DeclaredIsCut(s: Option<Source>)
    requires s.Some? && s.value.size <= |s.value.bytes|
    ensures Declared(s) == Cut(s.value.bytes, 0, s.value.size)
  {
  }

  lemma PrefixOfSlice<T>(s: seq<T>, off: nat, n: nat, got: seq<T>)
    requires got <= Slice(s, off, n) && off + n <= |s|
    ensures |got| <= n && got == Cut(s, off, off + |got|)
  {
  }

  /** `n` bytes at `local` of part `k`, as the joined bytes hold them. */
  lemma PieceOfPart(ss: seq<Option<Source>>, k: nat, local: nat, n: nat)
    requires PartsHold(ss) && k < |ss| && local + n <= DeclaredSize(ss[k])
    ensures |Declared(ss[k])| == DeclaredSize(ss[k]) && PartsHold(ss[..k])
    ensures |Joined(ss[..k])| + local + n <= |Joined(ss)|
    ensures Cut(Joined(ss), |Joined(ss[..k])| + local, |Joined(ss[..k])| + local + n) ==
      Cut(Declared(ss[k]), local, local + n)
  {
    hide Cut, Joined, Faithful;
    JoinedAt(ss, k);
    var a := |Joined(ss[..k])|;
    CutOfCut(Joined(ss), a, a + DeclaredSize(ss[k]), local, local + n);
    CutPlus(Joined(ss), a, local, n);
  }
}
