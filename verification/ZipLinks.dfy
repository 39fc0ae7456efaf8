/** Links inside an archive: joining a target to a directory, and following links to a file. */
module ZipLinks {
  import opened Bytes
  import opened Tree
  import opened Sources
  import opened PathText
  import opened ZipIndex

  // ---- joining ----

  predicate IsName(c: Name) {
    c != "" && c != "." && c != ".."
  }

  /** How deep a walk along the first `k` components ends, counting from the archive root; below zero is outside. */
  function Net(cs: Path, k: nat): int
    requires k <= |cs|
  {
    if k == 0 then 0
    else Net(cs, k - 1) + if cs[k - 1] == ".." then -1 else if IsName(cs[k - 1]) then 1 else 0
  }

  /** The least depth between `n` and `k`. */
  function Low(cs: Path, n: nat, k: nat): (r: int)
    requires n <= k <= |cs|
    ensures r <= Net(cs, k)
    decreases k - n
  {
    if n == k then Net(cs, k) else Min(Net(cs, n), Low(cs, n + 1, k))
  }

  /** The walk along the first `k` components never climbs above the root. */
  ghost predicate Inside(cs: Path, k: nat)
    requires k <= |cs|
  {
    forall m: nat :: m <= k ==> Net(cs, m) >= 0
  }

  /** Component `i` is a name that no later ".." among the first `k` takes back. */
  predicate Alive(cs: Path, i: nat, k: nat)
    requires i < k <= |cs|
  {
    IsName(cs[i]) && Low(cs, i + 1, k) >= Net(cs, i + 1)
  }

  /** The components among the first `n` that stand after `k` of them. */
  function Standing(cs: Path, n: nat, k: nat): Path
    requires n <= k <= |cs|
  {
    if n == 0 then [] else Standing(cs, n - 1, k) + if Alive(cs, n - 1, k) then [cs[n - 1]] else []
  }

  lemma {:induction false} LowIsBelow(cs: Path, n: nat, m: nat, k: nat)
    requires n <= m <= k <= |cs|
    ensures Low(cs, n, k) <= Net(cs, m)
    decreases k - n
  {
    if n < m { LowIsBelow(cs, n + 1, m, k); }
  }

  lemma {:induction false} LowInside(cs: Path, n: nat, k: nat)
    requires n <= k <= |cs| && Inside(cs, k)
    ensures Low(cs, n, k) >= 0
    decreases k - n
  {
    if n < k { LowInside(cs, n + 1, k); }
  }

  /** As many components stand as the walk is deep at its shallowest from there on. */
  lemma {:induction false} StandingCount(cs: Path, n: nat, k: nat)
    requires n <= k <= |cs| && Inside(cs, k)
    ensures |Standing(cs, n, k)| == Low(cs, n, k)
  {
    LowInside(cs, n, k);
    if n == 0 {
      assert Net(cs, 0) == 0;
    } else {
      StandingCount(cs, n - 1, k);
    }
  }

  lemma {:induction false} LowOneMore(cs: Path, n: nat, k: nat)
    requires n <= k < |cs|
    ensures Low(cs, n, k + 1) == Min(Low(cs, n, k), Net(cs, k + 1))
    decreases k - n
  {
    if n < k { LowOneMore(cs, n + 1, k); }
  }

  /** One component more keeps a prefix of what stood: all of it, or all but the last. */
  lemma {:induction false} StandingOneMore(cs: Path, n: nat, k: nat)
    requires n <= k < |cs| && Inside(cs, k + 1)
    ensures Low(cs, n, k) >= 0 && Low(cs, n, k + 1) >= 0
    ensures |Standing(cs, n, k)| == Low(cs, n, k) && |Standing(cs, n, k + 1)| == Low(cs, n, k + 1)
    ensures Low(cs, n, k + 1) <= Low(cs, n, k)
    ensures Standing(cs, n, k + 1) == Standing(cs, n, k)[..Low(cs, n, k + 1)]
  {
    LowInside(cs, n, k);
    LowInside(cs, n, k + 1);
    StandingCount(cs, n, k);
    StandingCount(cs, n, k + 1);
    LowOneMore(cs, n, k);
    if n > 0 {
      StandingOneMore(cs, n - 1, k);
      LowOneMore(cs, n - 1, k);
    }
  }

  lemma {:induction false} StandingStep(cs: Path, k: nat)
    requires k < |cs| && Inside(cs, k)
    ensures |Standing(cs, k, k)| == Net(cs, k)
    ensures cs[k] == ".." && Net(cs, k) > 0 ==>
      Inside(cs, k + 1) && Standing(cs, k + 1, k + 1) == Standing(cs, k, k)[..Net(cs, k) - 1]
    ensures cs[k] == ".." && Net(cs, k) == 0 ==> Net(cs, k + 1) < 0
    ensures IsName(cs[k]) ==> Inside(cs, k + 1) && Standing(cs, k + 1, k + 1) == Standing(cs, k, k) + [cs[k]]
    ensures cs[k] == "" || cs[k] == "." ==> Inside(cs, k + 1) && Standing(cs, k + 1, k + 1) == Standing(cs, k, k)
  {
    StandingCount(cs, k, k);
    if cs[k] != ".." || Net(cs, k) > 0 {
      StandingOneMore(cs, k, k);
    }
  }

  /** The joiner's push: every segment of `p`, onto `segs`. */
  method Push(p: string, start: Path, ghost done: Path) returns (ok: bool, segs: Path)
    requires Inside(done, |done|) && start == Standing(done, |done|, |done|)
    ensures ok <==> Inside(done + Split(p), |done| + |Split(p)|)
    ensures ok ==> segs == Standing(done + Split(p), |done| + |Split(p)|, |done| + |Split(p)|)
  {
    hide Split, SplitFrom, Standing, Net;
    ghost var cs := done + Split(p);
    segs := start;
    var s: nat := 0;
    var more := true;
    ghost var k := |done|;
    PrefixStands(done, Split(p));
    SplitStart(p);
    while more
      invariant |done| <= k <= |cs| && Inside(cs, k) && segs == Standing(cs, k, k)
      invariant if more then s <= |p| && cs[k..] == SplitFrom(p, s) else k == |cs|
      decreases |cs| - k, more
    {
      var e := NextSlash(p, s);
      var seg := p[s..e];
      SplitHead(p, s);
      assert cs[k] == cs[k..][0];
      StandingStep(cs, k);
      if seg == ".." {
        if segs == [] { return false, []; }
        segs := segs[..|segs| - 1];
      } else if seg != "" && seg != "." {
        segs := segs + [seg];
      }
      assert cs[k + 1..] == cs[k..][1..];
      k := k + 1;
      if e == |p| { more := false; } else { s := e + 1; }
    }
    ok := true;
  }

  lemma SplitStart(p: string)
    ensures Split(p) == SplitFrom(p, 0)
  {
  }

  lemma SplitHead(p: string, s: nat)
    requires s <= |p|
    ensures SplitFrom(p, s) != [] && SplitFrom(p, s)[0] == p[s..NextSlash(p, s)]
    ensures if NextSlash(p, s) == |p| then |SplitFrom(p, s)| == 1
      else SplitFrom(p, s)[1..] == SplitFrom(p, NextSlash(p, s) + 1)
  {
  }

  lemma {:induction false} SameNet(a: Path, b: Path, k: nat)
    requires k <= |a| && a <= b
    ensures Net(a, k) == Net(b, k)
  {
    if k > 0 { SameNet(a, b, k - 1); }
  }

  lemma {:induction false} SameLow(a: Path, b: Path, n: nat, k: nat)
    requires n <= k <= |a| && a <= b
    ensures Low(a, n, k) == Low(b, n, k)
    decreases k - n
  {
    SameNet(a, b, n);
    if n < k { SameLow(a, b, n + 1, k); }
  }

  lemma {:induction false} SameStanding(a: Path, b: Path, n: nat, k: nat)
    requires n <= k <= |a| && a <= b
    ensures Standing(a, n, k) == Standing(b, n, k)
  {
    if n > 0 {
      SameStanding(a, b, n - 1, k);
      SameLow(a, b, n, k);
      SameNet(a, b, n);
    }
  }

  lemma PrefixStands(a: Path, x: Path)
    requires Inside(a, |a|)
    ensures Inside(a + x, |a|) && Standing(a, |a|, |a|) == Standing(a + x, |a|, |a|)
  {
    forall m: nat | m <= |a| ensures Net(a + x, m) >= 0 { SameNet(a, a + x, m); }
    SameStanding(a, a + x, |a|, |a|);
  }

  /** The segments of a directory and of a target, one after the other. */
  function Joined(base: string, target: string): Path {
    Split(base) + Split(target)
  }

  lemma {:induction false} StandingNames(cs: Path, n: nat, k: nat)
    requires n <= k <= |cs| && forall i :: 0 <= i < |cs| ==> NoSlash(cs[i])
    ensures forall c :: c in Standing(cs, n, k) ==> IsName(c) && NoSlash(c)
  {
    if n > 0 { StandingNames(cs, n - 1, k); }
  }

  /**
   * JoinNormalized fails exactly when some prefix of the joined segments climbs above the root. Otherwise the path is
   * made of the names no later ".." takes back: no empty, "." or ".." segment is left.
   */
  method JoinNormalized(base: string, target: string) returns (ok: bool, path: Path)
    ensures ok <==> Inside(Joined(base, target), |Joined(base, target)|)
    ensures ok ==> path == Standing(Joined(base, target), |Joined(base, target)|, |Joined(base, target)|)
    ensures ok ==> forall c :: c in path ==> IsName(c) && NoSlash(c)
  {
    hide Standing, Split, Net;
    ghost var cs := Joined(base, target);
    EmptyStands();
    ok, path := Push(base, [], []);
    assert [] + Split(base) == Split(base);
    if !ok {
      EscapesLonger(Split(base), Split(target));
      return;
    }
    ok, path := Push(target, path, Split(base));
    if ok { StandingNames(cs, |cs|, |cs|); }
  }

  lemma EmptyStands()
    ensures Inside([], 0) && Standing([], 0, 0) == []
  {
    assert Net([], 0) == 0;
  }

  lemma EscapesLonger(a: Path, x: Path)
    requires !Inside(a, |a|)
    ensures !Inside(a + x, |a + x|)
  {
    var m: nat :| m <= |a| && Net(a, m) < 0;
    SameNet(a, a + x, m);
  }

  /** The joined text denotes that very path in the index. */
  lemma JoinedTextDenotes(path: Path)
    requires path != [] && forall c :: c in path ==> IsName(c) && NoSlash(c)
    ensures Split(Text(path)) == path
  {
    TextSplits(path);
  }

  // ---- following links ----

  datatype Archive = Archive(src: Source, byName: map<Path, ZipEntry>)

  const MAX_TARGET := 4096
  const MAX_HOPS := 8

  function Chars(b: seq<byte>): string {
    seq(|b|, i requires 0 <= i < |b| => b[i] as char)
  }

  /** The text of the directory that holds an entry. */
  function DirText(e: ZipEntry): string {
    if e.name == [] then "" else Text(Parent(e.name))
  }

  /** What a link says, when it can be read: stored, not empty, no longer than a path. */
  function TargetOf(z: Archive, e: ZipEntry): Option<string> {
    if !e.stored || e.size == 0 || e.size > MAX_TARGET then None else
    var r := z.src.read(e.size, e.dataOffset);
    if r.Data? && |r.bytes| == e.size then Some(Chars(r.bytes)) else None
  }

  /** Where one valid hop leads from the link `e`. */
  ghost function Next(z: Archive, e: ZipEntry): Option<ZipEntry> {
    if !e.symlink || TargetOf(z, e).None? then None else
    var t := TargetOf(z, e).value;
    var cs := Joined(DirText(e), t);
    if (t != "" && t[0] == '/') || !Inside(cs, |cs|) then None else
    var path := Standing(cs, |cs|, |cs|);
    if path in z.byName then Some(z.byName[path]) else None
  }

  /** Where exactly `n` valid hops lead. */
  ghost function After(z: Archive, e: ZipEntry, n: nat): Option<ZipEntry> {
    if n == 0 then Some(e) else
    match After(z, e, n - 1)
    case None => None
    case Some(x) => Next(z, x)
  }

  /** At most eight valid hops lead from `e` to the file `t`. */
  ghost predicate LeadsTo(z: Archive, e: ZipEntry, t: ZipEntry) {
    !t.symlink && !t.isDir && exists n: nat :: n <= 8 && After(z, e, n) == Some(t)
  }

  /** Once the hops end, there are no more. */
  lemma {:induction false} HopsEnd(z: Archive, e: ZipEntry, m: nat, n: nat)
    requires m < n && After(z, e, m).Some? && Next(z, After(z, e, m).value) == None
    ensures After(z, e, n) == None
  {
    hide Next;
    if n > m + 1 { HopsEnd(z, e, m, n - 1); }
  }

  /** A link, a directory or a bad hop at the end of the walk: it leads to no file. */
  lemma LeadsNowhere(z: Archive, e: ZipEntry, m: nat, x: ZipEntry)
    requires After(z, e, m) == Some(x) && m <= MAX_HOPS
    requires forall k: nat :: k < m ==> After(z, e, k).Some? && After(z, e, k).value.symlink
    requires x.symlink || x.isDir
    requires m == MAX_HOPS || Next(z, x) == None
    ensures forall t :: !LeadsTo(z, e, t)
  {
    hide Next, After;
    forall n: nat | m < n <= MAX_HOPS
      ensures After(z, e, n) == None
    {
      HopsEnd(z, e, m, n);
    }
  }

  /**
   * ResolveZipSymlink: a file exactly when at most eight valid hops lead to it, and nothing on cycles, escapes,
   * absolute or dangling targets, directories and longer chains.
   */
  method ResolveZipSymlink(z: Archive, e: ZipEntry) returns (r: Option<ZipEntry>)
    ensures r.Some? ==> LeadsTo(z, e, r.value)
    ensures r.None? ==> forall t :: !LeadsTo(z, e, t)
  {
    hide After, Next, LeadsTo;
    var cur := e;
    var hop: nat := 0;
    AfterStep(z, e);
    while hop < MAX_HOPS && cur.symlink
      invariant hop <= MAX_HOPS && After(z, e, hop) == Some(cur)
      invariant forall k: nat :: k < hop ==> After(z, e, k).Some? && After(z, e, k).value.symlink
    {
      AfterStep(z, e);
      NextIs(z, cur);
      if !cur.stored || cur.size == 0 || cur.size > MAX_TARGET {
        LeadsNowhere(z, e, hop, cur);
        return None;
      }
      var got := z.src.read(cur.size, cur.dataOffset);
      if got.Errno? || |got.bytes| != cur.size {
        LeadsNowhere(z, e, hop, cur);
        return None;
      }
      var tgt := Chars(got.bytes);
      if tgt != "" && tgt[0] == '/' {
        LeadsNowhere(z, e, hop, cur);
        return None;
      }
      var ok, resolved := JoinNormalized(DirText(cur), tgt);
      if !ok || resolved !in z.byName {
        LeadsNowhere(z, e, hop, cur);
        return None;
      }
      cur := z.byName[resolved];
      hop := hop + 1;
    }
    if cur.symlink || cur.isDir {
      NextIs(z, cur);
      LeadsNowhere(z, e, hop, cur);
      return None;
    }
    FileReached(z, e, hop, cur);
    r := Some(cur);
  }

  lemma FileReached(z: Archive, e: ZipEntry, n: nat, t: ZipEntry)
    requires n <= MAX_HOPS && After(z, e, n) == Some(t) && !t.symlink && !t.isDir
    ensures LeadsTo(z, e, t)
  {
  }

  lemma AfterStep(z: Archive, e: ZipEntry)
    ensures After(z, e, 0) == Some(e)
    ensures forall n: nat :: After(z, e, n).Some? ==> After(z, e, n + 1) == Next(z, After(z, e, n).value)
  {
    forall n: nat | After(z, e, n).Some?
      ensures After(z, e, n + 1) == Next(z, After(z, e, n).value)
    {
    }
  }

  lemma NextIs(z: Archive, e: ZipEntry)
    ensures !e.symlink || TargetOf(z, e).None? ==> Next(z, e) == None
    ensures e.symlink && TargetOf(z, e).Some? ==>
      var t := TargetOf(z, e).value;
      var cs := Joined(DirText(e), t);
      var bad := (t != "" && t[0] == '/') || !Inside(cs, |cs|) || Standing(cs, |cs|, |cs|) !in z.byName;
      if bad then Next(z, e) == None else Next(z, e) == Some(z.byName[Standing(cs, |cs|, |cs|)])
  {
  }

  // ---- where a link is read from ----

  /** An empty segment in front changes nothing. */
  lemma {:induction false} NetAfterEmpty(x: Path, k: nat)
    requires k <= |x|
    ensures Net([""] + x, k + 1) == Net(x, k)
  {
    var cs := [""] + x;
    if k == 0 {
      assert Net(cs, 0) == 0 && cs[0] == "";
    } else {
      assert cs[k] == x[k - 1];
      NetAfterEmpty(x, k - 1);
    }
  }

  lemma {:induction false} LowAfterEmpty(x: Path, n: nat, k: nat)
    requires n <= k <= |x|
    ensures Low([""] + x, n + 1, k + 1) == Low(x, n, k)
    decreases k - n
  {
    NetAfterEmpty(x, n);
    if n < k { LowAfterEmpty(x, n + 1, k); }
  }

  lemma {:induction false} StandingAfterEmpty(x: Path, n: nat, k: nat)
    requires n <= k <= |x|
    ensures Standing([""] + x, n + 1, k + 1) == Standing(x, n, k)
    decreases n
  {
    hide Net, Low;
    var cs := [""] + x;
    if n == 0 {
      assert cs[0] == "" && Standing(cs, 0, k + 1) == [];
    } else {
      assert cs[n] == x[n - 1];
      StandingAfterEmpty(x, n - 1, k);
      LowAfterEmpty(x, n, k);
      NetAfterEmpty(x, n);
    }
  }

  lemma InsideAfterEmpty(x: Path)
    ensures Inside([""] + x, |x| + 1) <==> Inside(x, |x|)
  {
    var cs := [""] + x;
    assert Net(cs, 0) == 0;
    forall m: nat | m <= |x| ensures Net(cs, m + 1) == Net(x, m) { NetAfterEmpty(x, m); }
    if Inside(cs, |x| + 1) {
      forall m: nat | m <= |x| ensures Net(x, m) >= 0 { assert Net(cs, m + 1) >= 0; }
    }
    if Inside(x, |x|) {
      forall m: nat | m <= |x| + 1 ensures Net(cs, m) >= 0 { if m > 0 { assert Net(cs, m) == Net(x, m - 1); } }
    }
  }

  /** The way a link points: its own directory's components, and then its target's segments. */
  function Way(e: ZipEntry, target: string): Path
    requires e.name != []
  {
    Parent(e.name) + Split(target)
  }

  /**
   * A relative target is read from the directory that holds the link: a hop leads to the entry at what stands of the
   * way there, if the target is not absolute, the way stays inside the archive and there is such an entry.
   */
  lemma HopIsRelative(z: Archive, e: ZipEntry)
    requires e.name != [] && forall i :: 0 <= i < |e.name| ==> NoSlash(e.name[i])
    requires e.symlink && TargetOf(z, e).Some?
    ensures var t := TargetOf(z, e).value;
      var cs := Way(e, t);
      Next(z, e) ==
        if (t != "" && t[0] == '/') || !Inside(cs, |cs|) || Standing(cs, |cs|, |cs|) !in z.byName then None
        else Some(z.byName[Standing(cs, |cs|, |cs|)])
  {
    hide Split, Standing, TargetOf, Inside, Net, Text;
    NextIs(z, e);
    var x := Split(TargetOf(z, e).value);
    DirTextSplits(e);
    if |e.name| == 1 {
      assert Parent(e.name) + x == x;
      assert |[""] + x| == |x| + 1;
      InsideAfterEmpty(x);
      StandingAfterEmpty(x, |x|, |x|);
    }
  }

  function Stored(z: Archive, e: ZipEntry): (r: seq<byte>)
    requires e.dataOffset + e.size <= |z.src.bytes|
    ensures |r| == e.size
  {
    z.src.bytes[e.dataOffset..e.dataOffset + e.size]
  }

  /** What a link says is its stored content, byte for byte, if it is not empty nor longer than 4096 bytes. */
  lemma TargetIsStored(z: Archive, e: ZipEntry)
    requires Faithful(z.src) && Live(z.src) && z.src.size == |z.src.bytes|
    requires e.dataOffset + e.size <= |z.src.bytes|
    ensures TargetOf(z, e).Some? ==> e.stored && 0 < e.size <= 4096
    ensures e.stored && 0 < e.size <= 4096 && z.src.read(e.size, e.dataOffset) == Data(Stored(z, e)) ==>
      TargetOf(z, e).Some?
    ensures TargetOf(z, e).Some? ==>
      var t := TargetOf(z, e).value;
      |t| == e.size && forall i :: 0 <= i < e.size ==> t[i] == z.src.bytes[e.dataOffset + i] as char
  {
    if TargetOf(z, e).Some? {
      var r := z.src.read(e.size, e.dataOffset);
      assert r.bytes <= Slice(z.src.bytes, e.dataOffset, e.size);
    }
  }

  lemma DirTextSplits(e: ZipEntry)
    requires e.name != [] && forall i :: 0 <= i < |e.name| ==> NoSlash(e.name[i])
    ensures Split(DirText(e)) == if |e.name| == 1 then [""] else Parent(e.name)
  {
    if |e.name| == 1 {
      assert Text([]) == "" && Split("") == [""];
    } else {
      TextSplits(Parent(e.name));
    }
  }

  /** A link leads to one file at most. */
  lemma LeadsToOne(z: Archive, e: ZipEntry, s: ZipEntry, t: ZipEntry)
    requires LeadsTo(z, e, s) && LeadsTo(z, e, t)
    ensures s == t
  {
    hide After;
    var m: nat :| m <= MAX_HOPS && After(z, e, m) == Some(s);
    var n: nat :| n <= MAX_HOPS && After(z, e, n) == Some(t);
    if m < n { HopsEnd(z, e, m, n); }
    if n < m { HopsEnd(z, e, n, m); }
  }

  lemma {:induction false} RunsOn(z: Archive, e: ZipEntry, m: nat, x: ZipEntry, n: nat)
    requires After(z, e, m) == Some(x)
    ensures After(z, e, m + n) == After(z, x, n)
  {
    hide Next;
    if n > 0 { RunsOn(z, e, m, x, n - 1); }
  }

  /** A link on a cycle leads nowhere. */
  lemma {:induction false} CyclesLeadNowhere(z: Archive, e: ZipEntry, n: nat, t: ZipEntry)
    requires n > 0 && After(z, e, n) == Some(e)
    ensures !LeadsTo(z, e, t)
  {
    hide After, Next;
    forall k: nat
      ensures After(z, e, k) == Some(t) ==> t.symlink
    {
      CycleLinks(z, e, n, k);
    }
  }

  lemma {:induction false} CycleLinks(z: Archive, e: ZipEntry, n: nat, k: nat)
    requires n > 0 && After(z, e, n) == Some(e)
    ensures After(z, e, k).Some? && After(z, e, k).value.symlink
    decreases k
  {
    hide After, Next;
    if k >= n {
      RunsOn(z, e, n, e, k - n);
      CycleLinks(z, e, n, k - n);
    } else {
      BeforeSome(z, e, k, n);
      BeforeSome(z, e, k + 1, n);
    }
  }

  /** Hops that lead somewhere pass through links on the way. */
  lemma {:induction false} BeforeSome(z: Archive, e: ZipEntry, k: nat, n: nat)
    requires k <= n && After(z, e, n).Some?
    ensures After(z, e, k).Some? && (k < n ==> After(z, e, k).value.symlink)
    decreases n - k
  {
    hide After, Next;
    if k < n {
      BeforeSome(z, e, k + 1, n);
      OneBack(z, e, k);
    }
  }

  lemma OneBack(z: Archive, e: ZipEntry, k: nat)
    requires After(z, e, k + 1).Some?
    ensures After(z, e, k).Some? && After(z, e, k).value.symlink
  {
    hide Inside, Standing, TargetOf, Joined, DirText;
  }

  // ---- reading ----

  const EINVAL := -22

  /**
   * OpenZipEntry and ReadZipEntry: bytes of that entry and of no other, never past its end; a compressed entry is
   * refused.
   */
  method ReadZipEntry(src: Source, e: ZipEntry, n: nat, off: int) returns (r: Read)
    requires Faithful(src)
    ensures off < 0 && e.stored ==> r == Errno(EINVAL)
    ensures !e.stored ==> r == Errno(EIO)
    ensures r.Data? ==> off >= 0 && r.bytes <= Slice(Slice(src.bytes, e.dataOffset, e.size), off, n)
    ensures Live(src) && e.stored && off >= 0 ==> r.Data?
    ensures Live(src) && e.stored && 0 <= off < e.size && n > 0 && e.dataOffset + off < |src.bytes| ==> r.bytes != []
  {
    if !e.stored { return Errno(EIO); }
    if off < 0 { return Errno(EINVAL); }
    if off >= e.size { return Data([]); }
    var avail := e.size - off;
    var want := if n < avail then n else avail;
    r := src.read(want, e.dataOffset + off);
    assert r.Data? ==> r.bytes <= Slice(src.bytes, e.dataOffset + off, want);
    if e.dataOffset + off <= |src.bytes| {
      EntrySlice(src.bytes, e.dataOffset, e.size, off, n);
    }
  }

  lemma EntrySlice(b: seq<byte>, at: nat, size: nat, off: nat, n: nat)
    requires off < size && at + off <= |b|
    ensures Slice(Slice(b, at, size), off, n) == Slice(b, at + off, if n < size - off then n else size - off)
  {
    var inner := Slice(b, at, size);
    var l, r := Slice(inner, off, n), Slice(b, at + off, if n < size - off then n else size - off);
    assert |l| == |r|;
    forall k | 0 <= k < |l| ensures l[k] == r[k] {
      assert l[k] == inner[off + k] == b[at + off + k];
    }
  }
}
