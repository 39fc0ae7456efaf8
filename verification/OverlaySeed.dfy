/** Rebuilding the masks from the markers a writelayer holds when it is mounted again. */
module OverlaySeed {
  import opened Tree
  import opened OverlayState

  /** The walk that starts at `d` enters `q`: no marker name on the way. */
  predicate Walked(d: Path, q: Path) {
    q == d || (q != [] && !IsMarker(Last(q)) && Walked(d, Parent(q)))
  }

  /** The walk from `d` comes across the entry `m`. */
  predicate Met(t: Fs, d: Path, m: Path) {
    m in t && m != [] && Walked(d, Parent(m))
  }

  ghost predicate SeedsWh(t: Fs, d: Path, v: Path) {
    v != [] && Wh(Last(v)) != OPQ && Met(t, d, WhPath(v))
  }

  ghost predicate SeedsOpq(t: Fs, d: Path, v: Path) {
    Met(t, d, OpqPath(v))
  }

  lemma {:induction false} WalkedFirst(d: Path, q: Path)
    requires Walked(d, q)
    ensures Under(d, q)
    ensures q != d ==> |q| > |d| && !IsMarker(q[|d|]) && Walked(d + [q[|d|]], q)
    decreases |q|
  {
    if q != d {
      WalkedFirst(d, Parent(q));
      UnderParent(d, q);
      if Parent(q) == d { ParentLast(q); } else { assert Parent(q)[|d|] == q[|d|]; }
    }
  }

  lemma {:induction false} WalkedWider(d: Path, n: Name, q: Path)
    requires Walked(d + [n], q) && !IsMarker(n)
    ensures Walked(d, q) && |q| > |d| && q[|d|] == n
    decreases |q|
  {
    ChildOf(d, n);
    if q != d + [n] {
      WalkedWider(d, n, Parent(q));
      assert Parent(q)[|d|] == q[|d|];
    }
  }

  /** An entry the walk meets from `d` is a child of `d`, or is met from the child it lies in. */
  lemma MetSplit(t: Fs, d: Path, m: Path)
    requires m in t && m != []
    ensures Met(t, d, m) <==>
      Parent(m) == d || (|m| > |d| + 1 && !IsMarker(m[|d|]) && Met(t, d + [m[|d|]], m))
  {
    if Walked(d, Parent(m)) {
      WalkedFirst(d, Parent(m));
      if Parent(m) != d { assert Parent(m)[|d|] == m[|d|]; }
    }
    if |m| > |d| + 1 && !IsMarker(m[|d|]) && Met(t, d + [m[|d|]], m) {
      WalkedWider(d, m[|d|], Parent(m));
    }
  }

  lemma MetFirst(t: Fs, d: Path, n: Name, m: Path)
    requires !IsMarker(n) && Met(t, d + [n], m)
    ensures Met(t, d, m) && |m| > |d| + 1 && m[|d|] == n
  {
    WalkedWider(d, n, Parent(m));
    assert Parent(m)[|d|] == m[|d|];
  }

  /** A child that is no directory has nothing below it to meet. */
  lemma {:induction false} NothingMet(t: Fs, c: Path, m: Path)
    requires TreeOk(t) && Met(t, c, m)
    ensures IsDirIn(t, c)
  {
    WalkedFirst(c, Parent(m));
    TreePrefix(t, c, Parent(m));
  }

  /** The first name below `d` on the way to `m`. */
  function Via(d: Path, m: Path): Name {
    if |m| > |d| then m[|d|] else ""
  }

  /** What the walk meets through the child `n` of `d`: the marker `n` itself, or what it meets inside `n`. */
  lemma MetThrough(t: Fs, d: Path, n: Name, m: Path)
    requires TreeOk(t) && d + [n] in t && m != [] && IsMarker(Last(m))
    ensures Met(t, d, m) && Via(d, m) == n && |m| > |d| <==>
      if IsMarker(n) then m == d + [n] else t[d + [n]] == Dir && Met(t, d + [n], m)
  {
    ChildOf(d, n);
    if Met(t, d, m) && Via(d, m) == n && |m| > |d| {
      MetSplit(t, d, m);
      if Parent(m) == d { ParentLast(m); } else { NothingMet(t, d + [n], m); }
    } else if !IsMarker(n) && Met(t, d + [n], m) {
      MetFirst(t, d, n, m);
    }
  }

  lemma MetIsBelow(t: Fs, d: Path, m: Path)
    requires TreeOk(t) && Met(t, d, m)
    ensures |m| > |d| && d + [Via(d, m)] in t
  {
    hide Walked, TreeOk;
    WalkedFirst(d, Parent(m));
    UnderParent(d, m);
    FirstBelow(d, m);
    TreePrefix(t, d + [m[|d|]], m);
  }

  lemma FirstBelow(d: Path, m: Path)
    requires Under(d, m) && |m| > |d|
    ensures Under(d + [m[|d|]], m)
  {
    assert m[..|d| + 1] == d + [m[|d|]];
  }

  /** The whiteouts and opaque directories recorded in the children of `d` named in `seen`. */
  ghost predicate Gathered(t: Fs, d: Path, seen: set<Name>, wh: set<Path>, opq: set<Path>) {
    && (forall v :: v in wh <==> SeedsWh(t, d, v) && Via(d, WhPath(v)) in seen)
    && (forall v :: v in opq <==> SeedsOpq(t, d, v) && Via(d, OpqPath(v)) in seen)
  }

  lemma MarkerPathLast(v: Path)
    ensures OpqPath(v) != [] && Last(OpqPath(v)) == OPQ && IsMarker(OPQ) && Parent(OpqPath(v)) == v
    ensures v != [] ==> WhPath(v) != [] && Last(WhPath(v)) == Wh(Last(v)) && IsMarker(Wh(Last(v)))
    ensures v != [] ==> Parent(WhPath(v)) == Parent(v)
  {
    ChildOf(v, OPQ);
    MarkerNames("");
    if v != [] {
      MarkerNames(Last(v));
      ChildOf(Parent(v), Wh(Last(v)));
    }
  }

  lemma GatherMarker(t: Fs, d: Path, seen: set<Name>, wh: set<Path>, opq: set<Path>, n: Name)
    requires TreeOk(t) && Gathered(t, d, seen, wh, opq) && d + [n] in t && IsMarker(n) && n !in seen
    ensures n == OPQ ==> Gathered(t, d, seen + {n}, wh, opq + {d})
    ensures n != OPQ ==> Gathered(t, d, seen + {n}, wh + {d + [Unwh(n)]}, opq)
  {
    ChildOf(d, n);
    forall v
      ensures SeedsOpq(t, d, v) && Via(d, OpqPath(v)) == n <==> n == OPQ && v == d
      ensures SeedsWh(t, d, v) && Via(d, WhPath(v)) == n <==> n != OPQ && v == d + [Unwh(n)]
    {
      MarkerPathLast(v);
      MetThrough(t, d, n, OpqPath(v));
      if SeedsOpq(t, d, v) { MetIsBelow(t, d, OpqPath(v)); }
      if v != [] {
        ParentLast(v);
        MetThrough(t, d, n, WhPath(v));
        MarkerNames(Last(v));
        if SeedsWh(t, d, v) { MetIsBelow(t, d, WhPath(v)); }
        assert ".wh." + n[4..] == n;
        ChildOf(d, Unwh(n));
      }
    }
  }

  lemma GatherInside(t: Fs, d: Path, seen: set<Name>, wh: set<Path>, opq: set<Path>, n: Name, w: set<Path>,
                     o: set<Path>)
    requires TreeOk(t) && Gathered(t, d, seen, wh, opq) && d + [n] in t && !IsMarker(n) && n !in seen
    requires forall v :: v in w <==> t[d + [n]] == Dir && SeedsWh(t, d + [n], v)
    requires forall v :: v in o <==> t[d + [n]] == Dir && SeedsOpq(t, d + [n], v)
    ensures Gathered(t, d, seen + {n}, wh + w, opq + o)
  {
    forall v
      ensures SeedsOpq(t, d, v) && Via(d, OpqPath(v)) == n <==> v in o
      ensures SeedsWh(t, d, v) && Via(d, WhPath(v)) == n <==> v in w
    {
      MarkerPathLast(v);
      MetThrough(t, d, n, OpqPath(v));
      if SeedsOpq(t, d, v) { MetIsBelow(t, d, OpqPath(v)); }
      if v != [] {
        MetThrough(t, d, n, WhPath(v));
        if SeedsWh(t, d, v) { MetIsBelow(t, d, WhPath(v)); }
      }
    }
  }

  function NamesIn(t: Fs, d: Path): set<Name> {
    set q | q in t && q != [] && Parent(q) == d :: Last(q)
  }

  lemma NamesAreEntries(t: Fs, d: Path, n: Name)
    ensures n in NamesIn(t, d) <==> d + [n] in t
  {
    ChildOf(d, n);
    if n in NamesIn(t, d) {
      var q :| q in t && q != [] && Parent(q) == d && Last(q) == n;
      ParentLast(q);
    }
  }

  lemma GatheredAll(t: Fs, d: Path, wh: set<Path>, opq: set<Path>)
    requires TreeOk(t) && Gathered(t, d, NamesIn(t, d), wh, opq)
    ensures forall v :: v in wh <==> SeedsWh(t, d, v)
    ensures forall v :: v in opq <==> SeedsOpq(t, d, v)
  {
    forall v
      ensures SeedsOpq(t, d, v) ==> Via(d, OpqPath(v)) in NamesIn(t, d)
      ensures SeedsWh(t, d, v) ==> Via(d, WhPath(v)) in NamesIn(t, d)
    {
      if SeedsOpq(t, d, v) {
        MetIsBelow(t, d, OpqPath(v));
        NamesAreEntries(t, d, Via(d, OpqPath(v)));
      }
      if SeedsWh(t, d, v) {
        MetIsBelow(t, d, WhPath(v));
        NamesAreEntries(t, d, Via(d, WhPath(v)));
      }
    }
  }

  /** SeedMasksFromWritelayer: the walk of what the guest wrote. */
  method Walk(t: Fs, d: Path, ghost depth: nat) returns (wh: set<Path>, opq: set<Path>)
    requires TreeOk(t) && DepthOk(t, depth) && IsDirIn(t, d)
    ensures forall v :: v in wh <==> SeedsWh(t, d, v)
    ensures forall v :: v in opq <==> SeedsOpq(t, d, v)
    decreases depth + 1 - |d|
  {
    hide SeedsWh, SeedsOpq, TreeOk, NamesIn, Via;
    wh, opq := {}, {};
    var listing := NamesIn(t, d);
    ghost var seen: set<Name> := {};
    while listing != {}
      invariant listing !! seen && listing + seen == NamesIn(t, d)
      invariant Gathered(t, d, seen, wh, opq)
      decreases listing
    {
      var n :| n in listing;
      NamesAreEntries(t, d, n);
      if n == OPQ {
        MarkerNames("");
        GatherMarker(t, d, seen, wh, opq, n);
        opq := opq + {d};
      } else if IsMarker(n) {
        GatherMarker(t, d, seen, wh, opq, n);
        wh := wh + {d + [Unwh(n)]};
      } else if t[d + [n]] == Dir {
        var w, o := Walk(t, d + [n], depth);
        GatherInside(t, d, seen, wh, opq, n, w, o);
        wh, opq := wh + w, opq + o;
      } else {
        GatherInside(t, d, seen, wh, opq, n, {}, {});
        assert wh + {} == wh && opq + {} == opq;
      }
      listing := listing - {n};
      seen := seen + {n};
    }
    assert seen == NamesIn(t, d);
    GatheredAll(t, d, wh, opq);
  }

  /** What a fresh mount over the writelayer `t` starts from. */
  ghost predicate Seeded(t: Fs, s: State) {
    && s.disk == t
    && (forall v :: v in s.wh <==> SeedsWh(t, [], v))
    && (forall v :: v in s.opq <==> SeedsOpq(t, [], v))
  }

  /** Clean directories are walked. */
  lemma {:induction false} CleanIsWalked(q: Path)
    requires Clean(q)
    ensures Walked([], q)
    decreases |q|
  {
    if q != [] {
      CleanParent(q);
      CleanIsWalked(Parent(q));
    }
  }

  /** Masks in step with the disk are the ones a remount seeds, so a remount changes nothing. */
  lemma RemountIsSame(s: State, s': State)
    requires Inv(s) && Seeded(s.disk, s')
    ensures s' == s
  {
    forall v ensures v in s'.opq <==> v in s.opq {
      MarkerPathLast(v);
      if OpqPath(v) in s.disk { CleanIsWalked(v); }
    }
    forall v ensures v in s'.wh <==> v in s.wh {
      if v != [] {
        MarkerPathLast(v);
        MarkerNames(Last(v));
        if WhPath(v) in s.disk {
          CleanIsWalked(Parent(v));
          ParentLast(v);
          if Clean(v) { CleanParent(v); }
        }
      }
    }
    assert s'.wh == s.wh && s'.opq == s.opq;
  }

  /** A writelayer fit to be mounted: clean names, markers that are files, nothing both deleted and present. */
  ghost predicate Mountable(t: Fs) {
    && TreeOk(t) && DiskClean(t)
    && (forall v :: v != [] && Wh(Last(v)) != OPQ && WhPath(v) in t ==> v !in t)
  }

  /** Seeding brings the masks in step with the markers on disk. */
  lemma SeededMirrors(t: Fs, s: State)
    requires Seeded(t, s) && DiskClean(t)
    ensures Mirrors(s)
  {
    forall v | v in s.wh
      ensures v != [] && Clean(v) && WhPath(v) in t
    {
      MarkerPathLast(v);
      MarkerNames(Last(v));
      ParentLast(v);
      CleanChild(Parent(v), Last(v));
    }
    forall p | p in t && p != [] && IsMarker(Last(p)) && Last(p) != OPQ
      ensures Parent(p) + [Unwh(Last(p))] in s.wh
    {
      var v := Parent(p) + [Unwh(Last(p))];
      ChildOf(Parent(p), Unwh(Last(p)));
      ParentLast(p);
      assert ".wh." + Last(p)[4..] == Last(p);
      CleanIsWalked(Parent(p));
    }
    forall v ensures v in s.opq <==> OpqPath(v) in t {
      MarkerPathLast(v);
      if OpqPath(v) in t { CleanIsWalked(v); }
    }
  }

  /** Such a writelayer starts a mount in step with its markers; one left by a run of operations is such. */
  lemma SeedingMirrors(t: Fs, s: State)
    requires Seeded(t, s) && TreeOk(t) && DiskClean(t)
    ensures Inv(s) <==> Mountable(t)
  {
    hide TreeOk, Mirrors;
    SeededMirrors(t, s);
    forall v | v in s.wh
      ensures v != [] && Wh(Last(v)) != OPQ && WhPath(v) in t
    {
      MarkerPathLast(v);
    }
    forall v | v != [] && Wh(Last(v)) != OPQ && WhPath(v) in t
      ensures v in s.wh
    {
      MarkerPathLast(v);
      CleanIsWalked(Parent(v));
    }
  }
}
