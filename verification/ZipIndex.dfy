/** Virtual paths as text: split at the slashes, normalised as the layer list does. */
module PathText {
  import opened Tree

  predicate NoSlash(s: string) {
    '/' !in s
  }

  /** The components of a text, at every slash; a text without one is its own only component. */
  function Split(s: string): (p: Path)
    ensures p != [] && forall i :: 0 <= i < |p| ==> NoSlash(p[i])
  {
    SplitFrom(s, 0)
  }

  /** The position of the first slash at or after `i`, or the end. */
  function NextSlash(s: string, i: nat): (e: nat)
    requires i <= |s|
    ensures i <= e <= |s| && NoSlash(s[i..e]) && (e < |s| ==> s[e] == '/')
    decreases |s| - i
  {
    if i == |s| || s[i] == '/' then i else
      var e := NextSlash(s, i + 1);
      assert s[i..e] == [s[i]] + s[i + 1..e];
      e
  }

  function SplitFrom(s: string, i: nat): (p: Path)
    requires i <= |s|
    ensures p != [] && forall k :: 0 <= k < |p| ==> NoSlash(p[k])
    decreases |s| - i
  {
    var e := NextSlash(s, i);
    if e == |s| then [s[i..e]] else [s[i..e]] + SplitFrom(s, e + 1)
  }

  /** The components joined by slashes. */
  function Text(p: Path): string {
    if p == [] then "" else if |p| == 1 then p[0] else p[0] + "/" + Text(p[1..])
  }

  lemma {:induction false} SplitText(s: string, i: nat)
    requires i <= |s|
    ensures Text(SplitFrom(s, i)) == s[i..]
    decreases |s| - i
  {
    hide NoSlash, NextSlash;
    var e := NextSlash(s, i);
    if e < |s| {
      SplitText(s, e + 1);
      var rest := SplitFrom(s, e + 1);
      assert ([s[i..e]] + rest)[1..] == rest;
      SlashBetween(s, i, e);
    }
  }

  lemma SlashBetween(s: string, i: nat, e: nat)
    requires i <= e < |s| && s[e] == '/'
    ensures s[i..] == s[i..e] + "/" + s[e + 1..]
  {
  }

  lemma {:induction false} NextSlashOf(s: string, t: string, i: nat)
    requires i <= |s| && NoSlash(s[i..]) && (t == "" || t[0] == '/')
    ensures NextSlash(s + t, i) == |s|
    decreases |s| - i
  {
    if i < |s| {
      assert s[i] == s[i..][0];
      assert s[i + 1..] == s[i..][1..];
      NextSlashOf(s, t, i + 1);
    }
  }

  lemma {:induction false} NextSlashShift(s: string, t: string, i: nat)
    requires i <= |t|
    ensures NextSlash(s + t, |s| + i) == |s| + NextSlash(t, i)
    decreases |t| - i
  {
    if i < |t| && t[i] != '/' { NextSlashShift(s, t, i + 1); }
  }

  lemma {:induction false} SplitShift(s: string, t: string, i: nat)
    requires i <= |t|
    ensures SplitFrom(s + t, |s| + i) == SplitFrom(t, i)
    decreases |t| - i
  {
    hide NoSlash, NextSlash;
    NextSlashShift(s, t, i);
    var e := NextSlash(t, i);
    ShiftedSlice(s, t, i, e);
    if e < |t| { SplitShift(s, t, e + 1); }
  }

  lemma ShiftedSlice(s: string, t: string, i: nat, e: nat)
    requires i <= e <= |t|
    ensures (s + t)[|s| + i..|s| + e] == t[i..e]
  {
  }

  /** Components without slashes survive being joined and split again. */
  lemma {:induction false} TextSplits(p: Path)
    requires p != [] && forall i :: 0 <= i < |p| ==> NoSlash(p[i])
    ensures Split(Text(p)) == p
  {
    if |p| == 1 {
      NextSlashOf(p[0], "", 0);
      assert p[0] + "" == p[0];
    } else {
      var t := "/" + Text(p[1..]);
      assert Text(p) == p[0] + t;
      NextSlashOf(p[0], t, 0);
      assert (p[0] + t)[0..|p[0]|] == p[0];
      var head := p[0] + "/";
      assert p[0] + t == head + Text(p[1..]);
      SplitShift(head, Text(p[1..]), 0);
      TextSplits(p[1..]);
    }
  }

  /** NormalizeVPath: slashes at either end go. */
  function Normalize(s: string): (r: string)
    ensures r != "" ==> r[0] != '/' && r[|r| - 1] != '/'
  {
    if s != "" && s[0] == '/' then Normalize(s[1..])
    else if s != "" && s[|s| - 1] == '/' then Normalize(s[..|s| - 1])
    else s
  }

  /** A normalised text as a path; the empty text is the root. */
  function PathOf(s: string): Path {
    if Normalize(s) == "" then [] else Split(Normalize(s))
  }
}

/** The index of an archive: its entries by name, and the children of each directory. */
module ZipIndex {
  import opened Bytes
  import opened Tree
  import opened PathText

  /** What the archive says of one entry. */
  datatype ZipStat = ZipStat(name: string, size: nat, symlink: bool, stored: bool, dataOffset: nat)

  datatype ZipEntry = ZipEntry(name: Path, size: nat, isDir: bool, symlink: bool, stored: bool, dataOffset: nat)

  predicate IsDirName(s: ZipStat) {
    s.name != "" && s.name[|s.name| - 1] == '/'
  }

  function EntryOf(s: ZipStat): ZipEntry {
    if IsDirName(s) then ZipEntry(PathOf(s.name), 0, true, false, false, 0)
    else ZipEntry(PathOf(s.name), s.size, false, s.symlink, s.stored, if s.stored then s.dataOffset else 0)
  }

  /** The ends of a text of components none of which is empty at either end. */
  lemma {:induction false} TextEnds(p: Path)
    requires p != [] && p[0] != "" && p[|p| - 1] != ""
    ensures var t := Text(p);
      t != "" && t[0] == p[0][0] && t[|t| - 1] == p[|p| - 1][|p[|p| - 1]| - 1]
  {
    if |p| == 2 {
      assert Text(p) == p[0] + "/" + p[1];
    } else if |p| > 2 {
      LastOfText(p[1..]);
      assert Text(p) == p[0] + "/" + Text(p[1..]);
    }
  }

  lemma {:induction false} LastOfText(p: Path)
    requires p != [] && p[|p| - 1] != ""
    ensures var t := Text(p); t != "" && t[|t| - 1] == p[|p| - 1][|p[|p| - 1]| - 1]
  {
    if |p| > 1 {
      LastOfText(p[1..]);
      assert Text(p) == p[0] + "/" + Text(p[1..]);
    }
  }

  /**
   * An entry whose name is written as the components `p` joined by slashes is indexed under `p` with its size and
   * place; with one slash more at the end it is the directory `p`.
   */
  lemma EntryAtPath(s: ZipStat, p: Path)
    requires p != [] && forall i :: 0 <= i < |p| ==> NoSlash(p[i]) && p[i] != ""
    ensures s.name == Text(p) ==>
      EntryOf(s) == ZipEntry(p, s.size, false, s.symlink, s.stored, if s.stored then s.dataOffset else 0)
    ensures s.name == Text(p) + "/" ==> EntryOf(s).name == p && EntryOf(s).isDir && !EntryOf(s).symlink
  {
    hide Split, Text;
    TextEnds(p);
    TextSplits(p);
    var t := Text(p);
    SlashFree(p[0], 0);
    SlashFree(p[|p| - 1], |p[|p| - 1]| - 1);
    assert Normalize(t) == t;
    assert (t + "/")[..|t + "/"| - 1] == t && (t + "/")[0] == t[0];
  }

  lemma SlashFree(s: string, i: nat)
    requires NoSlash(s) && i < |s|
    ensures s[i] != '/'
  {
  }

  type Kids = map<Path, set<Name>>

  predicate Kid(k: Kids, d: Path, n: Name) {
    d in k && n in k[d]
  }

  /** `p` is reached when the parents of `e` are registered, upwards until an empty component. */
  predicate Reaches(e: Path, p: Path) {
    p != [] && Under(p, e) && forall i :: |p| - 1 <= i < |e| ==> e[i] != ""
  }

  lemma ReachesStep(e: Path, cur: Path, d: Path, n: Name)
    requires Under(cur, e) && cur != []
    requires |d| + 1 >= |cur|
    ensures Reaches(e, d + [n]) ==> |d| + 1 > |cur| || (d == Parent(cur) && n == Last(cur))
  {
    if Reaches(e, d + [n]) && |d| + 1 == |cur| {
      assert d + [n] == e[..|cur|] == cur;
      ChildOf(d, n);
    }
  }

  /** `e` lies below `d`, by way of its child `n`, and `d` has at least `m` components. */
  predicate ReachesVia(e: Path, d: Path, n: Name, m: int) {
    Reaches(e, d + [n]) && |d| >= m
  }

  ghost predicate ReachesSome(e: Path, d: Path, m: int) {
    exists n :: ReachesVia(e, d, n, m)
  }

  /** The child relation `k` is `k0` with the parents of `e` registered, down to directories of `m` components. */
  ghost predicate Climbed(k0: Kids, k: Kids, e: Path, m: int) {
    && (forall d, n :: Kid(k, d, n) <==> Kid(k0, d, n) || ReachesVia(e, d, n, m))
    && (forall d :: d in k <==> d in k0 || ReachesSome(e, d, m))
  }

  function WithKid(k: Kids, d: Path, n: Name): Kids {
    k[d := (if d in k then k[d] else {}) + {n}]
  }

  lemma WithKidHas(k: Kids, d: Path, n: Name, d': Path, n': Name)
    ensures Kid(WithKid(k, d, n), d', n') <==> Kid(k, d', n') || (d' == d && n' == n)
    ensures d' in WithKid(k, d, n) <==> d' in k || d' == d
  {
  }

  /** One step up the climb reaches one child more. */
  lemma OneChildMore(e: Path, cur: Path, d: Path, n: Name)
    requires cur != [] && Under(cur, e) && Reaches(e, cur)
    ensures ReachesVia(e, d, n, |cur| - 1) <==> ReachesVia(e, d, n, |cur|) || (d == Parent(cur) && n == Last(cur))
  {
    ParentLast(cur);
    if |d| + 1 >= |cur| { ReachesStep(e, cur, d, n); }
  }

  lemma ClimbOne(k0: Kids, k: Kids, e: Path, cur: Path)
    requires Climbed(k0, k, e, |cur|) && cur != [] && Under(cur, e) && Reaches(e, cur)
    ensures Climbed(k0, WithKid(k, Parent(cur), Last(cur)), e, |cur| - 1)
  {
    hide Reaches, ReachesVia, WithKid, Kid;
    forall d, n
      ensures Kid(WithKid(k, Parent(cur), Last(cur)), d, n) <==> Kid(k0, d, n) || ReachesVia(e, d, n, |cur| - 1)
    {
      WithKidHas(k, Parent(cur), Last(cur), d, n);
      OneChildMore(e, cur, d, n);
    }
    forall d
      ensures d in WithKid(k, Parent(cur), Last(cur)) <==> d in k0 || ReachesSome(e, d, |cur| - 1)
    {
      WithKidHas(k, Parent(cur), Last(cur), d, "");
      if ReachesSome(e, d, |cur| - 1) {
        var n :| ReachesVia(e, d, n, |cur| - 1);
        OneChildMore(e, cur, d, n);
      }
      if ReachesSome(e, d, |cur|) {
        var n :| ReachesVia(e, d, n, |cur|);
        OneChildMore(e, cur, d, n);
      }
      OneChildMore(e, cur, d, Last(cur));
    }
  }

  /** An empty component ends the climb: nothing above it is reached. */
  lemma ClimbEnds(k0: Kids, k: Kids, e: Path, cur: Path)
    requires Climbed(k0, k, e, |cur|) && cur != [] && Under(cur, e) && Last(cur) == ""
    ensures Climbed(k0, k, e, 0)
  {
    assert e[|cur| - 1] == "";
    forall d, n
      ensures ReachesVia(e, d, n, 0) <==> ReachesVia(e, d, n, |cur|)
    {
    }
    forall d ensures ReachesSome(e, d, 0) <==> ReachesSome(e, d, |cur|) {
      if ReachesSome(e, d, 0) {
        var n :| ReachesVia(e, d, n, 0);
        assert ReachesVia(e, d, n, |cur|);
      }
      if ReachesSome(e, d, |cur|) {
        var n :| ReachesVia(e, d, n, |cur|);
        assert ReachesVia(e, d, n, 0);
      }
    }
  }

  class ZipIndex {
    var byName: map<Path, ZipEntry>
    var dirChildren: Kids

    /** RegisterParents: exactly the children on the way up are added. */
    method RegisterParents(vrel: Path)
      requires vrel != []
      modifies `dirChildren
      ensures Climbed(old(dirChildren), dirChildren, vrel, 0)
    {
      hide Climbed;
      var cur := vrel;
      ClimbStart(dirChildren, vrel);
      while true
        invariant cur != [] && Under(cur, vrel) && forall i :: |cur| <= i < |vrel| ==> vrel[i] != ""
        invariant Climbed(old(dirChildren), dirChildren, vrel, |cur|)
        decreases |cur|
      {
        var parent, child := Parent(cur), Last(cur);
        if child == "" {
          ClimbEnds(old(dirChildren), dirChildren, vrel, cur);
          break;
        }
        assert child == vrel[|cur| - 1];
        ClimbOne(old(dirChildren), dirChildren, vrel, cur);
        dirChildren := dirChildren[parent := (if parent in dirChildren then dirChildren[parent] else {}) + {child}];
        if parent == [] { break; }
        cur := parent;
      }
    }

    /** BuildZipIndex, from the archive's entry list. */
    constructor (stats: seq<ZipStat>)
      ensures IndexOf(stats, byName, dirChildren)
    {
      hide NamesOf, KidsOf, Climbed, EntryOf;
      byName, dirChildren := map[], map[];
      new;
      EmptyIndex();
      var i := 0;
      assert stats[..0] == [];
      while i < |stats|
        invariant 0 <= i <= |stats|
        invariant IndexOf(stats[..i], byName, dirChildren)
      {
        ghost var names0, kids0 := byName, dirChildren;
        assert stats[..i + 1][..i] == stats[..i];
        var e := EntryOf(stats[i]);
        if e.name != [] {
          byName := byName[e.name := e];
          if e.isDir && e.name !in dirChildren {
            dirChildren := dirChildren[e.name := {}];
          }
          ghost var kids1 := dirChildren;
          RegisterParents(e.name);
          NamesOneMore(stats[..i + 1], names0);
          KidsOneMore(stats[..i + 1], kids0, kids1, dirChildren);
        } else {
          SkippedEntry(stats[..i + 1], names0, kids0);
        }
        i := i + 1;
      }
      assert stats[..|stats|] == stats;
    }
  }

  lemma EmptyIndex()
    ensures IndexOf([], map[], map[])
  {
  }

  lemma ClimbStart(k: Kids, e: Path)
    ensures Climbed(k, k, e, |e|)
  {
  }

  /** The last entry an archive lists under a name, if it lists any. */
  function LastNamed(stats: seq<ZipStat>, p: Path): (r: Option<ZipEntry>)
    ensures r.Some? ==> r.value.name == p
  {
    if stats == [] then None
    else if EntryOf(stats[|stats| - 1]).name == p then Some(EntryOf(stats[|stats| - 1]))
    else LastNamed(stats[..|stats| - 1], p)
  }

  /** Some entry of the archive lies at or below `p`. */
  ghost predicate Reached(stats: seq<ZipStat>, p: Path) {
    exists s :: s in stats && Reaches(EntryOf(s).name, p)
  }

  /** Some entry of the archive is the directory `d`. */
  ghost predicate IsListedDir(stats: seq<ZipStat>, d: Path) {
    d != [] && exists s :: s in stats && EntryOf(s).isDir && EntryOf(s).name == d
  }

  /** The index holds the last entry of every name. */
  ghost predicate NamesOf(stats: seq<ZipStat>, byName: map<Path, ZipEntry>) {
    && (forall p :: p in byName <==> p != [] && LastNamed(stats, p).Some?)
    && (forall p :: p in byName ==> LastNamed(stats, p) == Some(byName[p]))
  }

  /** Some entry lies strictly below `d`. */
  ghost predicate HasBelow(stats: seq<ZipStat>, d: Path) {
    exists n :: Reached(stats, d + [n])
  }

  /** The children of a directory are exactly the next component of every entry that lies below it. */
  ghost predicate KidsOf(stats: seq<ZipStat>, kids: Kids) {
    && (forall d, n :: Kid(kids, d, n) <==> Reached(stats, d + [n]))
    && (forall d :: d in kids <==> IsListedDir(stats, d) || HasBelow(stats, d))
  }

  ghost predicate IndexOf(stats: seq<ZipStat>, byName: map<Path, ZipEntry>, kids: Kids) {
    NamesOf(stats, byName) && KidsOf(stats, kids)
  }

  lemma ReachedOneMore(stats: seq<ZipStat>, p: Path)
    requires stats != []
    ensures Reached(stats, p) <==> Reached(stats[..|stats| - 1], p) || Reaches(EntryOf(stats[|stats| - 1]).name, p)
  {
    assert stats == stats[..|stats| - 1] + [stats[|stats| - 1]];
  }

  lemma ListedOneMore(stats: seq<ZipStat>, d: Path)
    requires stats != []
    ensures var e := EntryOf(stats[|stats| - 1]);
      IsListedDir(stats, d) <==> (IsListedDir(stats[..|stats| - 1], d) || (d != [] && e.isDir && e.name == d))
  {
    assert stats == stats[..|stats| - 1] + [stats[|stats| - 1]];
  }

  lemma BelowOneMore(stats: seq<ZipStat>, d: Path)
    requires stats != []
    ensures var e := EntryOf(stats[|stats| - 1]).name;
      HasBelow(stats, d) <==> (HasBelow(stats[..|stats| - 1], d) || ReachesSome(e, d, 0))
  {
    hide Reaches, EntryOf, Reached;
    forall n
      ensures Reached(stats, d + [n]) <==>
        (Reached(stats[..|stats| - 1], d + [n]) || ReachesVia(EntryOf(stats[|stats| - 1]).name, d, n, 0))
    {
      ReachedOneMore(stats, d + [n]);
    }
    if HasBelow(stats[..|stats| - 1], d) {
      var n :| Reached(stats[..|stats| - 1], d + [n]);
      assert Reached(stats, d + [n]);
    }
  }

  /** One more entry: its own directory first, then its parents. */
  lemma KidsOneMore(stats: seq<ZipStat>, kids0: Kids, kids1: Kids, kids: Kids)
    requires stats != [] && KidsOf(stats[..|stats| - 1], kids0)
    requires var e := EntryOf(stats[|stats| - 1]);
      && e.name != [] && Climbed(kids1, kids, e.name, 0)
      && kids1 == (if e.isDir && e.name !in kids0 then kids0[e.name := {}] else kids0)
    ensures KidsOf(stats, kids)
  {
    hide Reaches, EntryOf, Reached, IsListedDir, HasBelow;
    forall d, n
      ensures Kid(kids, d, n) <==> Reached(stats, d + [n])
    {
      ReachedOneMore(stats, d + [n]);
      assert Kid(kids1, d, n) <==> Kid(kids0, d, n);
    }
    forall d
      ensures d in kids <==> IsListedDir(stats, d) || HasBelow(stats, d)
    {
      ListedOneMore(stats, d);
      BelowOneMore(stats, d);
    }
  }

  lemma NamesOneMore(stats: seq<ZipStat>, names: map<Path, ZipEntry>)
    requires stats != [] && NamesOf(stats[..|stats| - 1], names) && EntryOf(stats[|stats| - 1]).name != []
    ensures var e := EntryOf(stats[|stats| - 1]); NamesOf(stats, names[e.name := e])
  {
    hide EntryOf;
  }

  /** An entry that normalises to the root is skipped. */
  lemma SkippedEntry(stats: seq<ZipStat>, names: map<Path, ZipEntry>, kids: Kids)
    requires stats != [] && IndexOf(stats[..|stats| - 1], names, kids)
    requires EntryOf(stats[|stats| - 1]).name == []
    ensures IndexOf(stats, names, kids)
  {
    hide EntryOf, Reached, IsListedDir, HasBelow;
    forall d, n ensures Kid(kids, d, n) <==> Reached(stats, d + [n]) {
      ReachedOneMore(stats, d + [n]);
      RootReachesNothing(d + [n]);
    }
    forall d
      ensures d in kids <==> IsListedDir(stats, d) || HasBelow(stats, d)
    {
      ListedOneMore(stats, d);
      BelowOneMore(stats, d);
      forall n ensures !ReachesVia([], d, n, 0) { RootReachesNothing(d + [n]); }
    }
  }

  lemma RootReachesNothing(p: Path)
    ensures !Reaches([], p)
  {
  }

  /** Every name of the archive is a chain of non-empty components. */
  ghost predicate WellNamed(stats: seq<ZipStat>) {
    forall s :: s in stats ==> forall i :: 0 <= i < |EntryOf(s).name| ==> EntryOf(s).name[i] != ""
  }

  /** A name the index can resolve: an entry, or a directory with children. */
  predicate Has(byName: map<Path, ZipEntry>, kids: Kids, p: Path) {
    p in byName || p in kids
  }

  /** In a well-named archive every name the index resolves is listed in its parent, which resolves too. */
  lemma IndexIsClosed(stats: seq<ZipStat>, byName: map<Path, ZipEntry>, kids: Kids, p: Path)
    requires IndexOf(stats, byName, kids) && WellNamed(stats) && p != [] && Has(byName, kids, p)
    ensures Kid(kids, Parent(p), Last(p))
  {
    ParentLast(p);
    if p in byName {
      NamedIsReached(stats, p);
    } else if IsListedDir(stats, p) {
      var s :| s in stats && EntryOf(s).isDir && EntryOf(s).name == p;
      assert Reaches(EntryOf(s).name, p);
    } else {
      assert HasBelow(stats, p);
      var n :| Reached(stats, p + [n]);
      var s :| s in stats && Reaches(EntryOf(s).name, p + [n]);
      var e := EntryOf(s).name;
      assert Under(p, p + [n]);
      PrefixTransitive(p, p + [n], e);
      assert Reaches(e, p);
    }
    assert Reached(stats, Parent(p) + [Last(p)]);
  }

  lemma {:induction false} NamedIsReached(stats: seq<ZipStat>, p: Path)
    requires WellNamed(stats) && p != [] && LastNamed(stats, p).Some?
    ensures Reached(stats, p)
  {
    var s := stats[|stats| - 1];
    if EntryOf(s).name == p {
      assert Reaches(EntryOf(s).name, p);
    } else {
      NamedIsReached(stats[..|stats| - 1], p);
      ReachedOneMore(stats, p);
    }
  }
}
