/** The running filesystem and its operations on the copy-on-write writelayer. */
module VfsOps {
  import opened Bytes
  import opened Sources
  import opened Tree
  import opened OverlayState
  import opened OverlaySteps
  import opened OverlayViews
  import opened OverlayRename
  import opened OverlaySeed

  const CHUNK := 262144

  const ENOENT := -2
  const EEXIST := -17
  const ENOTDIR := -20
  const EISDIR := -21
  const EINVAL := -22
  const ENOTEMPTY := -39

  /**
   * The mount: the writelayer's tree on the host, the two masks in memory, and the view the layers below make.
   * A host call that is not about markers or deletions may fail at any time; it then changes nothing. Which of them
   * fail, by number, is up to the host.
   */
  class VfsState {
    var disk: Fs
    var whiteouts: set<Path>
    var opaques: set<Path>
    const lower: Lower
    const faulty: nat -> bool
    /** The host calls made so far that could fail. */
    var calls: nat

    function Snap(): State
      reads this
    {
      State(disk, whiteouts, opaques)
    }

    ghost predicate Valid()
      reads this
    {
      Inv(Snap()) && LowerOk(lower)
    }

    /** What the kernel checks before it calls an operation on `v`: its directory is there. */
    ghost predicate ParentThere(v: Path)
      reads this
    {
      v != [] && Clean(v) && Visible(Snap(), lower, Parent(v)) == Some(Dir)
    }

    /** A mount over what an earlier session left in the writelayer; the masks are rebuilt from its markers. */
    constructor (lower: Lower, writelayer: Fs, faulty: nat -> bool)
      requires LowerOk(lower) && Mountable(writelayer)
      ensures Valid() && this.lower == lower && this.faulty == faulty && Seeded(writelayer, Snap())
    {
      this.lower := lower;
      this.faulty := faulty;
      calls := 0;
      disk := writelayer;
      var wh, opq := Walk(writelayer, [], Deepest(writelayer.Keys));
      whiteouts, opaques := wh, opq;
      new;
      SeedingMirrors(writelayer, Snap());
    }

    // ---- host calls ----

    /** Whether the next host call fails. */
    method Fails() returns (b: bool)
      modifies `calls
      ensures b == faulty(old(calls)) && calls == old(calls) + 1
    {
      b := faulty(calls);
      calls := calls + 1;
    }

    method HostMkdir(p: Path) returns (e: int)
      modifies `disk, `calls
      ensures e == 0 ==> CanMake(old(disk), p) && disk == old(disk)[p := Dir]
      ensures e != 0 ==> disk == old(disk) && (e == EIO || !CanMake(old(disk), p))
      ensures old(calls) <= calls && (e == EIO <==> Faulty(faulty, old(calls), calls))
    {
      if p in disk { return EEXIST; }
      if p == [] || Parent(p) !in disk { return ENOENT; }
      if disk[Parent(p)] != Dir { return ENOTDIR; }
      var failed := Fails();
      if failed { return EIO; }
      disk := disk[p := Dir];
      e := 0;
    }

    /** open with O_CREAT: an existing file is opened as it is. */
    method HostCreate(p: Path) returns (e: int)
      modifies `disk, `calls
      ensures e == 0 && p in old(disk) ==> old(disk)[p].File? && disk == old(disk)
      ensures e == 0 && p !in old(disk) ==> CanMake(old(disk), p) && disk == old(disk)[p := File([])]
      ensures e != 0 ==> disk == old(disk) && (e == EIO || !CanMake(old(disk), p))
      ensures old(calls) <= calls && (e == EIO <==> Faulty(faulty, old(calls), calls))
    {
      if p in disk && disk[p] == Dir { return EISDIR; }
      var failed := Fails();
      if failed { return EIO; }
      if p in disk { return 0; }
      if p == [] || Parent(p) !in disk { return ENOENT; }
      if disk[Parent(p)] != Dir { return ENOTDIR; }
      disk := disk[p := File([])];
      e := 0;
    }

    method HostUnlink(p: Path) returns (e: int)
      modifies `disk, `calls
      ensures e == 0 ==> p in old(disk) && old(disk)[p].File? && disk == old(disk) - {p}
      ensures e != 0 ==> disk == old(disk)
      ensures e == ENOENT <==> p !in old(disk)
      ensures e == 0 || e == EIO || e == ENOENT || IsDirIn(old(disk), p)
      ensures old(calls) <= calls && (e == EIO <==> Faulty(faulty, old(calls), calls))
    {
      if p !in disk { return ENOENT; }
      if disk[p] == Dir { return EISDIR; }
      var failed := Fails();
      if failed { return EIO; }
      disk := disk - {p};
      e := 0;
    }

    method HostRmdir(p: Path)
      modifies `disk
      ensures disk == if IsDirIn(old(disk), p) && !HasChild(old(disk), p) then old(disk) - {p} else old(disk)
    {
      if IsDirIn(disk, p) && OwnNames(disk, p) == {} && MarkerNamesIn(disk, p) == {} {
        NoNamesNoChild(disk, p);
        disk := disk - {p};
      } else {
        NoNamesNoChild(disk, p);
      }
    }

    /** EnsureWriteParent: the directory chain above `v`. */
    method EnsureWriteParent(v: Path) returns (e: int)
      requires v != []
      modifies `disk, `calls
      ensures e == 0 ==> DirsFree(old(disk), Parent(v)) && disk == CreateDirs(old(disk), Parent(v))
      ensures e != 0 ==> disk == old(disk) && e == EIO
      ensures old(calls) <= calls
      ensures DirsFree(old(disk), Parent(v)) ==> (e == EIO <==> Faulty(faulty, old(calls), calls))
    {
      if !DirsFree(disk, Parent(v)) { return EIO; }
      var failed := Fails();
      if failed { return EIO; }
      disk := CreateDirs(disk, Parent(v));
      e := 0;
    }

    // ---- masks: disk first, then memory ----

    method RemoveWhiteout(v: Path)
      requires v != []
      modifies `disk, `whiteouts
      ensures Snap() == DropWhiteout(old(Snap()), v)
    {
      disk := disk - {WhPath(v)};
      whiteouts := whiteouts - {v};
    }

    method CreateWhiteout(v: Path)
      requires v != [] && DirsFree(disk, Parent(v))
      modifies `disk, `whiteouts
      ensures Snap() == AddWhiteout(old(Snap()), v)
    {
      disk := CreateDirs(disk, Parent(v));
      disk := disk[WhPath(v) := File([])];
      whiteouts := whiteouts + {v};
    }

    method MarkOpaque(d: Path)
      modifies `disk, `opaques
      ensures Snap() == AddOpaque(old(Snap()), d)
    {
      disk := disk[OpqPath(d) := File([])];
      opaques := opaques + {d};
    }

    /** CollectChildren: the host listing, then the layers' names, then the deleted names taken out. */
    method CollectChildren(v: Path) returns (names: set<Name>)
      ensures names == Children(Snap(), lower, v)
    {
      hide Inv, LowerOk;
      names := {};
      var deleted: set<Name> := {};
      var isOpaque := false;
      var listing := set q | q in disk && q != [] && Parent(q) == v;
      ghost var seen: set<Path> := {};
      while listing != {}
        invariant listing !! seen && listing + seen == set q | q in disk && q != [] && Parent(q) == v
        invariant names == set q | q in seen && !IsMarker(Last(q)) :: Last(q)
        invariant deleted == set q | q in seen && IsMarker(Last(q)) && Last(q) != OPQ :: Unwh(Last(q))
        invariant isOpaque <==> OpqPath(v) in seen
        decreases listing
      {
        var q :| q in listing;
        var n := Last(q);
        ParentLast(q);
        ChildOf(v, OPQ);
        MarkerNames("");
        if n == OPQ {
          isOpaque := true;
        } else if IsMarker(n) {
          deleted := deleted + {Unwh(n)};
        } else {
          names := names + {n};
        }
        listing := listing - {q};
        seen := seen + {q};
      }
      ChildOf(v, OPQ);
      assert seen == set q | q in disk && q != [] && Parent(q) == v;
      if !isOpaque {
        names := names + lower.names(v);
      }
      names := names - deleted;
      assert deleted == WhiteoutNames(disk, v);
    }

    /** VfsReaddirTyped: of the collected names, those that resolve; a guest name is listed exactly when it resolves. */
    method VfsReaddirTyped(v: Path) returns (names: set<Name>)
      requires Valid() && Clean(v)
      ensures forall n :: GoodName(n) ==> (n in names <==> At(Snap(), lower, v + [n]).Some?)
    {
      hide Inv, LowerOk, Children;
      names := {};
      var collected := CollectChildren(v);
      var rest := collected;
      while rest != {}
        invariant rest <= collected
        invariant forall n :: n in names <==> n in collected - rest && At(Snap(), lower, v + [n]).Some?
        decreases rest
      {
        var n :| n in rest;
        if Resolve(Snap(), lower, v + [n]) != Miss { names := names + {n}; }
        rest := rest - {n};
      }
      CollectedAll(Snap(), lower, v);
    }

    // ---- operations ----

    /**
     * VfsMkdir. Success on a name that is not there makes an empty directory and changes nothing else. Failure leaves
     * the view as it was exactly when no deletion was lifted that hid a lower copy; else the layers' subtree is back.
     */
    method VfsMkdir(v: Path) returns (e: int)
      requires Valid() && ParentThere(v)
      modifies this
      ensures Valid()
      ensures e == 0 && Visible(old(Snap()), lower, v) == None ==>
        ViewSet(old(Snap()), Snap(), lower, v, Some(Dir))
      ensures e != 0 && Visible(old(Snap()), lower, v) == None ==> e == EIO
      ensures e != 0 ==> (ViewKept(old(Snap()), Snap(), lower) <==> SafeToLift(old(Snap()), lower, v))
      ensures e != 0 && !SafeToLift(old(Snap()), lower, v) ==> Restored(old(Snap()), Snap(), lower, v)
      ensures old(calls) <= calls && (e == EIO <==> Faulty(faulty, old(calls), calls))
    {
      hide Inv, LowerOk, Blocked, Visible, ViewSet, ViewKept, SameOutside, SafeToLift, Restored;
      ghost var s0 := Snap();
      CleanParent(v);
      var recreateOverLower := v in whiteouts;
      Undeleted(s0, lower, v);
      if !SafeToLift(s0, lower, v) { UndeletedRestores(s0, lower, v); }
      DropWhiteoutKeeps(s0, lower, v);
      RemoveWhiteout(v);
      ghost var s1 := Snap();
      ParentStays(s0, s1, lower, v);
      MakeDirsKeeps(s1, lower, Parent(v));
      e := EnsureWriteParent(v);
      if e != 0 { return; }
      ghost var s2 := Snap();
      assert s2 == MakeDirs(s1, Parent(v));
      ViewKeptByDirs(s0, s1, s2, lower);
      RestoredByDirs(s0, s1, s2, lower, v);
      NothingInTheWay(s0, s2, lower, v);
      e := HostMkdir(v);
      if e != 0 { return; }
      if recreateOverLower {
        MarkOpaque(v);
      }
      MkdirRefines(s0, s1, s2, Snap(), lower, v, recreateOverLower);
    }

    /** VfsCreate: an empty file at a name that is not there, nothing else; failure as for VfsMkdir. */
    method VfsCreate(v: Path) returns (e: int)
      requires Valid() && ParentThere(v)
      modifies this
      ensures Valid()
      ensures e == 0 && Visible(old(Snap()), lower, v) == None ==>
        ViewSet(old(Snap()), Snap(), lower, v, Some(File([])))
      ensures e != 0 && Visible(old(Snap()), lower, v) == None ==> e == EIO
      ensures e != 0 ==> (ViewKept(old(Snap()), Snap(), lower) <==> SafeToLift(old(Snap()), lower, v))
      ensures e != 0 && !SafeToLift(old(Snap()), lower, v) ==> Restored(old(Snap()), Snap(), lower, v)
      ensures old(calls) <= calls && (e == EIO <==> Faulty(faulty, old(calls), calls))
    {
      hide Inv, LowerOk, Blocked, Visible, ViewSet, ViewKept, SameOutside, SafeToLift, Restored;
      ghost var s0 := Snap();
      CleanParent(v);
      Undeleted(s0, lower, v);
      if !SafeToLift(s0, lower, v) { UndeletedRestores(s0, lower, v); }
      DropWhiteoutKeeps(s0, lower, v);
      RemoveWhiteout(v);
      ghost var s1 := Snap();
      ParentStays(s0, s1, lower, v);
      MakeDirsKeeps(s1, lower, Parent(v));
      e := EnsureWriteParent(v);
      if e != 0 { return; }
      ghost var s2 := Snap();
      assert s2 == MakeDirs(s1, Parent(v));
      ViewKeptByDirs(s0, s1, s2, lower);
      RestoredByDirs(s0, s1, s2, lower, v);
      NothingInTheWay(s0, s2, lower, v);
      e := HostCreate(v);
      if e != 0 { return; }
      CreateRefines(s0, s1, s2, Snap(), lower, v);
    }

    /** VfsUnlink: the file goes, and stays gone whatever the layers hold; an error changes nothing. */
    method VfsUnlink(v: Path) returns (e: int)
      requires Valid() && ParentThere(v)
      modifies this
      ensures Valid()
      ensures e == 0 ==> ViewSet(old(Snap()), Snap(), lower, v, None)
      ensures e != 0 ==> Snap() == old(Snap())
      ensures e != 0 ==> e == EIO || Visible(old(Snap()), lower, v) == Some(Dir)
      ensures v !in old(disk) ==> e == 0
      ensures old(calls) <= calls && (e == EIO <==> Faulty(faulty, old(calls), calls))
    {
      hide Inv, LowerOk, Blocked, Visible, ViewSet, SameOutside;
      ghost var s0 := Snap();
      OwnIsVisible(s0, lower, v);
      e := HostUnlink(v);
      if e != 0 && e != ENOENT { return; }
      ghost var s1 := Snap();
      if e == 0 {
        UnlinkKeeps(s0, lower, v);
      } else {
        OutsideSame(s0, lower, v);
        assert s1 == s0;
      }
      HideRest(s0, s1, lower, v);
      if Resolve(Snap(), lower, v) != Miss {
        CreateWhiteout(v);
      }
      e := 0;
    }

    /**
     * VfsRmdir succeeds exactly on a directory that lists no name. Such a directory showed nothing, and now it and
     * everything below is gone; sweeping its markers brings nothing back.
     */
    method VfsRmdir(v: Path) returns (e: int)
      requires Valid() && ParentThere(v) && Visible(Snap(), lower, v) == Some(Dir)
      modifies `disk, `whiteouts, `opaques
      ensures Valid()
      ensures e == 0 <==> Children(old(Snap()), lower, v) == {}
      ensures e == 0 ==> forall p :: Clean(p) && Under(v, p) && p != v ==> Visible(old(Snap()), lower, p) == None
      ensures e == 0 ==> ViewSet(old(Snap()), Snap(), lower, v, None)
      ensures e != 0 ==> Snap() == old(Snap()) && e == ENOTEMPTY
    {
      hide LowerOk, Blocked, ViewSet, SameOutside;
      ghost var s0 := Snap();
      var children := CollectChildren(v);
      if children != {} {
        return ENOTEMPTY;
      }
      EmptyDirectory(s0, lower, v);
      SweepMarkers(v);
      ghost var s1 := Snap();
      HostRmdir(v);
      RmdirLeaves(s0, s1, Snap(), lower, v);
      HideRest(s0, Snap(), lower, v);
      if Resolve(Snap(), lower, v) != Miss {
        CreateWhiteout(v);
      }
      e := 0;
    }

    /** The sweep of a directory's markers, each removal mirrored in memory. */
    method SweepMarkers(v: Path)
      requires Valid() && v != [] && Clean(v)
      modifies `disk, `whiteouts, `opaques
      ensures Valid() && SameOutside(old(Snap()), Snap(), lower, v)
      ensures MarkerNamesIn(disk, v) == {} && OwnNames(disk, v) == OwnNames(old(disk), v)
      ensures v in disk <==> v in old(disk)
      ensures v in disk ==> disk[v] == old(disk)[v]
      ensures v in whiteouts <==> v in old(whiteouts)
    {
      hide Inv, LowerOk, SameOutside, MarkerNamesIn, OwnNames;
      var rest := MarkerNamesIn(disk, v);
      OutsideSame(Snap(), lower, v);
      while rest != {}
        invariant Valid() && SameOutside(old(Snap()), Snap(), lower, v)
        invariant rest == MarkerNamesIn(disk, v) && OwnNames(disk, v) == OwnNames(old(disk), v)
        invariant v in disk <==> v in old(disk)
        invariant v in disk ==> disk[v] == old(disk)[v]
        invariant v in whiteouts <==> v in old(whiteouts)
        decreases rest
      {
        var n :| n in rest;
        ghost var s := Snap();
        MarkerThere(s, v, n);
        if n == OPQ {
          DropOpaqueKeeps(s, lower, v);
          disk := disk - {OpqPath(v)};
          opaques := opaques - {v};
        } else {
          DropWhiteoutKeeps(s, lower, v + [Unwh(n)]);
          RemoveWhiteout(v + [Unwh(n)]);
          OutsideWider(s, Snap(), lower, v, v + [Unwh(n)]);
        }
        OneMarkerLess(s.disk, disk, v, n);
        OutsideTrans(old(Snap()), s, Snap(), lower, v);
        rest := rest - {n};
      }
    }

    // ---- copy-up and rename ----

    /**
     * CopyUp: the lower copy of `v` becomes a writelayer entry. It shows nothing new, and after success a second call
     * finds nothing to do. A failed write leaves nothing behind.
     */
    method CopyUp(v: Path, rr: Hit) returns (e: int)
      requires Valid() && ParentThere(v) && rr == Resolve(Snap(), lower, v) && rr != Miss
      modifies `disk, `calls
      ensures Valid() && Copied(old(Snap()), Snap(), lower)
      ensures e == 0 ==> Resolve(Snap(), lower, v) == InWriteLayer(rr.node)
      ensures rr.InWriteLayer? ==> e == 0 && disk == old(disk)
      ensures e == 0 || e == EIO
      ensures forall q :: q in disk && q !in old(disk) ==> Under(q, v)
      ensures old(calls) <= calls && (e == EIO <==> Faulty(faulty, old(calls), calls))
    {
      hide Inv, LowerOk, Blocked, Visible, Clean;
      ghost var s0 := Snap();
      if rr.InWriteLayer? { return 0; }
      if v in disk { return 0; }
      CleanParent(v);
      MakeDirsKeeps(s0, lower, Parent(v));
      MakeDirsCopies(s0, lower, Parent(v));
      e := EnsureWriteParent(v);
      if e != 0 { return; }
      ghost var s1 := Snap();
      assert s1 == MakeDirs(s0, Parent(v));
      StillBelow(s0, s1, lower, v);
      CopyKeeps(s1, lower, v, rr.node);
      if rr.node == Dir {
        var failed := Fails();
        if failed { return EIO; }
        disk := disk[v := Dir];
      } else {
        e := CopyFile(v, rr.node.data);
        if e != 0 { SameSnap(s1, Snap()); return; }
      }
      assert Snap() == Put(s1, v, rr.node);
      UnderParentForAll(v);
      e := 0;
    }

    /**
     * A lower file, opened: reads may be short, but one that has bytes to deliver delivers some; whether the host fails
     * a read is counted apart.
     */
    method OpenLower(data: seq<byte>) returns (src: Source)
      ensures HostReads(src, data)
    {
      src := MemSource(data);
    }

    /** The copy of a lower file, chunk by chunk; a copy that fails on the way is removed. */
    method CopyFile(v: Path, data: seq<byte>) returns (e: int)
      requires v !in disk
      modifies `disk, `calls
      ensures e == 0 ==> disk == old(disk)[v := File(data)]
      ensures e != 0 ==> e == EIO && disk == old(disk)
      ensures old(calls) <= calls && (e == EIO <==> Faulty(faulty, old(calls), calls))
    {
      hide Faulty, Faithful, HostReads;
      ghost var c0 := calls;
      FaultyOne(faulty, c0);
      var refused := Fails();
      if refused { return EIO; }
      ghost var before := disk;
      disk := disk[v := File([])];
      var src := OpenLower(data);
      var done: seq<byte> := [];
      while true
        invariant disk == before[v := File(done)] && done <= data
        invariant old(calls) <= calls && !Faulty(faulty, old(calls), calls)
        decreases |data| - |done|
      {
        ghost var c1 := calls;
        RemovedAgain(before, v, File(done));
        FaultyOne(faulty, c1);
        var unread := Fails();
        FaultyParts(faulty, c0, c1, calls);
        if unread {
          disk := disk - {v};
          return EIO;
        }
        var r := src.read(CHUNK, |done|);
        NextChunk(src, data, CHUNK, done);
        if r.bytes == [] { break; }
        FaultyOne(faulty, c1 + 1);
        var failed := Fails();
        FaultyParts(faulty, c0, c1 + 1, calls);
        if failed {
          disk := disk - {v};
          return EIO;
        }
        done := done + r.bytes;
        disk := disk[v := File(done)];
      }
      e := 0;
    }

    /** VfsTruncate by name: a lower file is copied up first, then cut or padded with zeros. Nothing else changes. */
    method VfsTruncate(v: Path, size: nat) returns (e: int)
      requires Valid() && ParentThere(v) && Visible(Snap(), lower, v).Some? && Visible(Snap(), lower, v) != Some(Dir)
      modifies `disk, `calls
      ensures Valid()
      ensures e == 0 ==>
        ViewSet(old(Snap()), Snap(), lower, v, Some(File(Resized(Visible(old(Snap()), lower, v).value.data, size))))
      ensures e != 0 ==> ViewKept(old(Snap()), Snap(), lower) && e == EIO
      ensures old(calls) <= calls && (e == EIO <==> Faulty(faulty, old(calls), calls))
    {
      hide Inv, LowerOk, Visible, Blocked, ViewSet, ViewKept, Faulty, Copied, Clean;
      ghost var s0 := Snap();
      ghost var c0 := calls;
      FaultyOne(faulty, c0);
      CopiedSelf(s0, lower);
      AtVisible(s0, lower, v);
      var rr := Resolve(Snap(), lower, v);
      if rr == Miss { return ENOENT; }
      e := 0;
      if !rr.InWriteLayer? { e := CopyUp(v, rr); }
      ghost var s1 := Snap();
      ghost var c1 := calls;
      CopiedKeepsView(s0, s1, lower);
      if e != 0 { return; }
      var failed := Fails();
      FaultyOne(faulty, c1);
      FaultyParts(faulty, c0, c1, calls);
      if failed { return EIO; }
      CopiedFile(s0, s1, lower, v);
      var data := Resized(disk[v].data, size);
      CopiedView(s0, s1, lower, Parent(v));
      TruncateRefines(s0, s1, lower, v, File(data));
      disk := disk[v := File(data)];
    }

    /**
     * DeepCopyUp: the merged subtree at `v`, copied up in place. Nothing visible changes; success leaves every visible
     * path of the subtree in the writelayer, and means no directory there lists a name that does not resolve; ENOENT
     * means one does, or `v` itself is not there. A subtree already in the writelayer is left as it is.
     */
    method DeepCopyUp(v: Path, ghost depth: nat) returns (e: int)
      requires Valid() && ParentThere(v)
      requires DepthOk(disk, depth) && DepthOk(lower.nodes, depth) && |v| <= depth + 1
      modifies `disk, `calls
      ensures Valid() && Copied(old(Snap()), Snap(), lower) && DepthOk(disk, depth)
      ensures e == 0 ==> v in disk && UpFrom(Snap(), lower, v)
      ensures e == 0 ==> At(old(Snap()), lower, v).Some? && !Denied(old(Snap()), lower, v)
      ensures e == ENOENT ==> At(old(Snap()), lower, v) == None || Denied(old(Snap()), lower, v)
      ensures e == 0 || e == ENOENT || e == EIO
      ensures UpFrom(old(Snap()), lower, v) ==> disk == old(disk)
      ensures Around(old(disk), disk, v)
      ensures old(calls) <= calls && (e == EIO <==> Faulty(faulty, old(calls), calls))
      decreases depth + 1 - |v|
    {
      hide Inv, LowerOk, Visible, UpFrom, Children, Blocked, Denied, Under, Clean, Around;
      ghost var s0 := Snap();
      CopiedSelf(s0, lower);
      var rr := Resolve(Snap(), lower, v);
      AroundIfAbove(s0.disk, s0.disk, v);
      if rr == Miss { return ENOENT; }
      UpThere(s0, lower, v);
      e := CopyUp(v, rr);
      AroundIfAbove(s0.disk, disk, v);
      DepthStays(s0.disk, disk, lower, v, depth);
      if e != 0 { return; }
      ghost var s1 := Snap();
      if rr.node != Dir {
        FileIsUp(s1, lower, v);
        FileNotDenied(s0, lower, v);
        return;
      }
      var children := CollectChildren(v);
      ChildrenStay(s0, s1, lower, v);
      CollectedAll(s1, lower, v);
      CollectedAreGood(s1, lower, v);
      DirThere(s0, lower, v);
      CopiedSelf(s1, lower);
      var rest := children;
      while rest != {}
        invariant Valid() && Copied(s0, Snap(), lower) && Copied(s1, Snap(), lower) && DepthOk(disk, depth)
        invariant rest <= children
        invariant forall n :: n in children - rest ==> UpFrom(Snap(), lower, v + [n])
        invariant forall n :: n in children - rest ==> At(s0, lower, v + [n]).Some? && !Denied(s0, lower, v + [n])
        invariant UpFrom(s0, lower, v) ==> disk == s0.disk
        invariant Around(s0.disk, disk, v)
        invariant old(calls) <= calls && !Faulty(faulty, old(calls), calls)
        decreases rest
      {
        var c :| c in rest;
        ghost var s := Snap();
        ChildOf(v, c);
        CleanChild(v, c);
        CopiedView(s0, s, lower, v);
        DeniedStays(s0, s, lower, v + [c]);
        CopiedAt(s0, s, lower, v + [c]);
        if UpFrom(s0, lower, v) {
          UpFromChild(s0, lower, v, c);
          UpFromStays(s0, s, lower, v + [c]);
        }
        e := DeepCopyUp(v + [c], depth);
        AroundChild(s0.disk, s.disk, disk, v, c);
        CopiedTrans(s0, s, Snap(), lower);
        CopiedTrans(s1, s, Snap(), lower);
        if e != 0 {
          if e == ENOENT { DeniedWider(s0, lower, v, c); }
          return;
        }
        forall n | n in children - rest
          ensures UpFrom(Snap(), lower, v + [n])
        {
          UpFromStays(s, Snap(), lower, v + [n]);
        }
        rest := rest - {c};
      }
      UpFromChildren(Snap(), lower, v, children);
      NoneDenied(s0, lower, v);
      e := 0;
    }

    /** rename(2) on the writelayer, with its reason when it refuses. */
    method HostRename(a: Path, b: Path) returns (e: int)
      requires a != b && a != [] && b != []
      modifies `disk, `calls
      ensures e == 0 ==> CanRename(old(disk), a, b) && disk == Moved(old(disk), a, b)
      ensures e != 0 ==> disk == old(disk) && HostRefusal(old(disk), a, b, e)
      ensures e != 0 && e != EIO ==> !CanRename(old(disk), a, b)
      ensures old(calls) <= calls && (e == EIO <==> Faulty(faulty, old(calls), calls))
    {
      if a !in disk || Parent(b) !in disk { return ENOENT; }
      if disk[Parent(b)] != Dir { return ENOTDIR; }
      if Under(a, b) { return EINVAL; }
      if Under(b, a) { return ENOTEMPTY; }
      if b in disk {
        if disk[b] == Dir && disk[a] != Dir { return EISDIR; }
        if disk[b] != Dir && disk[a] == Dir { return ENOTDIR; }
        NoNamesNoChild(disk, b);
        if disk[b] == Dir && (OwnNames(disk, b) != {} || MarkerNamesIn(disk, b) != {}) { return ENOTEMPTY; }
      }
      var failed := Fails();
      if failed { return EIO; }
      disk := Moved(disk, a, b);
      e := 0;
    }

    /** RenameMaskPrefix: the masks follow the markers that moved with a directory. */
    method RenameMaskPrefix(a: Path, b: Path)
      modifies `whiteouts, `opaques
      ensures whiteouts == RenameSet(old(whiteouts), a, b) && opaques == RenameSet(old(opaques), a, b)
    {
      whiteouts := RewriteMask(whiteouts, a, b);
      opaques := RewriteMask(opaques, a, b);
    }

    /**
     * VfsRename. Success empties the old place for good and leaves everything else but the destination as it was; the
     * destination shows exactly the file or the merged subtree that moved if and only if no name the layers still hold
     * there joins it. Failure keeps the view, unless it came after a deletion of a lower copy was lifted at the
     * destination: then the layers' subtree is back there. Refused are, besides host errors, exactly a directory that
     * lists a name that does not resolve and what the host refuses by the writelayer's own entries.
     */
    method VfsRename(a: Path, b: Path) returns (e: int)
      requires Valid() && a != b && ParentThere(a) && ParentThere(b) && Visible(Snap(), lower, a).Some?
      modifies this
      ensures Valid()
      ensures e == 0 ==> RenamedView(old(Snap()), Snap(), lower, a, b)
      ensures e != 0 && SafeToLift(old(Snap()), lower, b) ==> ViewKept(old(Snap()), Snap(), lower)
      ensures e != 0 && !ViewKept(old(Snap()), Snap(), lower) ==> Restored(old(Snap()), Snap(), lower, b)
      ensures e == 0 ==> !Denied(old(Snap()), lower, a) && DiskAllows(old(Snap()), lower, a, b)
      ensures e != 0 ==> Refusal(old(Snap()), lower, a, b, e)
      ensures old(calls) <= calls && (e == EIO <==> Faulty(faulty, old(calls), calls))
    {
      hide Faulty, DiskAllows, Refusal, HostRefusal, CanRename, Inv, LowerOk, Visible, Moved, RenameSet, RenamedView,
        UpFrom, Renamable, Blocked, SafeToLift, Restored, Denied, Clean, Disjoint, HasChild;
      ghost var s0 := Snap();
      ghost var c0 := calls;
      FaultyOne(faulty, c0);
      PlainRefusals(s0, lower, a, b);
      var rr := Resolve(Snap(), lower, a);
      if rr == Miss { return ENOENT; }
      var isDir := rr.node == Dir;
      if isDir {
        ghost var depth := Deepest(disk.Keys + lower.nodes.Keys + {a});
        e := DeepCopyUp(a, depth);
      } else {
        e := 0;
        CopiedSelf(s0, lower);
        if !rr.InWriteLayer? {
          e := CopyUp(a, rr);
        }
        if e == 0 { FileIsUp(Snap(), lower, a); FileNotDenied(s0, lower, a); }
      }
      ghost var s1 := Snap();
      ghost var c1 := calls;
      CopiedKeepsView(s0, s1, lower);
      if e != 0 { return; }
      CleanParent(b);
      CopiedView(s0, s1, lower, Parent(b));
      MakeDirsKeeps(s1, lower, Parent(b));
      MakeDirsCopies(s1, lower, Parent(b));
      e := EnsureWriteParent(b);
      ghost var c2 := calls;
      FaultyParts(faulty, c0, c1, c2);
      if e != 0 { return; }
      ghost var s2 := Snap();
      assert s2 == MakeDirs(s1, Parent(b));
      CopiedTrans(s0, s1, s2, lower);
      UpFromStays(s1, s2, lower, a);
      DropWhiteoutKeeps(s2, lower, b);
      RemoveWhiteout(b);
      ghost var s3 := Snap();
      e := HostRename(a, b);
      FaultyParts(faulty, c0, c2, calls);
      DroppedTree(s2, b);
      AnswerCarries(s0, s2, s3.disk, lower, a, b, e);
      if e != 0 {
        UndeletedAfterCopies(s0, s2, lower, b);
        return;
      }
      AllowedFacts(s3.disk, a, b);
      ReadyToRename(s2, s3, lower, a, b);
      RenameRefinesForAll(s0, s2, lower, a, b);
      if isDir {
        RenameMaskPrefix(a, b);
      } else {
        FileHasNoMasks(s3, a, b);
      }
      assert Snap() == Renamed(s3, a, b);
      if Resolve(Snap(), lower, a) != Miss {
        CreateWhiteout(a);
      }
      e := 0;
    }
  }

  /** Of the host calls numbered from `from` up to `to` one failed. */
  ghost predicate Faulty(faulty: nat -> bool, from: nat, to: nat) {
    exists i :: from <= i < to && faulty(i)
  }

  lemma FaultyParts(faulty: nat -> bool, a: nat, b: nat, c: nat)
    requires a <= b <= c
    ensures Faulty(faulty, a, c) <==> Faulty(faulty, a, b) || Faulty(faulty, b, c)
  {
    if i :| a <= i < b && faulty(i) { assert a <= i < c && faulty(i); }
    if i :| b <= i < c && faulty(i) { assert a <= i < c && faulty(i); }
  }

  lemma FaultyOne(faulty: nat -> bool, a: nat)
    ensures !Faulty(faulty, a, a) && (Faulty(faulty, a, a + 1) <==> faulty(a))
  {
    if faulty(a) { assert a <= a < a + 1 && faulty(a); }
  }

  /** Why rename(2) refuses; a host error may come at any time. */
  ghost predicate HostRefusal(t: Fs, a: Path, b: Path, e: int)
    requires b != []
  {
    || e == EIO
    || (e == ENOENT && (a !in t || Parent(b) !in t))
    || (e == ENOTDIR && Parent(b) in t && t[Parent(b)] != Dir)
    || (e == EINVAL && Under(a, b))
    || (e == ENOTEMPTY && !Under(a, b) && (Under(b, a) || HasChild(t, b)))
    || (e == EISDIR && Disjoint(a, b) && a in t && b in t && t[a] != Dir && t[b] == Dir)
    || (e == ENOTDIR && Disjoint(a, b) && a in t && b in t && t[a] == Dir && t[b] != Dir)
  }

  /** Why VfsRename refuses, in terms of the state before it. */
  ghost predicate Refusal(s: State, l: Lower, a: Path, b: Path, e: int) {
    || e == EIO
    || (e == ENOENT && (At(s, l, a) == None || Denied(s, l, a)))
    || (e == EINVAL && Under(a, b))
    || (e == ENOTEMPTY && (Under(b, a) || HasChild(s.disk, b)))
    || (e == EISDIR && Visible(s, l, a) != Some(Dir) && IsDirIn(s.disk, b))
    || (e == ENOTDIR && Visible(s, l, a) == Some(Dir) && b in s.disk && s.disk[b] != Dir)
  }

  lemma PlainRefusals(s: State, l: Lower, a: Path, b: Path)
    ensures Refusal(s, l, a, b, EIO)
    ensures At(s, l, a) == None || Denied(s, l, a) ==> Refusal(s, l, a, b, ENOENT)
  {
    hide Denied, At;
  }

  lemma AllowedFacts(t: Fs, a: Path, b: Path)
    requires CanRename(t, a, b)
    ensures Disjoint(a, b) && a in t && IsDirIn(t, Parent(b)) && (IsDirIn(t, b) ==> !HasChild(t, b))
    ensures b in t ==> (t[a] == Dir <==> t[b] == Dir)
  {
  }

  /** The host's answer, carried back from the state after the copies to the one before them. */
  lemma AnswerCarries(s0: State, s2: State, d: Fs, l: Lower, a: Path, b: Path, e: int)
    requires Inv(s2) && b != [] && Copied(s0, s2, l) && Clean(a) && a in s2.disk && Visible(s0, l, a).Some?
    requires TreeOk(d) && (d == s2.disk || d == s2.disk - {WhPath(b)})
    requires Parent(b) in s2.disk ==> s2.disk[Parent(b)] == Dir
    requires forall q :: q in s2.disk && q !in s0.disk ==> Under(q, a) || Under(a, q) || Under(q, Parent(b))
    ensures e != 0 && HostRefusal(d, a, b, e) ==>
      Refusal(s0, l, a, b, e) || (e == ENOENT && Parent(b) !in s0.disk && Parent(b) !in s2.disk)
    ensures e == 0 && CanRename(d, a, b) ==> DiskAllows(s0, l, a, b)
  {
    hide Inv, Denied, HasChild, Blocked, TreeOk, DiskClean, Mirrors, Clean;
    ChildOf(Parent(b), Wh(Last(b)));
    MarkerPathsNotClean(b);
    AtOwn(s2, l, a);
    AtVisible(s0, l, a);
    assert At(s2, l, a) == At(s0, l, a);
    if Disjoint(a, b) { DestinationStays(s0, s2, d, a, b); }
    if !IsDirIn(d, b) { FileHasNoChild(d, b); }
  }

  lemma InvIsTree(s: State)
    requires Inv(s)
    ensures TreeOk(s.disk)
  {
  }

  lemma DroppedTree(s: State, b: Path)
    requires b != [] && Inv(DropWhiteout(s, b))
    ensures TreeOk(s.disk - {WhPath(b)})
  {
  }

  lemma AtOwn(s: State, l: Lower, a: Path)
    requires Inv(s) && a in s.disk
    ensures At(s, l, a) == Some(s.disk[a])
  {
  }

  ghost predicate HostReads(src: Source, data: seq<byte>) {
    && src.bytes == data && Faithful(src)
    && forall n: nat, off: nat :: n > 0 ==>
      src.read(n, off).Data? && (off < |data| ==> src.read(n, off).bytes != [])
  }

  /** A chunk that was read continues what was copied, and an empty one means the end. */
  lemma NextChunk(src: Source, data: seq<byte>, n: nat, done: seq<byte>)
    requires HostReads(src, data) && n > 0 && done <= data
    ensures src.read(n, |done|).Data? && done + src.read(n, |done|).bytes <= data
    ensures src.read(n, |done|).bytes == [] ==> done == data
  {
    var got := src.read(n, |done|).bytes;
    assert got <= Slice(data, |done|, n);
  }

  lemma RemovedAgain(t: Fs, v: Path, n: Node)
    requires v !in t
    ensures t[v := n] - {v} == t
  {
  }

  lemma SameSnap(a: State, b: State)
    requires a.disk == b.disk && a.wh == b.wh && a.opq == b.opq
    ensures a == b
  {
  }

  /** The rewrite of one mask: entries at and below `a` are erased and collected under `b`, then merged back. */
  method RewriteMask(m: set<Path>, a: Path, b: Path) returns (r: set<Path>)
    ensures r == RenameSet(m, a, b)
  {
    r := m;
    var moved: set<Path> := {};
    var rest := m;
    ghost var seen: set<Path> := {};
    while rest != {}
      invariant rest !! seen && rest + seen == m
      invariant r == set p | p in m && (p in rest || !Under(a, p))
      invariant moved == set p | p in seen && Under(a, p) :: b + p[|a|..]
      decreases rest
    {
      var p :| p in rest;
      if Under(a, p) {
        assert p == a ==> b == b + p[|a|..];
        moved := moved + {if p == a then b else b + p[|a|..]};
        r := r - {p};
      }
      rest := rest - {p};
      seen := seen + {p};
    }
    assert seen == m;
    r := r + moved;
  }

  function Resized(data: seq<byte>, size: nat): (r: seq<byte>)
    ensures |r| == size && forall i :: 0 <= i < size ==> r[i] == if i < |data| then data[i] else 0
  {
    if size <= |data| then data[..size] else data + seq(size - |data|, i => 0)
  }

  lemma CopiedFile(s0: State, s1: State, l: Lower, v: Path)
    requires Inv(s1) && Copied(s0, s1, l) && Visible(s0, l, v).Some? && Visible(s0, l, v) != Some(Dir)
    requires v in s0.disk || Resolve(s1, l, v).InWriteLayer?
    ensures v in s1.disk && Visible(s0, l, v) == Some(s1.disk[v])
  {
    hide Inv;
    AtVisible(s0, l, v);
    CopiedAt(s0, s1, l, v);
    if v in s1.disk { AtOwn(s1, l, v); }
  }

  lemma TruncateRefines(s0: State, s1: State, l: Lower, v: Path, n: Node)
    requires Inv(s0) && Inv(s1) && Copied(s0, s1, l) && v != [] && Clean(v) && n.File?
    requires v in s1.disk && s1.disk[v].File? && Visible(s0, l, Parent(v)) == Some(Dir)
    ensures Inv(Put(s1, v, n)) && ViewSet(s0, Put(s1, v, n), l, v, Some(n))
  {
    PutKeeps(s1, l, v, n);
    assert SameOutside(s0, s1, l, v);
    OutsideTrans(s0, s1, Put(s1, v, n), l, v);
    Appears(s0, Put(s1, v, n), l, v, n);
  }

  lemma NoNamesNoChild(d: Fs, p: Path)
    ensures HasChild(d, p) <==> OwnNames(d, p) != {} || MarkerNamesIn(d, p) != {}
  {
    if HasChild(d, p) {
      var q :| q in d && q != [] && Parent(q) == p;
      assert Last(q) in OwnNames(d, p) || Last(q) in MarkerNamesIn(d, p);
    }
  }

  lemma ParentStays(s: State, s': State, l: Lower, v: Path)
    requires SameOutside(s, s', l, v) && v != [] && Clean(v)
    ensures Visible(s', l, Parent(v)) == Visible(s, l, Parent(v))
  {
    CleanParent(v);
    NotUnderParent(v);
    OutsideStays(s, s', l, v, Parent(v));
  }

  lemma ViewKeptByDirs(s0: State, s1: State, s2: State, l: Lower)
    requires forall q :: At(s2, l, q) == At(s1, l, q)
    ensures ViewKept(s0, s2, l) <==> ViewKept(s0, s1, l)
  {
    SameEverywhere(s1, s2, l);
  }

  lemma RestoredByDirs(s0: State, s1: State, s2: State, l: Lower, v: Path)
    requires forall q :: At(s2, l, q) == At(s1, l, q)
    ensures Restored(s0, s2, l, v) <==> Restored(s0, s1, l, v)
  {
    hide At;
  }

  lemma MkdirRefines(s0: State, s1: State, s2: State, s4: State, l: Lower, v: Path, rec: bool)
    requires Inv(s0) && LowerOk(l) && v != [] && Clean(v) && Visible(s0, l, Parent(v)) == Some(Dir)
    requires s1 == DropWhiteout(s0, v) && Inv(s1) && SameOutside(s0, s1, l, v) && Blocked(s1, v) == Blocked(s0, v)
    requires Inv(s2) && s2.wh == s1.wh && s2.opq == s1.opq && (forall q :: At(s2, l, q) == At(s1, l, q))
    requires CanMake(s2.disk, v) && rec == (v in s0.wh)
    requires s4 == if rec then AddOpaque(Put(s2, v, Dir), v) else Put(s2, v, Dir)
    ensures Inv(s4)
    ensures Visible(s0, l, v) == None ==> ViewSet(s0, s4, l, v, Some(Dir))
  {
    var s3 := Put(s2, v, Dir);
    PutKeeps(s2, l, v, Dir);
    if rec {
      AddOpaqueKeeps(s3, l, v);
      OutsideTrans(s2, s3, s4, l, v);
    }
    if Visible(s0, l, v) == None {
      MadeEmpty(s0, s2, s4, l, v, rec);
      Appears(s0, s4, l, v, Dir);
    }
  }

  /** The writelayer's own entry in a visible directory shows. */
  lemma OwnIsVisible(s: State, l: Lower, v: Path)
    requires Inv(s) && v != [] && Visible(s, l, Parent(v)) == Some(Dir)
    ensures v in s.disk ==> Visible(s, l, v) == Some(s.disk[v])
  {
  }

  /** Where nothing shows the host finds nothing in the way. */
  lemma NothingInTheWay(s0: State, s2: State, l: Lower, v: Path)
    requires Inv(s0) && v != [] && Clean(v) && Visible(s0, l, Parent(v)) == Some(Dir)
    requires IsDirIn(s2.disk, Parent(v))
    requires forall q :: q in s2.disk && q !in DropWhiteout(s0, v).disk ==> Under(q, Parent(v))
    ensures Visible(s0, l, v) == None ==> CanMake(s2.disk, v)
  {
    hide Inv, Visible;
    OwnIsVisible(s0, l, v);
    NotUnderParent(v);
  }

  /** Whatever hid the name before keeps hiding what lies below it. */
  lemma MadeEmpty(s0: State, s2: State, s4: State, l: Lower, v: Path, rec: bool)
    requires Inv(s0) && Inv(s2) && Inv(s4) && LowerOk(l) && v != [] && Clean(v)
    requires v !in s2.disk && rec == (v in s0.wh) && At(s0, l, v) == None
    requires s2.wh == s0.wh - {v} && s2.opq == s0.opq
    requires s4 == if rec then AddOpaque(Put(s2, v, Dir), v) else Put(s2, v, Dir)
    ensures forall q :: Clean(q) && q != [] && Parent(q) == v ==> At(s4, l, q) == None
  {
    AbsentHasNoChild(s2.disk, v);
    forall q | q in s4.disk && q != [] && Parent(q) == v
      ensures !Clean(q)
    {
      MarkerPathsNotClean(v);
    }
    SameMasksAbove(s0, s4, v, v);
    NewDirectoryIsEmpty(s0, s4, l, v);
  }

  lemma CreateRefines(s0: State, s1: State, s2: State, s3: State, l: Lower, v: Path)
    requires Inv(s0) && LowerOk(l) && v != [] && Clean(v) && Visible(s0, l, Parent(v)) == Some(Dir)
    requires s1 == DropWhiteout(s0, v) && SameOutside(s0, s1, l, v)
    requires Inv(s2) && s2.wh == s1.wh && s2.opq == s1.opq && (forall q :: At(s2, l, q) == At(s1, l, q))
    requires forall q :: q in s2.disk && q !in s1.disk ==> Under(q, Parent(v))
    requires if v in s2.disk then s3 == s2 else CanMake(s2.disk, v) && s3 == Put(s2, v, File([]))
    ensures Inv(s3)
    ensures Visible(s0, l, v) == None ==> ViewSet(s0, s3, l, v, Some(File([])))
  {
    if v in s2.disk {
      MarkerPathsNotClean(v);
      if v !in s1.disk { NotUnderParent(v); }
      assert v in s0.disk && At(s0, l, v) == Some(s0.disk[v]);
    } else {
      PutKeeps(s2, l, v, File([]));
      OutsideTrans(s1, s2, s3, l, v);
      OutsideTrans(s0, s1, s3, l, v);
      if Visible(s0, l, v) == None {
        Appears(s0, s3, l, v, File([]));
      }
    }
  }

  /** After `v` is off the disk, hiding what still resolves there leaves nothing of it. */
  lemma HideRest(s0: State, s1: State, l: Lower, v: Path)
    requires Inv(s1) && v != [] && Clean(v) && SameOutside(s0, s1, l, v) && v !in s1.disk
    requires Visible(s0, l, Parent(v)) == Some(Dir)
    ensures Resolve(s1, l, v) == Miss ==> ViewSet(s0, s1, l, v, None)
    ensures DirsFree(s1.disk, Parent(v)) && Inv(AddWhiteout(s1, v))
    ensures ViewSet(s0, AddWhiteout(s1, v), l, v, None)
  {
    ParentStays(s0, s1, l, v);
    AddWhiteoutKeeps(s1, l, v);
    OutsideTrans(s0, s1, AddWhiteout(s1, v), l, v);
    Vanishes(s0, AddWhiteout(s1, v), l, v);
    if Resolve(s1, l, v) == Miss {
      Vanishes(s0, s1, l, v);
    }
  }

  lemma RmdirLeaves(s0: State, s1: State, s2: State, l: Lower, v: Path)
    requires Inv(s0) && Inv(s1) && v != [] && Clean(v) && SameOutside(s0, s1, l, v)
    requires OwnNames(s1.disk, v) == {} && MarkerNamesIn(s1.disk, v) == {}
    requires v in s1.disk ==> s1.disk[v] == Dir
    requires s2 == s1.(disk := if IsDirIn(s1.disk, v) && !HasChild(s1.disk, v) then s1.disk - {v} else s1.disk)
    ensures Inv(s2) && SameOutside(s0, s2, l, v) && v !in s2.disk
  {
    NoNamesNoChild(s1.disk, v);
    DropKeeps(s1, l, v);
    if v in s1.disk {
      assert s2 == Drop(s1, v);
      OutsideTrans(s0, s1, s2, l, v);
    }
  }

  lemma MarkerThere(s: State, v: Path, n: Name)
    requires Inv(s) && Clean(v) && n in MarkerNamesIn(s.disk, v)
    ensures v + [n] in s.disk && IsMarker(n)
    ensures n != OPQ ==> Clean(v + [Unwh(n)]) && WhPath(v + [Unwh(n)]) == v + [n] && Under(v, v + [Unwh(n)])
  {
    var q :| q in s.disk && q != [] && Parent(q) == v && IsMarker(Last(q)) && Last(q) == n;
    ParentLast(q);
    if n != OPQ {
      MarkedPath(q);
      CleanChild(v, Unwh(n));
    }
  }

  lemma UnlinkKeeps(s: State, l: Lower, v: Path)
    requires Inv(s) && v != [] && Clean(v) && v in s.disk && s.disk[v].File?
    ensures Inv(Drop(s, v)) && SameOutside(s, Drop(s, v), l, v)
  {
    FileHasNoChild(s.disk, v);
    DropKeeps(s, l, v);
  }

  lemma OneMarkerLess(d: Fs, d': Fs, v: Path, n: Name)
    requires d' == d - {v + [n]} && IsMarker(n)
    ensures MarkerNamesIn(d', v) == MarkerNamesIn(d, v) - {n}
    ensures OwnNames(d', v) == OwnNames(d, v)
  {
    ChildOf(v, n);
    forall m
      ensures m in MarkerNamesIn(d', v) <==> m in MarkerNamesIn(d, v) && m != n
    {
      if m in MarkerNamesIn(d, v) && m != n {
        var q :| q in d && q != [] && Parent(q) == v && IsMarker(Last(q)) && Last(q) == m;
        assert q in d';
      }
      if m in MarkerNamesIn(d', v) {
        var q :| q in d' && q != [] && Parent(q) == v && IsMarker(Last(q)) && Last(q) == m;
        ParentLast(q);
      }
    }
    forall m
      ensures m in OwnNames(d', v) <==> m in OwnNames(d, v)
    {
      if m in OwnNames(d, v) {
        var q :| q in d && q != [] && Parent(q) == v && !IsMarker(Last(q)) && Last(q) == m;
        assert q in d';
      }
    }
  }

  // ---- copy-up and rename: glue ----

  lemma MakeDirsCopies(s: State, l: Lower, d: Path)
    requires Inv(s) && Clean(d) && Visible(s, l, d) == Some(Dir)
    ensures DirsFree(s.disk, d) && Copied(s, MakeDirs(s, d), l)
  {
    MakeDirsKeeps(s, l, d);
    CreateDirsMakes(s.disk, d);
  }

  /** A lower hit stays one when only directories above it are made. */
  lemma StillBelow(s0: State, s1: State, l: Lower, v: Path)
    requires v != [] && Resolve(s0, l, v).InLower? && s1.wh == s0.wh && s1.opq == s0.opq
    requires forall q :: q in s1.disk && q !in s0.disk ==> Under(q, Parent(v))
    ensures Resolve(s1, l, v) == Resolve(s0, l, v)
  {
    SameMasks(s0, s1, v);
    if v in s1.disk { assert Under(v, Parent(v)); NotUnderParent(v); }
  }

  lemma UnderParentForAll(v: Path)
    requires v != []
    ensures forall q :: Under(q, Parent(v)) ==> Under(q, v)
  {
    forall q | Under(q, Parent(v)) ensures Under(q, v) { UnderParent(q, v); }
  }

  lemma DepthStays(t: Fs, t': Fs, l: Lower, v: Path, depth: nat)
    requires DepthOk(t, depth) && |v| <= depth
    requires forall q :: q in t' && q !in t ==> Under(q, v)
    ensures DepthOk(t', depth)
  {
  }

  lemma FileIsUp(s: State, l: Lower, v: Path)
    requires Inv(s) && v in s.disk && s.disk[v] != Dir
    ensures UpFrom(s, l, v)
  {
    forall p | Clean(p) && Under(v, p) && Visible(s, l, p).Some?
      ensures p in s.disk
    {
      if p != v { VisiblePrefix(s, l, v, p); }
    }
  }

  /** What is already in the writelayer is served from there. */
  lemma UpThere(s: State, l: Lower, v: Path)
    requires v != [] && Clean(v) && Visible(s, l, Parent(v)) == Some(Dir) && Resolve(s, l, v) != Miss
    ensures UpFrom(s, l, v) ==> Resolve(s, l, v).InWriteLayer?
  {
    assert Visible(s, l, v).Some? && Under(v, v);
  }

  /** Whatever is new lies at, above or below `v`. */
  ghost predicate Around(t: Fs, t': Fs, v: Path) {
    forall q :: q in t' && q !in t ==> Under(q, v) || Under(v, q)
  }

  lemma AroundIfAbove(t: Fs, t': Fs, v: Path)
    requires forall q :: q in t' && q !in t ==> Under(q, v)
    ensures Around(t, t', v)
  {
  }

  lemma AroundChild(t0: Fs, t: Fs, t': Fs, v: Path, c: Name)
    requires Around(t0, t, v) && Around(t, t', v + [c])
    ensures Around(t0, t', v)
  {
    forall q | Under(q, v + [c]) ensures Under(q, v) || Under(v, q) { UnderParent(q, v + [c]); ChildOf(v, c); }
    forall q | Under(v + [c], q) ensures Under(v, q) { PrefixTransitive(v, v + [c], q); }
  }

  lemma FileNotDenied(s: State, l: Lower, v: Path)
    requires At(s, l, v) != Some(Dir)
    ensures !Denied(s, l, v)
  {
    forall p, n | Under(v, p)
      ensures !DeniedAt(s, l, p, n)
    {
      if Visible(s, l, p).Some? { VisiblePrefix(s, l, v, p); AtVisible(s, l, v); }
    }
  }

  lemma CollectedAll(s: State, l: Lower, v: Path)
    requires Inv(s) && LowerOk(l) && Clean(v)
    ensures forall n :: GoodName(n) && At(s, l, v + [n]).Some? ==> n in Children(s, l, v)
  {
    forall n | GoodName(n) && At(s, l, v + [n]).Some?
      ensures n in Children(s, l, v)
    {
      ResolvedIsCollected(s, l, v, n);
    }
  }

  lemma CollectedAreGood(s: State, l: Lower, v: Path)
    requires Inv(s) && LowerOk(l) && Clean(v)
    ensures forall n :: n in Children(s, l, v) ==> GoodName(n)
  {
    forall n | n in Children(s, l, v) ensures GoodName(n) {
      if n in OwnNames(s.disk, v) { OwnNameResolves(s, l, v, n); }
    }
  }

  lemma DirThere(s: State, l: Lower, v: Path)
    requires v != [] && Visible(s, l, Parent(v)) == Some(Dir) && At(s, l, v) == Some(Dir)
    ensures Visible(s, l, v) == Some(Dir)
  {
  }

  lemma CopiedTrans(a: State, b: State, c: State, l: Lower)
    requires Copied(a, b, l) && Copied(b, c, l)
    ensures Copied(a, c, l)
  {
  }

  lemma CopiedSelf(s: State, l: Lower)
    ensures Copied(s, s, l)
  {
  }

  lemma CopiedKeepsView(s0: State, s1: State, l: Lower)
    requires Copied(s0, s1, l)
    ensures ViewKept(s0, s1, l)
  {
    SameEverywhere(s0, s1, l);
  }

  lemma UndeletedAfterCopies(s0: State, s2: State, l: Lower, v: Path)
    requires Inv(s0) && Inv(s2) && LowerOk(l) && Copied(s0, s2, l) && v != [] && Clean(v)
    requires Visible(s0, l, Parent(v)) == Some(Dir)
    ensures if SafeToLift(s0, l, v) then ViewKept(s0, DropWhiteout(s2, v), l)
      else Restored(s0, DropWhiteout(s2, v), l, v)
  {
    hide Inv, Visible, Blocked;
    CopiedKeepsView(s0, s2, l);
    CopiedView(s0, s2, l, Parent(v));
    SameMasks(s0, s2, v);
    Undeleted(s2, l, v);
    if !SafeToLift(s2, l, v) { UndeletedRestores(s2, l, v); }
  }

  lemma ReadyToRename(s2: State, s3: State, l: Lower, a: Path, b: Path)
    requires Inv(s2) && Clean(a) && Clean(b) && a != [] && b != [] && s3 == DropWhiteout(s2, b) && Inv(s3)
    requires Disjoint(a, b) && a in s3.disk && IsDirIn(s3.disk, Parent(b))
    requires IsDirIn(s3.disk, b) ==> !HasChild(s3.disk, b)
    ensures Renamable(s3, a, b)
  {
    if !IsDirIn(s3.disk, b) { FileHasNoChild(s3.disk, b); }
  }

  lemma RenameRefinesForAll(s0: State, s2: State, l: Lower, a: Path, b: Path)
    requires Inv(s0) && LowerOk(l) && Inv(s2) && Copied(s0, s2, l) && UpFrom(s2, l, a)
    requires Clean(a) && Clean(b) && a != [] && b != []
    requires Visible(s0, l, a).Some? && Visible(s0, l, Parent(b)) == Some(Dir)
    requires Visible(s0, l, Parent(a)) == Some(Dir)
    requires Inv(DropWhiteout(s2, b)) && Renamable(DropWhiteout(s2, b), a, b)
    ensures var s5 := Renamed(DropWhiteout(s2, b), a, b);
      && Inv(s5) && DirsFree(s5.disk, Parent(a)) && Inv(AddWhiteout(s5, a))
      && (if Resolve(s5, l, a) != Miss then RenamedView(s0, AddWhiteout(s5, a), l, a, b)
        else RenamedView(s0, s5, l, a, b))
  {
    hide Inv, Copied, UpFrom, Renamable, Renamed, RenamedView, Visible, Resolve;
    var s5 := Renamed(DropWhiteout(s2, b), a, b);
    RenameRefines(s0, s2, s5, l, a, b);
    RenameRefines(s0, s2, AddWhiteout(s5, a), l, a, b);
  }

  /** A file has no markers below it, so its masks need no rewriting. */
  lemma FileHasNoMasks(s: State, a: Path, b: Path)
    requires Inv(s) && Renamable(s, a, b) && s.disk[a] != Dir
    ensures RenameSet(s.wh, a, b) == s.wh && RenameSet(s.opq, a, b) == s.opq
  {
    FileHasNoChild(s.disk, a);
    NoMasksBelowLeaf(s, a);
    NoMasksBelowLeaf(s, b);
    forall p ensures p in RenameSet(s.wh, a, b) <==> p in s.wh { }
    forall p ensures p in RenameSet(s.opq, a, b) <==> p in s.opq { }
  }
}
