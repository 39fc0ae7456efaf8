# A Dafny model of vidyagodfs

vidyagodfs mounts a stack of package layers (directories, stored zip archives, single files and binary deltas between
archives) as one tree, with a copy-on-write layer on top. This project models its logic and proves what the layers, the
delta files and the operations promise.

## The delta engine

`DeltaGenerate` and `Matcher` follow the generator: windows of 256 bytes of the base are indexed by a rolling hash, runs
are extended greedily into COPY segments, the rest becomes literals, cut into blocks and written in the `.vgdelta`
layout (`DeltaFormat`). `DeltaParse` and `DeltaCreate` read such a file back through a byte source and flatten it: a
delta over a delta has every COPY rewritten through the base's map (`DeltaMap`, `DeltaCompose`), with the code's 64-bit
arithmetic. `DeltaSource` serves any range through a block cache (`BlockCache`). `RoundTrip` puts them together: what
was generated reads back as the target, and a chain of files reads as their successive applications.

## The overlay

A path is a sequence of names and a host tree is a map from paths to nodes (`Tree`). The state is the writelayer as a
real tree, `.wh.` markers included, and the two masks held in memory (`OverlayState`). What a guest sees is the
kernel's walk: a path is visible when it and every directory on the way resolve. `VfsOps` holds the operations as
methods on a host that may fail any host call not about markers or deletions; which calls it fails, by number, is an
input, so that an operation that fails can be held to a call that did. `OverlayRun` shows that a run
of them, whatever is refused or fails in it, is a run of those that were carried out on an ordinary tree, with rename(2)
as `Tree.CanRename` and `Tree.Moved`, and exactly when it is not; and that a remount (`OverlaySeed`) shows the same tree.
`Kept` and `KeptRun` do the same for a kept folder, whose markers lie inside it and hide only the layers below.

The layers below are concrete in `Layers`: coverage, masking, source paths, the walk from the top, listings and
structural directories; well-formed layers are shown to give the operations the closed, completely listed view they
rely on. `Chains` and `Planner` follow the mount's planner from declared layers to mounted ones; `ChainBytes` connects
the chains to the delta engine and `Mount` the plan to the running filesystem.

## Archives

`ZipIndex` builds the index of an archive with its parent directories, `ZipLinks` joins and follows links inside it,
`ZipScan` walks the central directory with its ZIP64 records, and `ZipWriter` is a standard writer (PKWARE APPNOTE
sections 4.3.12, 4.3.14, 4.3.15, 4.3.16 and 4.5.3) whose archives the walk reads back.

## Where the code departs from what one would expect

- A COPY whose end passes 2^64 is accepted when composed over a delta (`DeltaCompose.ComposeAcceptsAWrappedCopy`); the
  exact condition is `DeltaCompose.ComposeSucceedsIff`.
- A segment kind that is neither COPY nor ADD means literals over a plain base and base bytes over a delta; exactly
  COPY and ADD mean one thing (`DeltaCompose.UnknownKindsDiverge`).
- The layout comment at `src/vgdelta.h:26` gives 32-bit table lengths; the code writes and reads 64 bits, and so does
  this model.
- The block cache mixes up sources from 2^24 on (`BlockCache.KeyCollides`, exactly when: `BlockCache.RightIff`).
- `VfsMkdir`, `VfsCreate` and `VfsRename` lift a deletion before they can fail (`OverlaySeams.FailureUndeletes`); the
  layers' subtree is then back, if `OverlayViews.SafeToLift` does not hold.
- `VfsRename` outside kept folders lets deleted lower contents join a directory moved to their name
  (`OverlaySeams.DeletedContentsJoin`; exactly when, `OverlayRename.MovedViewIff`). Inside a kept folder it does not.
- Below an opaque ancestor a directory can list names that do not resolve (`OverlaySeams.OverListed`). `VfsRmdir`
  refuses such a directory though it looks empty (`OverlaySeams.RefusedIff`), and `DeepCopyUp`, hence a rename of a
  directory above it, fails on it (`OverlaySeams.EmptyButListed`; exactly when, in its own contract).
- `VfsRename` asks only the writelayer whether the destination is in the way. It replaces a directory in which the
  layers' names show, which rename(2) refuses (`OverlaySeams.FullIsReplaced`; exactly when, `OverlayRun.ReplaceableIff`),
  and refuses an empty one that holds deletion markers, which rename(2) replaces (`OverlaySeams.EmptyIsRefused`; exactly
  when, `OverlayRun.MarkedIff`).
- In a kept folder a rename whose opaque marker cannot be written fails with everything moved: the new name is there and
  stays marked deleted, and the old one shows the layers' copy again (`Kept.KeptRename`).
- In a kept folder a deletion is recorded after the folder's own entry went. If recording fails, the call fails and the
  layers' subtree is back (`Kept.KeptUnlink`, `Kept.KeptRmdir`, `Kept.KeptRename`).

## Model

| member | source | states |
|---|---|---|
| Bytes.UnLe | src/vgdelta.cpp:91-94 | reading `n` little-endian bytes gives back the low `n` bytes of what was written: the value modulo 256^n |
| Bytes.LeUn | src/vgdelta.cpp:91-94 | writing back a value that was read gives the very bytes |
| Bytes.PutLe | src/vgdelta.cpp:91-92 | put32 and put64, shift by shift, append the little-endian bytes and touch nothing before them |
| Bytes.RdLe | src/vgdelta.cpp:93-94 | rd32 and rd64, byte by byte, compute the number those bytes spell |
| Sources.PreadAll | src/bytesource.h:39-49 | exactly the stored bytes of the range across any number of short reads; over a live source it fails if and only if the range is not all there |
| Sources.MemSourceIsExact | src/bytesource.h:65-77 | the in-memory reference source delivers what it holds and always makes progress |
| Concat.JoinedAt | src/bytesource.h:135-145 | each part occupies the joined address space right after the parts before it, with its declared bytes |
| Concat.ConcatByteSource.constructor | src/bytesource.h:139-145 | starts and lengths are laid out in order, empty and missing parts included |
| Concat.ConcatByteSource.Locate | src/bytesource.h:152-156 | the binary search always lands on a non-empty part that covers the position, so the gap break cannot be taken |
| Concat.ConcatByteSource.ReadPart | src/bytesource.h:155-163 | one turn delivers joined bytes from the position on, never what a part holds past its declared size |
| Concat.ConcatByteSource.Pread | src/bytesource.h:146-166 | whatever is delivered is a prefix of the slice of the joined declared bytes; over live parts it is exactly that slice |
| DeltaFormat.SegTableRoundTrip | src/vgdelta.cpp:447-450 | the 17-byte segment records decode to the segments they encode |
| DeltaFormat.BlockTableRoundTrip | src/vgdelta.cpp:454-456 | the 16-byte block records decode to the block index they encode |
| DeltaFormat.SegRecordLayout | src/vgdelta.cpp:447-450 | a segment record in literal positions: kind at 0 (0 for COPY, 1 for ADD), length at 1 and source offset at 9, 64 bits each |
| DeltaFormat.BlockRecordLayout | src/vgdelta.cpp:454-456 | a block record in literal positions: frame offset at 0, frame length at 8, block length at 12 |
| DeltaFormat.FileLayout | src/vgdelta.cpp:446-483 | a written file in literal positions: "VGD1", version 1, block size, target and base size, base hash, the two counts, and the first table's 64-bit lengths |
| DeltaFormat.HeaderRoundTrip | src/vgdelta.cpp:135-146 | every header field reads back, magic, version and block size are accepted |
| DeltaFormat.ParseEncoded | src/vgdelta.cpp:135-186 | parsing an encoded file gives back its tables and where its literal region starts, whatever follows, when the counts fit their fields and the lengths add up to the target size |
| DeltaParse.ReadTable | src/vgdelta.cpp:149-165 | one compressed table as its bytes say, with the code's own errors for short, mismatched and corrupt tables |
| DeltaParse.ParseDelta | src/vgdelta.cpp:135-186 | reading through a byte source, success is what the file's bytes say; over a live source failure is too, error by error |
| DeltaMap.SegAtCovers | src/vgdelta.cpp:188-193 | in a sorted gap-free map the binary search finds the one segment that covers an offset inside it |
| DeltaMap.FlatAt | src/vgdelta.cpp:284-297 | a segment's own bytes are the slice of the denoted bytes at its place |
| DeltaMap.FlatPiece | src/vgdelta.cpp:293-312 | any piece of a segment is the matching slice of the denoted bytes |
| DeltaMap.UpperBoundSplits | src/vgdelta.cpp:189-193 | the upper bound splits a sorted map into segments that start at or before the offset and those that start after |
| DeltaCompose.ComposeCopyMeans | src/vgdelta.cpp:218-228 | a COPY cut along the base's map denotes exactly the copied range of the base's bytes, in positive pieces |
| DeltaCompose.ComposeSucceedsIff | src/vgdelta.cpp:214-228 | over a well-formed map composition succeeds if and only if every segment that is not an ADD is empty, or starts inside the base and ends inside it or past 2^64 |
| DeltaCompose.ComposeAcceptsAWrappedCopy | src/vgdelta.cpp:218-228 | "fails exactly when some COPY leaves the base" does not hold: a COPY whose end passes 2^64 is accepted |
| DeltaCompose.ComposeCopyWraps | src/vgdelta.cpp:218-228 | what such a COPY composes to |
| DeltaCompose.OverPlain | src/vgdelta.cpp:229-239 | over a plain base the reader serves literals for every kind but COPY |
| DeltaCompose.OverDelta | src/vgdelta.cpp:217-228 | over a delta composition copies the base for every kind but ADD |
| DeltaCompose.UnknownKindsDiverge | src/vgdelta.cpp:217-239 | a parsed segment means the same bytes over a plain base and over a delta of the same bytes, for every base and literals, if and only if its kind is COPY or ADD |
| DeltaCompose.ComposeMeans | src/vgdelta.cpp:207-228 | composing a well-formed delta over a map denotes the delta applied to the bytes that map denotes |
| DeltaCompose.DirectMeans | src/vgdelta.cpp:229-239 | over a plain base the map denotes the delta applied to the base |
| DeltaCompose.PlaceMeans | src/vgdelta.cpp:242-243 | running target offsets make the map sorted and gap-free and change no byte |
| DeltaCompose.FlattenOverMeans | src/vgdelta.cpp:207-245 | flattening over a delta gives a sorted, gap-free map of positive segments that denotes the same bytes |
| DeltaCompose.FlattenDirectMeans | src/vgdelta.cpp:229-245 | the same over a base that is no delta |
| DeltaCompose.ChainMeans | src/vgdelta.cpp:207-245 | by induction: the one map of a chain of any length denotes its deltas applied one after the other |
| BlockCache.KeyCollides | src/vgdelta.cpp:248 | two blocks share a cache key if and only if their numbers are equal and their sources are equal modulo 2^24 |
| BlockCache.EmplaceTidy | src/vgdelta.cpp:259-265 | after an insert the keys are still the duplicate-free queue and at most 64 |
| BlockCache.EmplaceStores | src/vgdelta.cpp:259-265 | after an insert the key is held with its first block, and at most the oldest of 64 keys went |
| BlockCache.EmplaceAgrees | src/vgdelta.cpp:259-265 | an insert of the right block keeps every entry the right block |
| BlockCache.StepSafe | src/vgdelta.cpp:247-267 | one step of any reader, lookup, unlocked decompression or insert, keeps the cache right |
| BlockCache.RunSafe | src/vgdelta.cpp:247-267 | under any interleaving of readers every block served is the right one, with fewer than 2^24 sources and 2^40 blocks |
| BlockCache.CollisionServesTheWrongBlock | src/vgdelta.cpp:248 | two sources 2^24 apart, in a run of four steps: a reader is served the other source's block |
| BlockCache.RightIff | src/vgdelta.cpp:247-267 | over every store and every interleaving with blocks below 2^40, every block served is the right one if and only if there are at most 2^24 sources |
| LiteralStore.BlockOfStream | src/vgdelta.cpp:269-280 | block `b` of a well-formed store is that piece of the literal stream |
| LiteralStore.OffsetInBlock | src/vgdelta.cpp:271-276 | an offset inside the stream falls strictly inside an existing block, so every turn makes progress |
| DeltaSource.DeltaByteSource.GetAddBlock | src/vgdelta.cpp:247-267 | the block the store holds, from the cache or decompressed, and the cache stays right |
| DeltaSource.DeltaByteSource.ReadAdd | src/vgdelta.cpp:269-282 | exactly the asked-for literals, and termination, over a well-formed store |
| DeltaSource.DeltaByteSource.ReadCopy | src/vgdelta.cpp:299-307 | exactly the asked-for base bytes across short reads |
| DeltaSource.DeltaByteSource.ReadSeg | src/vgdelta.cpp:299-311 | the piece of a segment that a read covers, from the base or from the literals |
| DeltaSource.DeltaByteSource.Pread | src/vgdelta.cpp:284-315 | for every length and offset the slice of the reconstructed bytes, clipped at the end; no gap and no error branch over live sources |
| DeltaCreate.CutCopy | src/vgdelta.cpp:218-227 | the cutting loop computes the composition of one COPY, errors included |
| DeltaCreate.ComposeAll | src/vgdelta.cpp:216-228 | the composing loop computes the composition of all segments |
| DeltaCreate.PlaceAll | src/vgdelta.cpp:242 | the offset loop, with its running 64-bit sum |
| DeltaCreate.FittingIsCreatable | src/vgdelta.cpp:196-245 | a well-formed file over a base of its size is always accepted |
| DeltaCreate.CreatedMeans | src/vgdelta.cpp:196-245 | what was created over any base denotes the file applied to the base's bytes |
| DeltaCreate.Create | src/vgdelta.cpp:196-245 | acceptance exactly on parsable files that fit their base; over a well-formed one, a reader whose contents are the reconstruction |
| RollingHash.PowR | src/vgdelta.cpp:326 | square-and-multiply computes the power modulo 2^64 |
| RollingHash.HashWin | src/vgdelta.cpp:327 | the loop computes the window's polynomial hash modulo 2^64 |
| RollingHash.RollIsHash | src/vgdelta.cpp:412 | rolling one byte out and one in gives the hash of the next window, modulo 2^64 |
| Matcher.BuildIndex | src/vgdelta.cpp:372-378 | the index holds, for every hash of an aligned window, the first such window and nothing else |
| Matcher.MissMeansUnmatchable | src/vgdelta.cpp:396-411 | a miss means no indexed window equals this one |
| Matcher.ExtendForward | src/vgdelta.cpp:400-401 | the longest equal run from the seed: it stops at an end or at a differing byte |
| Matcher.ExtendBack | src/vgdelta.cpp:402-403 | the longest equal run backwards within the pending literals |
| Matcher.RolledHash | src/vgdelta.cpp:411-414 | after a miss the rolled hash is the direct hash of the next window |
| Matcher.Match | src/vgdelta.cpp:380-417 | segments spell the target over base and literals; every COPY equals its base range and cannot grow forward, nor back after literals; literals hold no matchable window; identical inputs give one COPY |
| DeltaGenerate.CutBlocks | src/vgdelta.cpp:427-444 | the literal stream cut into blocks, each frame where the index says |
| DeltaGenerate.WrittenStore | src/vgdelta.cpp:427-444 | the written blocks read back as the literal stream |
| DeltaGenerate.WriteFile | src/vgdelta.cpp:446-483 | the file is written as the format lays it out, field by field |
| DeltaGenerate.GenerateDelta | src/vgdelta.cpp:329-484 | a file that parses back to its own tables and whose application to the base is the target, for every target and block size within `SizesFit`; a target equal to a base of at least 256 bytes is one COPY |
| DeltaGenerate.SizesSuffice | src/vgdelta.cpp:329-484 | when the target's length and the block size leave room for the numbers of segments and blocks and for one compressed block, every count and length fits its field |
| RoundTrip.GenerateAndRead | src/vgdelta.cpp:329-484 | generate, parse, create over the same base and read any range: that range of the target, for every target and block size within `SizesFit` |
| RoundTrip.ReadBack | src/vgdelta.cpp:135-315 | any delta file of a target over a readable base, such as `DeltaGenerate.GenerateDelta` writes whenever its counts fit, reads back as the target, range by range |
| RoundTrip.CreateChain | src/vgdelta.cpp:196-245 | a chain of delta files created link by link serves the fold of their applications |
| Tree.CreateDirsMakes | src/overlay.cpp:724-730 | create_directories adds exactly the missing directories on the way |
| OverlayState.MarkerNames | src/overlay.cpp:329-332 | a whiteout marker's name gives back the name it hides and is never the opaque marker |
| OverlayState.MaskBlocks | src/overlay.cpp:399-421 | a deleted or opaque directory hides the layers' whole subtree |
| OverlaySteps.DropWhiteoutKeeps | src/overlay.cpp:351-356 | lifting a deletion keeps markers and masks in step and changes nothing outside the name's subtree |
| OverlaySteps.AddWhiteoutKeeps | src/overlay.cpp:341-349 | recording a deletion keeps them in step, hides the name, changes nothing else |
| OverlaySteps.AddOpaqueKeeps | src/overlay.cpp:363-369 | so does making a directory opaque |
| OverlaySteps.MakeDirsKeeps | src/overlay.cpp:724-730 | making the parent chain of a visible directory changes nothing that resolves |
| OverlayViews.ListingIsExact | src/vfsops.cpp:35-113 | a guest name is listed and served if and only if it resolves |
| OverlayViews.EmptyDirectory | src/vfsops.cpp:357-362 | a directory that collects no name shows nothing below it, at any depth |
| OverlayViews.Undeleted | src/overlay.cpp:351-356 | lifting a deletion keeps the view if and only if the name was not deleted, an ancestor's mask hides it, or no layer has it |
| OverlayViews.UndeletedRestores | src/overlay.cpp:351-356 | otherwise the layers' subtree is back whole at that name, and nothing else changes |
| OverlayViews.LayersShowWhole | src/overlay.cpp:470-551 | where a path resolves to the layers nothing of the writelayer, entry or mask, lies below it: their whole subtree shows |
| OverlayRename.CopyKeeps | src/overlay.cpp:732-851 | a lower copy written out where it shows changes nothing that resolves |
| OverlayRename.ChildrenStay | src/vfsops.cpp:35-113 | copying up changes no listing |
| OverlayRename.NoneDenied | src/vfsops.cpp:133-156 | a subtree lists a name that does not resolve only if its root does or the subtree of a listed child does |
| OverlayRename.RenamedInv | src/overlay.cpp:378-397 | after a moved directory and the rewritten masks, markers and masks are in step again |
| OverlayRename.RenamedAtDest | src/overlay.cpp:470-551 | what every path below the destination resolves to after a rename |
| OverlayRename.MovedViewIff | src/vfsops.cpp:398-442 | the moved subtree shows unchanged if and only if no name the layers hold at the destination joins it |
| OverlayRename.RenameRefines | src/vfsops.cpp:398-442 | a rename from the state before its copies: old place empty, rest unchanged, new place as said |
| OverlaySeams.OverListed | src/vfsops.cpp:35-113 | exactly which names CollectChildren collects that do not resolve: those the layers list though an ancestor's mask, or the layers themselves, deny them |
| OverlaySeams.RefusedIff | src/vfsops.cpp:357-362 | a directory that shows nothing is refused by rmdir if and only if the layers list such a name in it |
| OverlaySeams.EmptyButListed | src/vfsops.cpp:357-361 | in a state a mount can be in, a directory under an opaque one shows nothing and still lists a name: rmdir refuses it and DeepCopyUp fails on it |
| OverlaySeams.FailureUndeletes | src/vfsops.cpp:327-330 | a mkdir that fails after lifting the deletion leaves the deleted file visible |
| OverlaySeams.DeletedContentsJoin | src/vfsops.cpp:429-440 | a directory renamed to a deleted name is joined by the layers' deleted contents |
| OverlaySeams.FullIsReplaced | src/vfsops.cpp:429-430 | in a state a mount can be in, a rename onto a directory that shows the layers' file passes every check and replaces it, where rename(2) refuses |
| OverlaySeams.EmptyIsRefused | src/vfsops.cpp:429-430 | in another, a rename that rename(2) allows, onto a directory that shows nothing, is refused for the marker the directory holds |
| OverlaySeed.Walk | src/overlay.cpp:425-443 | the walk seeds exactly the deletions and opaque directories whose markers lie under no marker-named directory |
| OverlaySeed.RemountIsSame | src/overlay.cpp:425-443 | masks in step with the disk are what a remount seeds |
| OverlaySeed.SeedingMirrors | src/overlay.cpp:425-443 | a fresh mount is in step if and only if nothing on disk is both deleted and present |
| VfsOps.VfsState.constructor | src/overlay.cpp:67-76 | mounting an earlier session's writelayer starts with its markers as masks |
| VfsOps.VfsState.CreateWhiteout | src/overlay.cpp:341-349 | marker and parent chain on disk, then the mask |
| VfsOps.VfsState.RemoveWhiteout | src/overlay.cpp:351-356 | marker off the disk, then the mask |
| VfsOps.VfsState.CollectChildren | src/vfsops.cpp:35-113 | own names and, unless this directory is opaque, the layers', less the deleted |
| VfsOps.VfsState.VfsReaddirTyped | src/vfsops.cpp:203-213 | a guest name is yielded if and only if it resolves |
| VfsOps.VfsState.VfsMkdir | src/vfsops.cpp:306-332 | success makes an empty directory and changes nothing else; on a free name it fails exactly when the host failed a call of the operation; failure keeps the view if and only if no deletion of a lower copy was lifted, and otherwise brings back exactly the layers' subtree |
| VfsOps.VfsState.VfsCreate | src/vfsops.cpp:267-284 | success makes an empty file and changes nothing else; failure as for mkdir |
| VfsOps.VfsState.VfsUnlink | src/vfsops.cpp:334-355 | removes the name whatever the layers hold, unless it is a directory or the host failed the unlink; a file only the layers have always goes; failure changes nothing |
| VfsOps.VfsState.SweepMarkers | src/vfsops.cpp:383-391 | the marker sweep changes nothing outside the directory and keeps masks and markers in step |
| VfsOps.VfsState.VfsRmdir | src/vfsops.cpp:357-396 | succeeds if and only if the directory collects no name; it showed nothing, it and everything below is gone and nothing comes back; refusal changes nothing |
| VfsOps.VfsState.CopyUp | src/overlay.cpp:732-851 | nothing that resolves changes; it fails exactly when the host failed one of its calls, and otherwise the writelayer serves the same node; a second call does nothing |
| VfsOps.VfsState.CopyFile | src/overlay.cpp:802-851 | the chunk loop over short reads writes exactly the lower file's bytes; it fails exactly when the host failed a read or a write, and leaves no file behind then |
| VfsOps.VfsState.DeepCopyUp | src/vfsops.cpp:133-156 | nothing that resolves changes; success puts every visible path of the subtree in the writelayer, and implies that no directory there lists a name that does not resolve; ENOENT implies that one does, or that the root does not resolve; on a subtree already copied up it changes nothing; EIO means the host failed one of its calls |
| VfsOps.VfsState.VfsTruncate | src/vfsops.cpp:444-456 | exactly the file's bytes are cut or padded with zeros, after a copy-up if it is a lower file; it fails exactly when the host failed one of its calls |
| VfsOps.VfsState.RenameMaskPrefix | src/overlay.cpp:378-397 | the two mask rewrites move the entries at and below the old path to the new one |
| VfsOps.RewriteMask | src/overlay.cpp:378-397 | the loop that erases entries at and below a path, collects them under the new one and merges them back computes the moved mask |
| VfsOps.VfsState.VfsRename | src/vfsops.cpp:398-442 | success empties the old place and keeps the rest; the new place shows exactly what moved if and only if no lower name joins it; success means the writelayer held nothing in the way and no listed name was denied, and every refusal has its own reason: a host error, a denied name, or what the writelayer alone holds at the destination, markers included; a failure keeps the view, or, only where a deletion of a lower copy was lifted, brings back exactly the layers' subtree at the new place |
| VfsOps.VfsState.HostRename | src/vfsops.cpp:430 | the host call is rename(2): refused exactly as `Tree.CanRename` says, each error with its reason, or failed by the host; else `Tree.Moved` is the result |
| OverlayRun.ViewIsTree | src/overlay.cpp:470-551 | what a guest sees is a proper directory tree |
| OverlayRun.MovesAsPlain | src/vfsops.cpp:398-442 | a rename after which the new place shows what the old one showed turns the view into the tree with that subtree moved (`Tree.Moved`) |
| OverlayRun.ReplaceableIff | src/vfsops.cpp:429-430 | a rename the host lets through is one rename(2) allows on the view if and only if the kinds agree and, when the destination shows a directory, no name in it comes from the layers |
| OverlayRun.MarkedIff | src/vfsops.cpp:429-430 | a rename that rename(2) allows on the view passes the host's check if and only if the destination holds no markers |
| OverlayRun.RenameSeam | src/vfsops.cpp:398-442 | so such a rename is refused, the host failing no call, exactly for a denied name below its source or a marker in its destination |
| OverlayRun.FilesAreFree | src/vfsops.cpp:398-442 | a renamed file is never joined by lower names |
| OverlayRun.AllowedIff | src/vfsops.cpp:267-456 | what an ordinary tree allows is what the kernel admits, with rmdir's and rename's own conditions |
| OverlayRun.Step | src/vfsops.cpp:267-456 | a successful operation is one the ordinary tree allows, with its result, if and only if it was free of the layers' names; what the ordinary tree allows succeeds if and only if no seam is met and the host failed no call of it; each failure keeps the view, or brings back exactly the layers' subtree whose deletion it lifted |
| OverlayRun.Run | src/vfsops.cpp:267-456 | any run to its end, whatever is refused or fails on the way: an ordinary tree allows the operations that were carried out and shows after them what the guest sees, when no rename met lower names at its destination and no failure lifted a deletion; step by step in any case, masks and markers in step |
| OverlayRun.RunAndRemount | src/overlay.cpp:425-443 | after any such run a remount of the same writelayer resolves every path identically |
| PathText.SplitText | src/ziplayer.cpp:201-211 | the segments of a text, joined again, are the text |
| PathText.TextSplits | src/ziplayer.cpp:212-214 | slash-free segments survive being joined and split again |
| ZipIndex.ZipIndex.RegisterParents | src/ziplayer.cpp:65-78 | exactly the children on the way up from the entry are added, until the root or an empty segment |
| ZipIndex.ZipIndex.constructor | src/ziplayer.cpp:105-153 | the last entry of every name, and as children exactly the next segment of every entry below |
| ZipIndex.IndexIsClosed | src/ziplayer.cpp:65-78 | in a well-named archive every name that resolves is listed in its parent |
| ZipIndex.EntryAtPath | src/ziplayer.cpp:105-153 | an entry whose name is components joined by slashes is indexed under those components with its own size, kind and offset; with a slash at the end it is that directory |
| ZipLinks.StandingStep | src/ziplayer.cpp:200-210 | one segment pushes, pops, is skipped, or climbs out, by the depth of the walk so far |
| ZipLinks.JoinNormalized | src/ziplayer.cpp:197-215 | fails if and only if some prefix climbs above the root; otherwise the names no later ".." takes back, none of them empty, "." or ".." |
| ZipLinks.JoinedTextDenotes | src/ziplayer.cpp:212-215 | the joined text denotes that very path |
| ZipLinks.ResolveZipSymlink | src/ziplayer.cpp:219-240 | an entry if and only if at most eight valid hops lead to it and it is neither a link nor a directory |
| ZipLinks.HopIsRelative | src/ziplayer.cpp:230-236 | a link is read from the directory that holds it: a hop leads to what stands of that directory's components followed by the target's segments, if the target is relative and stays inside |
| ZipLinks.TargetIsStored | src/ziplayer.cpp:224-228 | what a link says is its stored content, byte for byte, and at most 4096 bytes |
| ZipLinks.LeadsToOne | src/ziplayer.cpp:219-240 | a link leads to one file at most |
| ZipLinks.CyclesLeadNowhere | src/ziplayer.cpp:219-240 | a link on a cycle leads to none |
| ZipLinks.ReadZipEntry | src/ziplayer.cpp:161-191 | bytes of that entry only, never past its end; compressed entries and negative offsets are refused |
| ZipScan.FindEnd | src/zipscan.cpp:22-25 | the backward scan finds the last place that looks like an end record |
| ZipScan.EndFound | src/zipscan.cpp:18-30 | with no false signature behind it, that place is the end record |
| ZipScan.BlockReads | src/zipscan.cpp:69-83 | every block of an extra field reads back at its place |
| ZipScan.WideOffset | src/zipscan.cpp:63-85 | the 64-bit offset, after whichever wide sizes precede it, past any other blocks |
| ZipScan.ReadRecord | src/zipscan.cpp:48-88 | one central record: its name, method, 64-bit offset, and where the next begins |
| ZipScan.ReadEnd | src/zipscan.cpp:15-45 | entry count and directory start, through the ZIP64 locator where a sentinel stands |
| ZipScan.WalkCentralDir | src/zipscan.cpp:13-89 | over an archive laid out as the standard says, the callback receives exactly its entries, in order, up to the first at which it stops |
| ZipScan.LocalDataOffset | src/zipscan.cpp:113-119 | where an entry's data begins by its local header; none if and only if there is no such header |
| ZipScan.FirstCompressedEntry | src/zipscan.cpp:102-111 | the first entry that is not stored, or none if and only if all are |
| ZipWriter.PackedField | src/zipscan.cpp:9-11 | a packed field reads back at the sum of the widths before it |
| ZipWriter.WriteLaysOut | src/zipscan.cpp:13-89 | a standard writer's archive, with ZIP64 records where counts or offsets need them, is laid out as the walk expects |
| ZipWriter.WriteAndWalk | src/zipscan.cpp:13-89 | write, then walk: what was written |
| Layers.ServedIffHit | src/overlay.cpp:487-551 | the layers serve a path if and only if some layer covers it, is not masked there, and has it |
| Layers.HitParent | src/overlay.cpp:269-304 | a layer that has a path has and lists the way to it, down from where it sits |
| Layers.LowerParent | src/vfsops.cpp:56-109 | whatever resolves in the layers has a parent that resolves and lists it |
| Layers.LayersMakeLower | src/overlay.cpp:470-551 | well-formed layers make a merged view closed under parents with complete listings |
| Layers.LowerNodes | src/overlay.cpp:487-551 | the merged view has exactly what the walk over the layers finds |
| Layers.ProvidesIff | src/overlay.cpp:269-304 | a layer takes part at a path and serves a node exactly if no mask lies at or above it and its source has that node under the subpath where the path lies under the target |
| Layers.HighestWins | src/overlay.cpp:485-551 | the merged view at a path is what the highest layer that has something there has, and a structural directory where none has |
| Layers.ResolveLower | src/overlay.cpp:485-551 | the walk from the highest priority down finds exactly that |
| Layers.ListedBelow | src/vfsops.cpp:56-109 | the merged view lists exactly what some layer lists outside its masks, from its source and on the way to its place, and the way to the structural directories |
| Layers.StructuralIff | src/overlay.cpp:219-227 | a structural directory lies strictly above the place of a layer no mask hides there |
| Layers.IndexMakesLayer | src/ziplayer.cpp:65-157 | the index of a well-named stored archive is such a layer |
| Layers.StructuralDirs | src/overlay.cpp:219-227 | exactly the directories strictly above where an unmasked layer sits |
| Layers.CollectLayers | src/vfsops.cpp:56-109 | the loop over the layers collects exactly the names they and the structural directories contribute |
| Chains.ChainsPartition | src/overlay.cpp:91-119 | every delta is in one chain; a chain is a run of its target's zips and deltas; only its last is its own top |
| Chains.ChainIsARun | src/overlay.cpp:108-118 | members of one chain are joined by deltas built one over the other, with nothing of their target between |
| Chains.BuiltUponIff | src/overlay.cpp:105-115 | a chain goes on exactly if the next zip or delta at its target is a delta that declares no base or its own target among its bases |
| Chains.NothingBuiltUpon | src/overlay.cpp:109-115 | and ends where no zip or delta follows at its target |
| Chains.GroupChains | src/overlay.cpp:97-119 | the grouping loops compute every layer's chain top |
| Planner.BasesAreBelow | src/overlay.cpp:134-160 | a base is a layer below its delta, never the delta itself, and was loaded |
| Planner.OverlaysAreNoBases | src/overlay.cpp:163-178 | a zip stacked over a chain is nobody's base |
| Planner.PredecessorIsBase | src/overlay.cpp:172-178 | the own-target view of a delta inside a chain is its immediate predecessor's |
| Planner.JoinIsBaseView | src/overlay.cpp:136-144 | with the predecessor's bytes at its own target, the joined base is the base view the planner composes |
| Planner.UndeclaredBase | src/overlay.cpp:136-144 | a delta that declares no base is applied over what speaks for its own target |
| Planner.DeclaredBases | src/overlay.cpp:136-158 | one that declares bases is applied over what speaks for them, joined in the order it names them, and has no view if one of them has none |
| Planner.TopIsTheFold | src/overlay.cpp:134-182 | when a chain loads, its top's bytes are its deltas folded over its first member, each over the views at its base targets joined in order, the bytes so far standing at its own target |
| Planner.FoldedIsBase | src/overlay.cpp:180-182 | what a chain that loads folds away is a base of its top |
| Planner.OnlyTopsSurface | src/overlay.cpp:180-185 | of a chain only the top surfaces; a readable zip in no chain surfaces if it has an index |
| Planner.ComposeBase | src/overlay.cpp:145-158 | a delta's base is the views at its targets joined in order, and behind it stand those layers and all theirs |
| Planner.AllGathered | src/overlay.cpp:125-156 | the layers gathered behind a delta are exactly its direct and indirect bases, through folded ones too |
| Planner.MaskBases | src/overlay.cpp:213-217 | exactly the mounted layers that came from a base take the delta's targets as masks |
| Planner.Plan | src/overlay.cpp:121-218 | what surfaces, in order: one mounted layer per submount of each surfacing layer, with that subpath and target, or the whole of it at its target; each masked exactly under the places of the surfacing deltas it is a base of |
| ChainBytes.TopReconstructs | src/overlay.cpp:134-182 | with the delta engine underneath, a chain's top holds its files applied one after the other, each over its one or several bases |
| ChainBytes.PlainChains | src/overlay.cpp:134-182 | for deltas of one base each that is the fold a chain created link by link serves (`RoundTrip.CreateChain`) |
| Mount.Init | src/overlay.cpp:67-227 | declared layers and a writelayer become a mount in step with its markers over the planned layers |
| Mount.UntouchedPaths | src/overlay.cpp:470-551 | a path the writelayer does not touch shows what the highest layer that has it has, and a structural directory where none has it |
| Mount.BasesStayHidden | src/overlay.cpp:276-286 | under a delta's mount none of its bases serves or lists anything |
| Kept.KeptAgrees | src/overlay.cpp:664-679 | a kept folder's masks hide from the layers below it exactly what a writelayer's would |
| Kept.KeptInside | src/overlay.cpp:487-520 | strictly inside a kept folder the whole mount resolves as the folder over the layers seen from its root |
| Kept.HideLower | src/overlay.cpp:625-639 | the marker in the folder, then the mask; a failure records neither |
| Kept.UnhideLower | src/overlay.cpp:641-651 | marker and mask go together |
| Kept.CollectKept | src/vfsops.cpp:48-112 | own names, never hidden by markers, and the layers' unless opaque, less the deleted |
| Kept.DropMarkersUnder | src/overlay.cpp:712-722 | the listing loop and the mask sweeps remove exactly the markers directly inside, on disk and in memory |
| Kept.SweepMask | src/overlay.cpp:712-722 | the erasing loop drops from a mask exactly the names directly in the directory |
| Kept.SweptKeeps | src/overlay.cpp:712-722 | that keeps markers and masks in step and changes nothing outside the directory |
| Kept.KeptCreate | src/vfsops.cpp:267-284 | success makes an empty file; failure keeps the view, deletions too |
| Kept.KeptMkdir | src/vfsops.cpp:306-324 | success makes an empty directory whatever was deleted there; failure keeps the view |
| Kept.KeptUnlink | src/vfsops.cpp:334-346 | success removes the name for good; a failure keeps the view, unless the folder's own copy went and its deletion could not be recorded: then exactly the layers' subtree is back |
| Kept.KeptRmdir | src/vfsops.cpp:357-380 | refused with ENOTEMPTY if and only if the directory collects a name; success removes for good what showed nothing; if that cannot be recorded exactly the layers' subtree is back, names deleted inside included |
| Kept.OpaqueMoved | src/vfsops.cpp:432-434 | a subtree moved onto a deleted name and made opaque shows exactly what it showed |
| Kept.UnhideAfterMove | src/vfsops.cpp:430-439 | renaming first and dropping the marker after ends where the other order would |
| Kept.KeptRename | src/vfsops.cpp:398-442 | as VfsRename, and a directory moved onto a deleted name is never joined by lower names; a failure keeps the view, unless the old name's deletion could not be recorded, or the opaque marker could not be written after the move: then the new place is as after success, the layers' whole subtree is back at the old one where they have it, and in the second case the new name stays marked deleted while every path resolves as if the directory were opaque |
| Kept.MarkedResolves | src/overlay.cpp:664-679 | a name both present and marked deleted hides from the layers exactly what an opaque directory would |
| KeptRun.RunKept | src/vfsops.cpp:267-456 | any run inside a kept folder to its end, whatever is refused or fails on the way: an ordinary tree allows the operations carried out and shows after them what the folder shows, as long as every deletion was recorded and no rename met lower names at its destination |
| KeptRun.RunAndReopen | src/overlay.cpp:607-623 | after any such run a later session, seeding from the folder alone, resolves every path strictly inside identically |

## Left out

- zstd and FNV hashing: a codec is a pair of functions with `decompress(compress(x), |x|) == x`, and the hash is any
  function; `verifyBase` compares its value and nothing is assumed of it.
- Scratch files, progress and cancel callbacks, and memory limits of the generator: the spilled streams are sequences.
- BlockCache.RunSafe: readers are a state machine over lookup, decompression and insert steps; memory ordering and the
  lifetime of a shared block are not modelled.
- RoundTrip.GenerateAndRead: for every base and target, and every block size that leaves the number of segments below
  2^32, of blocks at most 2^32 - 256 and a compressed block below 2^32 bytes, with a compressor that keeps to zstd's own
  bound. `RoundTrip.ReadBack` reads back whatever `DeltaGenerate.GenerateDelta` wrote with counts that fit their fields.
- VerifyDelta and FdByteSource: the first compares two readers byte by byte, the second is a host call.
- Host calls on markers and deletions are taken to succeed in the writelayer, as its mask functions ignore their errors;
  a marker that cannot be written or removed would leave mask and disk apart.
- KeptRun.RunKept: on a host that can write the opaque marker of a moved directory. After `Kept.KeptRename` failed to,
  the name is both present and marked, and later operations on such a folder are not modelled.
- Kept.UnhideLower: removing a marker is taken to succeed. The folder's own root, paths across its boundary and several
  overlapping kept folders are not modelled; a subpath is folded into the folder's own root.
- Kept.KeptRmdir: the host's removal of the emptied directory is taken to succeed.
- Symbolic links, hard links, permissions, times and ownership: a node is a directory or a file with its bytes. Link
  resolution inside archives is modelled by itself in `ZipLinks`; `Layers` takes archives without links.
- Host-directory link containment and case folding (`SymlinkContained`, `CanonicalCase`): they depend on the host's
  canonical paths and on a second name space.
- Guest-made names that look like markers: the operations' paths are clean, as the documented seam says.
- Handles: `VfsOpen`, `VfsRead`, `VfsWrite` and `VfsRelease` pass bytes to the host; of the writes by name
  `VfsOps.VfsState.VfsTruncate` is modelled.
- OverlayRun.Run: when a failed operation brought the layers' subtree back, or a rename met lower names at its
  destination, the view after it is described by its own step and no longer by the ordinary tree.
- VfsOps.VfsState.DeepCopyUp: a failed host call may come before a denied name is met, so EIO says nothing of denied
  names. The errors a host call fails with are one, EIO.
- VfsOps.VfsState.CollectChildren: takes the layers' names from the merged view in one step; the loop over the layers
  is `Layers.CollectLayers`, proved to compute those names.
- The read-only mount, an absent writelayer, and the copy-up lock shards: the first two refuse every change or skip the
  writelayer, the last only serialises.
- JSON parsing of the layer list, the FUSE and WinFsp adapters, the host backends, and libzip's own listing: the
  declared layers, admitted operations, a host tree and an entry list are inputs.
- Planner.Plan: opening a file and reading it are one step, the index of an archive is an input function, and delta
  creation is an input function that `ChainBytes.TopReconstructs` ties to the engine.
- ZipScan.WalkCentralDir: offsets are unbounded; an archive long enough for an offset to pass 2^64 is not a file.
- CentralDirOffsets: a fold of the walk's entries into a map.
