/** The planner's byte views and the delta engine: a chain's top holds what applying its files in turn gives. */
module ChainBytes {
  import opened Bytes
  import opened Sources
  import opened DeltaFormat
  import opened DeltaCreate
  import opened RoundTrip
  import opened Chains
  import opened Planner

  /** The planner's `build` applies a delta as the engine does, wherever the engine can. */
  ghost predicate BuildsDeltas(z: Codec, h: Host) {
    forall f: seq<byte>, b: seq<byte> :: FileOk(z, MemSource(f), |b|) ==>
      h.build(f, b) == Some(Reconstruct(z, MemSource(f), b))
  }

  /** The file above `p` can be read and is a well-formed delta over the base it declares, `bytes` at its own target. */
  ghost predicate StepOk(z: Codec, h: Host, specs: seq<LayerSpec>, p: nat, bytes: seq<byte>)
    requires p < |specs| && BuiltUpon(specs, p)
  {
    var n := Next(specs, p).value;
    var base := JoinWith(h, specs, n, BaseTargets(specs[n]), bytes);
    specs[n].file.Some? && base.Some? && FileOk(z, MemSource(specs[n].file.value), |base.value|)
  }

  /** What that file reconstructs. */
  ghost function StepBytes(z: Codec, h: Host, specs: seq<LayerSpec>, p: nat, bytes: seq<byte>): seq<byte>
    requires p < |specs| && BuiltUpon(specs, p) && StepOk(z, h, specs, p, bytes)
  {
    var n := Next(specs, p).value;
    Reconstruct(z, MemSource(specs[n].file.value), JoinWith(h, specs, n, BaseTargets(specs[n]), bytes).value)
  }

  /** Every file above `p` in its chain is well-formed over what the files before it reconstruct. */
  ghost predicate AboveOk(z: Codec, h: Host, specs: seq<LayerSpec>, p: nat, bytes: seq<byte>)
    requires p < |specs|
    decreases |specs| - p
  {
    BuiltUpon(specs, p) ==>
      StepOk(z, h, specs, p, bytes) && AboveOk(z, h, specs, Next(specs, p).value, StepBytes(z, h, specs, p, bytes))
  }

  /** The files above `p` applied one after the other. */
  ghost function Rebuilt(z: Codec, h: Host, specs: seq<LayerSpec>, p: nat, bytes: seq<byte>): seq<byte>
    requires p < |specs| && AboveOk(z, h, specs, p, bytes)
    decreases |specs| - p
  {
    if !BuiltUpon(specs, p) then bytes
    else Rebuilt(z, h, specs, Next(specs, p).value, StepBytes(z, h, specs, p, bytes))
  }

  lemma {:induction false} FoldIsReconstruction(z: Codec, h: Host, specs: seq<LayerSpec>, p: nat, b: seq<byte>)
    requires BuildsDeltas(z, h) && p < |specs| && AboveOk(z, h, specs, p, b)
    ensures FoldFrom(h, specs, p, b) == Some(Rebuilt(z, h, specs, p, b))
    decreases |specs| - p
  {
    hide FileOk, Reconstruct, JoinWith;
    if BuiltUpon(specs, p) {
      FoldIsReconstruction(z, h, specs, Next(specs, p).value, StepBytes(z, h, specs, p, b));
    }
  }

  /**
   * The surfaced top of a chain of well-formed deltas, of one base or of several, holds what its first member's bytes
   * become when the files are applied one after the other.
   */
  lemma TopReconstructs(z: Codec, h: Host, specs: seq<LayerSpec>, p: nat)
    requires BuildsDeltas(z, h) && p < |specs| && IsByteLayer(specs[p]) && View(h, specs, p).Some?
    requires AboveOk(z, h, specs, p, View(h, specs, p).value)
    ensures View(h, specs, Top(specs, p)) == Some(Rebuilt(z, h, specs, p, View(h, specs, p).value))
  {
    FoldIsReconstruction(z, h, specs, p, View(h, specs, p).value);
    TopIsTheFold(h, specs, p);
  }

  // ---- chains of one base each ----

  /** Every delta above `p` in its chain is based on its own target alone. */
  ghost predicate PlainAbove(specs: seq<LayerSpec>, p: nat)
    requires p < |specs|
    decreases |specs| - p
  {
    BuiltUpon(specs, p) ==>
      BaseTargets(specs[Next(specs, p).value]) == [specs[p].target] && PlainAbove(specs, Next(specs, p).value)
  }

  /** The delta files above `p`, in order. */
  ghost function FilesAbove(z: Codec, h: Host, specs: seq<LayerSpec>, p: nat, b: seq<byte>): seq<Source>
    requires p < |specs| && AboveOk(z, h, specs, p, b)
    decreases |specs| - p
  {
    if !BuiltUpon(specs, p) then [] else
    var n := Next(specs, p).value;
    [MemSource(specs[n].file.value)] + FilesAbove(z, h, specs, n, StepBytes(z, h, specs, p, b))
  }

  /** A first file and then a list of files are applied as the list they make. */
  lemma {:induction false} ReconstructHead(z: Codec, f: Source, rest: seq<Source>, b: seq<byte>)
    requires FileOk(z, f, |b|) && FilesOk(z, rest, Reconstruct(z, f, b))
    ensures FilesOk(z, [f] + rest, b)
    ensures ReconstructAll(z, [f] + rest, b) == ReconstructAll(z, rest, Reconstruct(z, f, b))
    decreases |rest|
  {
    hide FileOk, Reconstruct;
    var all := [f] + rest;
    if rest == [] {
      assert all == [f] && all[..0] == [];
      assert FilesOk(z, [], b);
    } else {
      var front := rest[..|rest| - 1];
      assert all[..|all| - 1] == [f] + front;
      ReconstructHead(z, f, front, b);
    }
  }

  /** Such a chain's top is the chain the engine creates link by link: the fold of `RoundTrip.CreateChain`. */
  lemma {:induction false} PlainChains(z: Codec, h: Host, specs: seq<LayerSpec>, p: nat, b: seq<byte>)
    requires p < |specs| && PlainAbove(specs, p) && AboveOk(z, h, specs, p, b)
    ensures FilesOk(z, FilesAbove(z, h, specs, p, b), b)
    ensures Rebuilt(z, h, specs, p, b) == ReconstructAll(z, FilesAbove(z, h, specs, p, b), b)
    decreases |specs| - p
  {
    hide FileOk, Reconstruct;
    if BuiltUpon(specs, p) {
      var n := Next(specs, p).value;
      var t := specs[p].target;
      assert [t][..0] == [] && JoinWith(h, specs, n, [], b) == Some([]) && [] + b == b;
      assert JoinWith(h, specs, n, [t], b) == Some(b);
      PlainChains(z, h, specs, n, StepBytes(z, h, specs, p, b));
      ReconstructHead(z, MemSource(specs[n].file.value), FilesAbove(z, h, specs, n, StepBytes(z, h, specs, p, b)), b);
    }
  }
}
