/** From declared layers to a running filesystem. */
module Mount {
  import opened Bytes
  import opened Tree
  import opened OverlayState
  import opened OverlaySeed
  import opened Layers
  import opened Chains
  import opened Planner
  import opened VfsOps

  /** Every layer that would surface is well-formed where it would be mounted. */
  ghost predicate SpecsOk(h: Host, specs: seq<LayerSpec>) {
    LayersOk(AllMounted(h, specs, |specs|))
  }

  /** Masks do not matter to a layer's well-formedness, so a plan of well-formed layers is well-formed. */
  lemma PlannedLayersOk(h: Host, specs: seq<LayerSpec>, layers: seq<Layer>)
    requires SpecsOk(h, specs) && Planned(h, specs, |specs|, layers)
    ensures LayersOk(layers)
  {
    hide HiddenUnder, AllMounted, Origins;
    forall i | 0 <= i < |layers| ensures LayerOk(layers[i]) {
      assert LayerOk(Bare(layers[i]));
    }
  }

  /** VfsState::Init: plan the layers, derive the structural directories, seed the masks from the writelayer. */
  method Init(h: Host, specs: seq<LayerSpec>, writelayer: Fs, faulty: nat -> bool)
    returns (fs: VfsState, layers: seq<Layer>, implicitDirs: set<Path>)
    requires SpecsOk(h, specs) && Mountable(writelayer)
    ensures fs.Valid() && Seeded(writelayer, fs.Snap())
    ensures Planned(h, specs, |specs|, layers) && ImplicitOk(layers, implicitDirs)
    ensures fs.lower == LowerOf(layers, implicitDirs) && fs.faulty == faulty
  {
    hide SpecsOk, Planned, Mountable, Inv, LowerOk, ImplicitOk, LowerOf, LayersOk;
    layers := Plan(h, specs);
    PlannedLayersOk(h, specs, layers);
    implicitDirs := StructuralDirs(layers);
    LayersMakeLower(layers, implicitDirs);
    fs := new VfsState(LowerOf(layers, implicitDirs), writelayer, faulty);
  }

  /**
   * A path in the mounted tree that the writelayer says nothing of shows what the highest layer that has it has, and
   * where no layer has it a structural directory.
   */
  lemma UntouchedPaths(s: State, layers: seq<Layer>, dirs: set<Path>, v: Path, n: Node)
    requires v != [] && v !in s.disk && v !in s.wh && !Blocked(s, v)
    ensures At(s, LowerOf(layers, dirs), v) == Some(n) <==>
      ((exists i :: Wins(layers, i, v, n)) || (NoneFrom(layers, 0, v) && v in dirs && n == Dir))
  {
    hide Blocked, LowerOf, Wins, NoneFrom;
    HighestWins(layers, dirs, v, n);
  }

  /** Under a delta's mount its bases never show, directly, by listing or structurally. */
  lemma BasesStayHidden(h: Host, specs: seq<LayerSpec>, layers: seq<Layer>, i: nat, g: nat, t: Path, v: Path)
    requires Planned(h, specs, |specs|, layers) && i < |layers| && g < |specs|
    requires specs[g].ty.DeltaLayer? && Surfaces(h, specs, g) && MountsAt(specs[g], t) && Under(t, v)
    requires IsBase(h, specs, g, Origins(h, specs, |specs|)[i])
    ensures !Hits(layers[i], v) && LayerNames(layers[i], v) == {}
  {
    hide Surfaces, IsBase, MountsAt, AllMounted, Origins;
    assert HiddenUnder(h, specs, |specs|, Origins(h, specs, |specs|)[i], t);
    assert HasMask(layers[i], t);
  }
}
