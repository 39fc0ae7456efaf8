/** The FIFO cache of decompressed literal blocks that concurrent readers of one delta source share. */
module BlockCache {
  import opened Bytes

  const CACHE_CAP := 64
  const SOURCES := 0x100_0000            // 2^24
  const BLOCKS := 0x100_0000_0000        // 2^40

  /**
   * The 64-bit key (addSrc << 40) ^ blk. The shift drops every bit of addSrc from the 24th on, and a block number
   * below 2^40 shares no bit with what remains, so the exclusive or is a sum.
   */
  function Key(addSrc: nat, blk: nat): (k: nat)
    requires blk < BLOCKS
    ensures k < TWO64
  {
    (addSrc % SOURCES) * BLOCKS + blk
  }

  /** Two blocks share a key exactly when they have the same number in sources that agree modulo 2^24. */
  lemma KeyCollides(a: nat, b: nat, a': nat, b': nat)
    requires b < BLOCKS && b' < BLOCKS
    ensures Key(a, b) == Key(a', b') <==> b == b' && a % 0x100_0000 == a' % 0x100_0000
  {
  }

  datatype Cache = Cache(blocks: map<nat, seq<byte>>, fifo: seq<nat>)

  /** What the delta files really hold: the contents of block `b` of source `a`, or None if it cannot be read. */
  type Store = (nat, nat) -> Option<seq<byte>>

  predicate NoDup(q: seq<nat>) {
    forall i, j :: 0 <= i < j < |q| ==> q[i] != q[j]
  }

  /** The cached keys are the queued keys, each queued once, at most 64 of them. */
  ghost predicate Tidy(c: Cache) {
    && NoDup(c.fifo)
    && |c.fifo| <= CACHE_CAP
    && forall k :: k in c.blocks <==> k in c.fifo
  }

  ghost predicate Addressable(a: nat, b: nat) {
    a < SOURCES && b < BLOCKS
  }

  /** Whatever is cached for a block is that block. */
  ghost predicate Agrees(c: Cache, store: Store) {
    forall a: nat, b: nat :: Addressable(a, b) && Key(a, b) in c.blocks ==> store(a, b) == Some(c.blocks[Key(a, b)])
  }

  /** The insert under the lock: only a first insert of a key is queued, and the oldest key makes room past 64. */
  function Emplace(c: Cache, key: nat, data: seq<byte>): Cache {
    if key in c.blocks then c else
    var blocks, fifo := c.blocks[key := data], c.fifo + [key];
    if |fifo| > CACHE_CAP then Cache(blocks - {fifo[0]}, fifo[1..]) else Cache(blocks, fifo)
  }

  lemma EmplaceTidy(c: Cache, key: nat, data: seq<byte>)
    requires Tidy(c)
    ensures Tidy(Emplace(c, key, data))
  {
    if key !in c.blocks {
      var fifo := c.fifo + [key];
      var c' := Emplace(c, key, data);
      if |fifo| > CACHE_CAP {
        assert NoDup(fifo);
        forall k ensures k in c'.blocks <==> k in c'.fifo {
          if k in c'.fifo {
            var i :| 0 <= i < |c'.fifo| && c'.fifo[i] == k;
            assert fifo[i + 1] == k && fifo[0] != fifo[i + 1];
          }
          if k in c'.blocks {
            assert k in fifo;
            var i :| 0 <= i < |fifo| && fifo[i] == k;
            assert c'.fifo[i - 1] == k;
          }
        }
      }
    }
  }

  /** The key is served from then on, with its first block; at most the oldest key goes, when 64 were held. */
  lemma EmplaceStores(c: Cache, key: nat, data: seq<byte>)
    requires Tidy(c)
    ensures var c' := Emplace(c, key, data);
      && key in c'.blocks && c'.blocks[key] == (if key in c.blocks then c.blocks[key] else data)
      && forall k :: k in c.blocks ==>
        (k in c'.blocks && c'.blocks[k] == c.blocks[k]) || (|c.fifo| == 64 && k == c.fifo[0] && key !in c.blocks)
  {
    if key !in c.blocks && |c.fifo| == CACHE_CAP { assert (c.fifo + [key])[0] == c.fifo[0]; }
  }

  lemma EmplaceAgrees(c: Cache, a: nat, b: nat, data: seq<byte>, store: Store)
    requires Agrees(c, store) && Addressable(a, b) && store(a, b) == Some(data)
    ensures Agrees(Emplace(c, Key(a, b), data), store)
  {
    var c' := Emplace(c, Key(a, b), data);
    forall a': nat, b': nat | Addressable(a', b') && Key(a', b') in c'.blocks
      ensures store(a', b') == Some(c'.blocks[Key(a', b')])
    {
      KeyCollides(a, b, a', b');
    }
  }

  // ---- any interleaving of readers ----

  /** Where one reader of block (a, b) stands: it missed, it decompressed outside the lock, it was served. */
  datatype Reader =
    Idle | Missed(a: nat, b: nat)
    | Loaded(a: nat, b: nat, data: seq<byte>) | Served(a: nat, b: nat, data: seq<byte>)

  datatype State = State(cache: Cache, readers: map<nat, Reader>)

  /** The atomic steps: a lookup under the lock, a decompression outside it, an insert under it. */
  datatype Action = Lookup(r: nat, a: nat, b: nat) | Decompress(r: nat) | Insert(r: nat)

  function At(s: State, r: nat): Reader {
    if r in s.readers then s.readers[r] else Idle
  }

  /** One step of one reader; a step a reader is not ready for changes nothing. */
  function Step(s: State, act: Action, store: Store): State {
    match act
    case Lookup(r, a, b) =>
      if b >= BLOCKS then s
      else if Key(a, b) in s.cache.blocks then s.(readers := s.readers[r := Served(a, b, s.cache.blocks[Key(a, b)])])
      else s.(readers := s.readers[r := Missed(a, b)])
    case Decompress(r) =>
      var p := At(s, r);
      if !p.Missed? then s else
      var data := store(p.a, p.b);
      s.(readers := s.readers[r := if data.Some? then Loaded(p.a, p.b, data.value) else Idle])
    case Insert(r) =>
      var p := At(s, r);
      if !p.Loaded? || p.b >= BLOCKS then s else
      State(Emplace(s.cache, Key(p.a, p.b), p.data), s.readers[r := Served(p.a, p.b, p.data)])
  }

  function Run(s: State, acts: seq<Action>, store: Store): State {
    if acts == [] then s else Step(Run(s, acts[..|acts| - 1], store), acts[|acts| - 1], store)
  }

  const Start := State(Cache(map[], []), map[])

  ghost predicate ReaderOk(p: Reader, store: Store) {
    match p
    case Idle => true
    case Missed(a, b) => Addressable(a, b)
    case Loaded(a, b, data) => Addressable(a, b) && store(a, b) == Some(data)
    case Served(a, b, data) => Addressable(a, b) && store(a, b) == Some(data)
  }

  ghost predicate Safe(s: State, store: Store) {
    && Tidy(s.cache) && Agrees(s.cache, store)
    && forall r :: r in s.readers ==> ReaderOk(s.readers[r], store)
  }

  ghost predicate InRange(act: Action) {
    act.Lookup? ==> Addressable(act.a, act.b)
  }

  lemma StepSafe(s: State, act: Action, store: Store)
    requires Safe(s, store) && InRange(act)
    ensures Safe(Step(s, act, store), store)
  {
    if act.Insert? {
      var p := At(s, act.r);
      if p.Loaded? {
        assert ReaderOk(s.readers[act.r], store);
        EmplaceTidy(s.cache, Key(p.a, p.b), p.data);
        EmplaceAgrees(s.cache, p.a, p.b, p.data, store);
      }
    }
  }

  /** Under every interleaving of readers, every block served is the right one and the cache stays within its cap. */
  lemma {:induction false} RunSafe(acts: seq<Action>, store: Store)
    requires forall i :: 0 <= i < |acts| ==> InRange(acts[i])
    ensures Safe(Run(Start, acts, store), store)
  {
    if acts != [] {
      RunSafe(acts[..|acts| - 1], store);
      StepSafe(Run(Start, acts[..|acts| - 1], store), acts[|acts| - 1], store);
    }
  }

  /** With 2^24 sources or more the property fails: a reader of source 2^24 is served source 0's block. */
  lemma CollisionServesTheWrongBlock(store: Store, b: nat)
    requires b < BLOCKS && store(0, b).Some? && store(SOURCES, b).Some? && store(0, b) != store(SOURCES, b)
    ensures var s := Run(Start, [Lookup(0, 0, b), Decompress(0), Insert(0), Lookup(1, SOURCES, b)], store);
      At(s, 1).Served? && At(s, 1).a == SOURCES && Some(At(s, 1).data) != store(SOURCES, b)
  {
    var x := store(0, b).value;
    var acts := [Lookup(0, 0, b), Decompress(0), Insert(0), Lookup(1, SOURCES, b)];
    KeyCollides(0, b, SOURCES, b);
    var s1 := Step(Start, acts[0], store);
    assert s1 == State(Start.cache, map[0 := Missed(0, b)]);
    var s2 := Step(s1, acts[1], store);
    assert At(s2, 0) == Loaded(0, b, x) && s2.cache == Start.cache;
    var s3 := Step(s2, acts[2], store);
    assert s3.cache.blocks[Key(0, b)] == x;
    assert acts[..0] == [] && acts[..1] == [acts[0]] && acts[..1][..0] == [];
    assert Run(Start, acts[..1], store) == s1;
    assert acts[..2][..1] == acts[..1] && Run(Start, acts[..2], store) == s2;
    assert acts[..3][..2] == acts[..2] && Run(Start, acts[..3], store) == s3;
    assert Run(Start, acts, store) == Step(s3, acts[3], store);
  }

  ghost predicate Within(act: Action, n: nat) {
    act.Lookup? ==> act.a < n && act.b < 0x100_0000_0000
  }

  /** Whatever reader is served in whatever run over `n` sources, it is served the block it asked for. */
  ghost predicate AlwaysRight(n: nat) {
    forall store: Store, acts: seq<Action> :: RunsWithin(acts, n) ==> ServesRight(Run(Start, acts, store), store)
  }

  ghost predicate RunsWithin(acts: seq<Action>, n: nat) {
    forall i :: 0 <= i < |acts| ==> Within(acts[i], n)
  }

  ghost predicate ServesRight(s: State, store: Store) {
    forall r :: r in s.readers && s.readers[r].Served? ==>
      store(s.readers[r].a, s.readers[r].b) == Some(s.readers[r].data)
  }

  /** The cache is right under every store and every interleaving if and only if there are at most 2^24 sources. */
  lemma RightIff(n: nat)
    ensures AlwaysRight(n) <==> n <= 0x100_0000
  {
    if n <= SOURCES {
      forall store: Store, acts: seq<Action> | RunsWithin(acts, n)
        ensures ServesRight(Run(Start, acts, store), store)
      {
        forall i | 0 <= i < |acts| ensures InRange(acts[i]) { assert Within(acts[i], n); }
        RunSafe(acts, store);
        var s := Run(Start, acts, store);
        forall r | r in s.readers && s.readers[r].Served?
          ensures store(s.readers[r].a, s.readers[r].b) == Some(s.readers[r].data)
        {
          assert ReaderOk(s.readers[r], store);
        }
      }
    } else {
      var store: Store := (a: nat, b: nat) => Some(if a == 0 then [0] else [1]);
      var acts := [Lookup(0, 0, 0), Decompress(0), Insert(0), Lookup(1, SOURCES, 0)];
      CollisionServesTheWrongBlock(store, 0);
      assert RunsWithin(acts, n);
      assert !ServesRight(Run(Start, acts, store), store);
    }
  }
}
