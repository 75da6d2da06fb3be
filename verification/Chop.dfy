/** Cutting a block behind a call that does not return, and dropping what became unreachable. */
module Chop {
  import opened Machine
  import opened Blocks
  import opened Store
  import opened Analysis
  import opened BlockCode
  import opened Flow
  import opened Ranges
  import opened Runs
  import opened Graph
  import opened MergePass
  import opened MergeFlow
  import opened Automerge

  /** A block without its membership and reference count. */
  function Shape(b: Block): Block {
    b.(fcns := [], refs := 0)
  }

  /** Same blocks and functions up to membership and reference counts. */
  ghost predicate SameShape(db: Db, db': Db) {
    && db'.blocks.Keys == db.blocks.Keys && db'.fcns.Keys == db.fcns.Keys
    && (forall a :: a in db.blocks ==> Shape(db'.blocks[a]) == Shape(db.blocks[a]))
    && (forall f :: f in db.fcns ==> db'.fcns[f].addr == db.fcns[f].addr)
  }

  lemma SameShapeGraph(db: Db, db': Db)
    requires SameShape(db, db')
    ensures GraphOf(db'.blocks) == GraphOf(db.blocks)
  {
    forall a | a in db.blocks ensures Successors(db'.blocks[a]) == Successors(db.blocks[a]) {
      assert Successors(db.blocks[a]) == Successors(Shape(db.blocks[a]));
      assert Successors(db'.blocks[a]) == Successors(Shape(db'.blocks[a]));
    }
  }

  /** Somebody besides the functions holds each of these blocks. */
  ghost predicate Held(blocks: BlockMap, held: seq<U64>) {
    forall a :: a in held ==> a in blocks && blocks[a].refs > |blocks[a].fcns|
  }

  /** Only the listed blocks have gained one of these. */
  ghost predicate Spares(blocks: BlockMap, blocks': BlockMap, gained: seq<U64>) {
    forall a :: a in blocks && a in blocks' ==> Spare(blocks'[a]) == Spare(blocks[a]) + if a in gained then 1 else 0
  }

  /** No such reference was gained or lost, and cached ranges stay exact. */
  ghost predicate Tidy(db: Db, db': Db) {
    Spares(db.blocks, db'.blocks, []) && (Ranged(db) ==> Ranged(db'))
  }

  lemma TidyTrans(db: Db, mid: Db, db': Db)
    requires Tidy(db, mid) && Tidy(mid, db') && mid.blocks.Keys == db.blocks.Keys
    ensures Tidy(db, db')
  {
  }

  /** `db'` differs from `db` in that function `f` has lost the blocks of `cut`. */
  ghost predicate CutFrom(db: Db, db': Db, f: FcnId, cut: set<U64>) {
    && SameShape(db, db')
    && forall a, g :: a in db.blocks ==>
         (g in db'.blocks[a].fcns <==> g in db.blocks[a].fcns && !(g == f && a in cut))
  }

  lemma CutOne(db: Db, f: FcnId, a: U64, held: seq<U64>)
    requires Linked(db) && Held(db.blocks, held) && a in held && f in db.blocks[a].fcns
    ensures f in db.fcns && db.blocks[a].refs > 0
    ensures var db' := RemovedBlock(db, f, a);
            Linked(db') && Held(db'.blocks, held) && CutFrom(db, db', f, {a}) && Tidy(db, db')
  {
    RemovedBlockLinked(db, f, a);
    assert BlockLinked(db, a);
    WithoutDistinct(db.blocks[a].fcns, f);
    if Ranged(db) {
      RemovedBlockRanged(db, f, a);
    }
  }

  /** Takes the unmarked candidates out of one function. */
  method Prune(an: Analysis, f: FcnId, candidates: seq<U64>, marked: set<U64>)
    requires Linked(an.State()) && Held(an.blocks, candidates)
    modifies an
    ensures Linked(an.State()) && Held(an.blocks, candidates)
    ensures CutFrom(old(an.State()), an.State(), f, set a | a in candidates && a !in marked)
    ensures Tidy(old(an.State()), an.State())
  {
    for k := 0 to |candidates|
      invariant Linked(an.State()) && Held(an.blocks, candidates) && Tidy(old(an.State()), an.State())
      invariant CutFrom(old(an.State()), an.State(), f, set a | a in candidates[..k] && a !in marked)
    {
      var a := candidates[k];
      assert candidates[..k + 1] == candidates[..k] + [a];
      if a !in marked && f in an.blocks[a].fcns {
        ghost var mid := an.State();
        CutOne(mid, f, a, candidates);
        an.RemoveBlock(f, a);
        TidyTrans(old(an.State()), mid, an.State());
      }
    }
    assert candidates[..|candidates|] == candidates;
  }

  /** The function's entry block exists and belongs to it. */
  ghost predicate OwnsEntry(db: Db, f: FcnId) {
    f in db.fcns && db.fcns[f].addr in db.blocks && f in db.blocks[db.fcns[f].addr].fcns
  }

  /** Still reachable in `f` from an entry block of its own. */
  ghost predicate StillReached(db: Db, f: FcnId, a: U64) {
    OwnsEntry(db, f) && Reachable(GraphOf(db.blocks), db.fcns[f].addr, a)
  }

  /** The functions `fs` have lost the candidates they do not reach; nothing else changed. */
  ghost predicate PrunedAll(db: Db, db': Db, fs: seq<FcnId>, candidates: seq<U64>) {
    && SameShape(db, db')
    && forall a, g {:trigger g in db'.blocks[a].fcns} {:trigger g in db.blocks[a].fcns} :: a in db.blocks ==>
         (g in db'.blocks[a].fcns <==>
          g in db.blocks[a].fcns && !(g in fs && a in candidates && !StillReached(db, g, a)))
  }

  lemma PruneStep(db: Db, db1: Db, db2: Db, fs: seq<FcnId>, f: FcnId, candidates: seq<U64>, marked: set<U64>)
    requires PrunedAll(db, db1, fs, candidates) && f !in fs
    requires CutFrom(db1, db2, f, set a | a in candidates && a !in marked)
    requires forall a :: a in marked <==> StillReached(db1, f, a)
    ensures PrunedAll(db, db2, fs + [f], candidates)
  {
    SameShapeGraph(db, db1);
    forall a ensures StillReached(db1, f, a) <==> StillReached(db, f, a) {}
  }

  /** The blocks a function still reaches, none if it does not own its entry block. */
  method MarkReachable(an: Analysis, f: FcnId) returns (marked: set<U64>)
    requires f in an.fcns
    ensures forall a :: a in marked <==> StillReached(an.State(), f, a)
  {
    marked := {};
    var entry := an.fcns[f].addr;
    if entry in an.blocks && f in an.blocks[entry].fcns {
      var order := BlockRecurseList(GraphOf(an.blocks), entry);
      marked := set a | a in order;
    }
  }

  method PruneUnreachable(an: Analysis, fs: seq<FcnId>, candidates: seq<U64>)
    requires Linked(an.State()) && Held(an.blocks, candidates)
    requires Distinct(fs) && forall f :: f in fs ==> f in an.fcns
    modifies an
    ensures Linked(an.State()) && Held(an.blocks, candidates)
    ensures PrunedAll(old(an.State()), an.State(), fs, candidates) && Tidy(old(an.State()), an.State())
  {
    for k := 0 to |fs|
      invariant Linked(an.State()) && Held(an.blocks, candidates) && Tidy(old(an.State()), an.State())
      invariant PrunedAll(old(an.State()), an.State(), fs[..k], candidates)
    {
      ghost var db1 := an.State();
      var marked := MarkReachable(an, fs[k]);
      Prune(an, fs[k], candidates, marked);
      PruneStep(old(an.State()), db1, an.State(), fs[..k], fs[k], candidates, marked);
      TidyTrans(old(an.State()), db1, an.State());
      assert fs[..k + 1] == fs[..k] + [fs[k]];
    }
    assert fs[..|fs|] == fs;
  }

  /** The same store with one more reference on each listed block. */
  ghost predicate HeldMore(db: Db, db': Db, held: seq<U64>) {
    && db'.fcns == db.fcns
    && db'.blocks == map a | a in db.blocks ::
                       if a in held then db.blocks[a].(refs := db.blocks[a].refs + 1) else db.blocks[a]
  }

  method Hold(an: Analysis, held: seq<U64>)
    requires Linked(an.State()) && Distinct(held) && forall a :: a in held ==> a in an.blocks
    modifies an
    ensures Linked(an.State()) && Held(an.blocks, held) && HeldMore(old(an.State()), an.State(), held)
  {
    forall a | a in held ensures |an.blocks[a].fcns| <= an.blocks[a].refs { assert BlockLinked(an.State(), a); }
    for k := 0 to |held|
      invariant Linked(an.State()) && HeldMore(old(an.State()), an.State(), held[..k])
    {
      assert held[..k + 1] == held[..k] + [held[k]];
      ReffedLinked(an.State(), held[k]);
      an.RefBlock(held[k]);
    }
    assert held[..|held|] == held;
  }

  /** The store right after the block was cut at `addr`, before anything is removed. */
  ghost function Chopped(db: Db, block: U64, addr: U64): Db
    requires block in db.blocks && block < addr
  {
    var db1 := SetSized(db, block, addr - block);
    db1.(blocks := db1.blocks[block := db1.blocks[block].(jump := UT64_MAX, fail := UT64_MAX, cases := None)])
  }

  /** The cut block is shorter and leads nowhere; its code, functions and references, and all other blocks, stay. */
  lemma ChoppedEffect(db: Db, block: U64, addr: U64)
    requires block in db.blocks && block < addr
    ensures var b, r := db.blocks[block], Chopped(db, block, addr);
            && r.blocks.Keys == db.blocks.Keys && r.fcns.Keys == db.fcns.Keys
            && (forall c :: c in db.blocks && c != block ==> r.blocks[c] == db.blocks[c])
            && r.blocks[block].size == addr - block && r.blocks[block].code == b.code
            && r.blocks[block].fcns == b.fcns && r.blocks[block].refs == b.refs
            && (forall t :: !Names(r.blocks, block, t))
            && forall f :: f in db.fcns ==> r.fcns[f].addr == db.fcns[f].addr && r.fcns[f].bbs == db.fcns[f].bbs
  {
  }

  lemma ChoppedLinked(db: Db, block: U64, addr: U64)
    requires Linked(db) && block in db.blocks && block < addr
    ensures Linked(Chopped(db, block, addr))
  {
    SetSizedLinked(db, block, addr - block);
    var db1, r := SetSized(db, block, addr - block), Chopped(db, block, addr);
    forall c | c in r.blocks ensures BlockLinked(r, c) { assert BlockLinked(db1, c); }
    forall g | g in r.fcns ensures FcnLinked(r, g) { assert FcnLinked(db1, g); }
  }

  /** A cut inside the block leaves its stored instructions as they are: they are well formed again exactly if each of
      them starts before the cut. */
  lemma ChoppedWellFormed(db: Db, block: U64, addr: U64)
    requires block in db.blocks && block < addr && WellFormed(db.blocks[block].code, db.blocks[block].size)
    ensures var b := Chopped(db, block, addr).blocks[block];
            && b.code == db.blocks[block].code && b.size == addr - block && Successors(b) == []
            && (WellFormed(b.code, b.size) <==> forall i :: 0 <= i < b.code.ninstr ==> block + OpOffset(b.code, i) < addr)
  {
    var b := Chopped(db, block, addr).blocks[block];
    assert [b.jump, b.fail] + [] == [UT64_MAX, UT64_MAX];
    assert [UT64_MAX, UT64_MAX][1..] == [UT64_MAX] && [UT64_MAX][1..] == [];
    assert Targets([UT64_MAX]) == [];
  }

  /** Even stale ones fit when it is absorbed, as long as the uncut block would have been within the limit. */
  lemma ChoppedFits(db: Db, block: U64, addr: U64, q: U64, maxSize: nat)
    requires block in db.blocks && block < addr && WellFormed(db.blocks[block].code, db.blocks[block].size)
    requires block + db.blocks[block].size <= q + maxSize && maxSize <= UT16_MAX + 1
    ensures FitsFrom(q, block, Chopped(db, block, addr).blocks[block], maxSize)
  {
  }

  lemma ChoppedRanged(db: Db, block: U64, addr: U64)
    requires Linked(db) && Ranged(db) && block in db.blocks && block < addr && ResizesTracked(db, block, addr - block)
    ensures Ranged(Chopped(db, block, addr))
  {
    SetSizeRanged(db, block, addr - block);
    SetSizedLinked(db, block, addr - block);
    SameExtentsRanged(SetSized(db, block, addr - block), Chopped(db, block, addr));
  }

  ghost predicate InChopRange(blocks: BlockMap, block: U64, addr: U64) {
    block in blocks && block < addr <= block + blocks[block].size
  }

  /** The former successors of the block, and itself. */
  ghost predicate IsCandidates(db: Db, block: U64, candidates: seq<U64>) {
    forall a :: a in candidates <==> Reachable(GraphOf(db.blocks), block, a)
  }

  /** Function `f` keeps block `a`: a function of the block drops its former successors it does not reach any more. */
  ghost predicate Keeps(db: Db, block: U64, addr: U64, f: FcnId, a: U64)
    requires block in db.blocks && block < addr && a in db.blocks
  {
    f in db.blocks[a].fcns && !(f in db.blocks[block].fcns && Reachable(GraphOf(db.blocks), block, a)
                                  && !StillReached(Chopped(db, block, addr), f, a))
  }

  /** The store after the chop, up to reference counts. */
  ghost predicate ChopDone(db: Db, db': Db, block: U64, addr: U64)
    requires block in db.blocks && block < addr
  {
    && SameShape(Chopped(db, block, addr), db')
    && forall a, f {:trigger f in db'.blocks[a].fcns} :: a in db.blocks ==>
         (f in db'.blocks[a].fcns <==> Keeps(db, block, addr, f, a))
  }

  /**
   * `chop_noreturn` up to its merge pass. The candidates are the blocks reachable from `block` before the cut; each is
   * returned with a reference of its own for the merge pass.
   */
  method ChopNoreturn(an: Analysis, block: U64, addr: U64) returns (candidates: seq<U64>)
    requires Linked(an.State()) && block in an.blocks
    modifies an
    ensures Linked(an.State())
    ensures !InChopRange(old(an.blocks), block, addr) ==> an.State() == old(an.State()) && candidates == []
    ensures InChopRange(old(an.blocks), block, addr) ==>
              && Distinct(candidates) && Held(an.blocks, candidates)
              && IsCandidates(old(an.State()), block, candidates)
              && ChopDone(old(an.State()), an.State(), block, addr)
              && Spares(old(an.blocks), an.blocks, candidates)
              && (Ranged(old(an.State())) && ResizesTracked(old(an.State()), block, addr - block) ==> Ranged(an.State()))
  {
    if addr <= block || addr > block + an.blocks[block].size {
      candidates := [];
    } else {
      candidates := ChopInside(an, block, addr);
    }
  }

  /** The same for an address in the block. */
  method ChopInside(an: Analysis, block: U64, addr: U64) returns (candidates: seq<U64>)
    requires Linked(an.State()) && InChopRange(an.blocks, block, addr)
    modifies an
    ensures Linked(an.State()) && Distinct(candidates) && Held(an.blocks, candidates)
    ensures IsCandidates(old(an.State()), block, candidates)
    ensures ChopDone(old(an.State()), an.State(), block, addr) && Spares(old(an.blocks), an.blocks, candidates)
    ensures Ranged(old(an.State())) && ResizesTracked(old(an.State()), block, addr - block) ==> Ranged(an.State())
  {
    candidates := HoldReachable(an, block);
    ghost var held := an.State();
    CutAndPrune(an, block, addr, candidates);
    ChopTidy(old(an.State()), held, an.State(), block, addr, candidates);
    ChopConclude(old(an.State()), held, an.State(), block, addr, candidates);
  }

  /** Gathers the former successors and takes a reference on each. */
  method HoldReachable(an: Analysis, block: U64) returns (candidates: seq<U64>)
    requires Linked(an.State()) && block in an.blocks
    modifies an
    ensures Linked(an.State()) && Held(an.blocks, candidates) && HeldMore(old(an.State()), an.State(), candidates)
    ensures Distinct(candidates) && IsCandidates(old(an.State()), block, candidates)
  {
    candidates := BlockRecurseList(GraphOf(an.blocks), block);
    forall a | a in candidates ensures a in an.blocks { assert Reachable(GraphOf(an.blocks), block, a); }
    Hold(an, candidates);
  }

  method CutAndPrune(an: Analysis, block: U64, addr: U64, candidates: seq<U64>)
    requires Linked(an.State()) && Held(an.blocks, candidates) && block in an.blocks && block < addr
    modifies an
    ensures Linked(an.State()) && Held(an.blocks, candidates)
    ensures var cut := Chopped(old(an.State()), block, addr);
            PrunedAll(cut, an.State(), old(an.blocks)[block].fcns, candidates) && Tidy(cut, an.State())
  {
    CutBlock(an, block, addr, candidates);
    assert BlockLinked(an.State(), block);
    PruneUnreachable(an, an.blocks[block].fcns, candidates);
  }

  lemma ChopTidy(db: Db, held: Db, db': Db, block: U64, addr: U64, candidates: seq<U64>)
    requires Linked(db) && Linked(held) && block in db.blocks && block < addr && HeldMore(db, held, candidates)
    requires Tidy(Chopped(held, block, addr), db')
    ensures Spares(db.blocks, db'.blocks, candidates)
    ensures Ranged(db) && ResizesTracked(db, block, addr - block) ==> Ranged(db')
  {
    if Ranged(db) && ResizesTracked(db, block, addr - block) {
      SameExtentsRanged(db, held);
      HeldTracked(db, held, block, addr - block);
      ChoppedRanged(held, block, addr);
    }
  }

  lemma HeldTracked(db: Db, held: Db, block: U64, size: nat)
    requires block in db.blocks && held.fcns == db.fcns && held.blocks.Keys == db.blocks.Keys
    requires forall a :: a in db.blocks ==> held.blocks[a].size == db.blocks[a].size && held.blocks[a].fcns == db.blocks[a].fcns
    requires ResizesTracked(db, block, size)
    ensures ResizesTracked(held, block, size)
  {
    forall f | f in held.blocks[block].fcns && f in held.fcns && held.fcns[f].min != UT64_MAX
      ensures ResizeTracked(held.blocks, held.fcns[f], block, size)
    {
      assert ResizeTracked(db.blocks, db.fcns[f], block, size);
    }
  }

  /** Resizes the block and removes its outgoing edges. */
  method CutBlock(an: Analysis, block: U64, addr: U64, ghost held: seq<U64>)
    requires Linked(an.State()) && block in an.blocks && block < addr && Held(an.blocks, held)
    modifies an
    ensures Linked(an.State()) && an.State() == Chopped(old(an.State()), block, addr) && Held(an.blocks, held)
  {
    an.SetSize(block, addr - block);
    an.blocks := an.blocks[block := an.blocks[block].(jump := UT64_MAX, fail := UT64_MAX, cases := None)];
    ChoppedLinked(old(an.State()), block, addr);
  }

  /** Extra references do not change what the cut store looks like. */
  lemma HoldIsShapeless(db: Db, held: Db, block: U64, addr: U64)
    requires block in db.blocks && block < addr
    requires held.fcns == db.fcns && held.blocks.Keys == db.blocks.Keys
    requires forall a :: a in db.blocks ==>
               held.blocks[a].fcns == db.blocks[a].fcns && Shape(held.blocks[a]) == Shape(db.blocks[a])
    ensures SameShape(Chopped(db, block, addr), Chopped(held, block, addr))
    ensures forall f, a :: StillReached(Chopped(db, block, addr), f, a) <==> StillReached(Chopped(held, block, addr), f, a)
  {
    SameShapeGraph(Chopped(db, block, addr), Chopped(held, block, addr));
  }

  lemma ChopConclude(db: Db, held: Db, db': Db, block: U64, addr: U64, candidates: seq<U64>)
    requires block in db.blocks && block < addr && HeldMore(db, held, candidates) && IsCandidates(db, block, candidates)
    requires PrunedAll(Chopped(held, block, addr), db', db.blocks[block].fcns, candidates)
    ensures ChopDone(db, db', block, addr)
  {
    HeldShape(db, held, candidates);
    HoldIsShapeless(db, held, block, addr);
    SameShapeTrans(Chopped(db, block, addr), Chopped(held, block, addr), db');
    forall a, f | a in db.blocks ensures f in db'.blocks[a].fcns <==> Keeps(db, block, addr, f, a) {
      assert f in Chopped(held, block, addr).blocks[a].fcns <==> f in db.blocks[a].fcns;
    }
  }

  lemma HeldShape(db: Db, held: Db, candidates: seq<U64>)
    requires HeldMore(db, held, candidates)
    ensures held.fcns == db.fcns && held.blocks.Keys == db.blocks.Keys
    ensures forall a :: a in db.blocks ==>
              held.blocks[a].fcns == db.blocks[a].fcns && Shape(held.blocks[a]) == Shape(db.blocks[a])
  {
  }

  lemma SameShapeTrans(db: Db, mid: Db, db': Db)
    requires SameShape(db, mid) && SameShape(mid, db')
    ensures SameShape(db, db')
  {
  }

  // ----- with the merge pass

  /** Some function that still holds a former successor holds `c` as well, so that the merge pass looks at it. */
  ghost predicate LookedAt(db: Db, block: U64, addr: U64, c: U64)
    requires block in db.blocks && block < addr
  {
    c in db.blocks && exists f, t ::
      Reachable(GraphOf(db.blocks), block, t) && t in db.blocks
      && Keeps(db, block, addr, f, t) && Keeps(db, block, addr, f, c)
  }

  /** After the cut the former successor `a` jumps only to itself, and nothing else the pass looks at leads to it. */
  ghost predicate LoopLeft(db: Db, block: U64, addr: U64, a: U64)
    requires block in db.blocks && block < addr
  {
    && Reachable(GraphOf(db.blocks), block, a) && a != block && LookedAt(db, block, addr, a) && Successors(db.blocks[a]) == [a]
    && forall c :: c != a && c != block && LookedAt(db, block, addr, c) ==> a !in Successors(db.blocks[c])
  }

  /** No such block is empty. */
  ghost predicate NoEmptyLoop(db: Db, block: U64, addr: U64)
    requires block in db.blocks && block < addr
  {
    forall a :: LoopLeft(db, block, addr, a) ==> db.blocks[a].size > 0
  }

  /** What the merge pass looks at. */
  lemma ChoppedScope(db: Db, db': Db, block: U64, addr: U64, candidates: seq<U64>, c: U64)
    requires block in db.blocks && block < addr && ChopDone(db, db', block, addr) && Linked(db')
    requires IsCandidates(db, block, candidates)
    ensures c in Scope(db', Holders(db'.blocks, candidates)) <==> LookedAt(db, block, addr, c)
  {
    InScope(db', candidates, c);
    if LookedAt(db, block, addr, c) {
      var f, t :| Reachable(GraphOf(db.blocks), block, t) && t in db.blocks
                  && Keeps(db, block, addr, f, t) && Keeps(db, block, addr, f, c);
      assert t in candidates && f in db'.blocks[t].fcns && f in db'.blocks[c].fcns;
    }
  }

  lemma InScope(db: Db, candidates: seq<U64>, c: U64)
    requires Linked(db)
    ensures c in Scope(db, Holders(db.blocks, candidates)) <==>
            c in db.blocks && exists f, t :: t in candidates && t in db.blocks && f in db.blocks[t].fcns && f in db.blocks[c].fcns
  {
    var fs := Holders(db.blocks, candidates);
    if c in Scope(db, fs) {
      var f :| f in fs && f in db.fcns && c in db.fcns[f].bbs;
      assert FcnLinked(db, f);
    }
    if c in db.blocks {
      assert BlockLinked(db, c);
    }
  }

  lemma ChoppedSuccessors(db: Db, db': Db, block: U64, addr: U64, c: U64)
    requires block in db.blocks && block < addr && SameShape(Chopped(db, block, addr), db') && c in db.blocks
    ensures c in db'.blocks && Successors(db'.blocks[c]) == if c == block then [] else Successors(db.blocks[c])
    ensures c != block ==> db'.blocks[c].size == db.blocks[c].size
  {
    var cut := Chopped(db, block, addr);
    assert Shape(db'.blocks[c]) == Shape(cut.blocks[c]);
    assert Successors(db'.blocks[c]) == Successors(Shape(db'.blocks[c]));
    assert Successors(cut.blocks[c]) == Successors(Shape(cut.blocks[c]));
    if c == block {
      NoSuccessors(cut.blocks[c]);
    }
  }

  /** The edges the merge pass looks at. */
  lemma ChoppedFlow(db: Db, db': Db, block: U64, addr: U64, candidates: seq<U64>)
    requires block in db.blocks && block < addr && ChopDone(db, db', block, addr) && Linked(db')
    requires IsCandidates(db, block, candidates)
    ensures var g := FlowOf(db'.blocks, Scope(db', Holders(db'.blocks, candidates)));
            && (forall c :: c in g <==> LookedAt(db, block, addr, c))
            && (forall c :: c in g ==> c in db.blocks && g[c] == if c == block then [] else Successors(db.blocks[c]))
  {
    var g := FlowOf(db'.blocks, Scope(db', Holders(db'.blocks, candidates)));
    forall c ensures c in g <==> LookedAt(db, block, addr, c) {
      ChoppedScope(db, db', block, addr, candidates, c);
    }
    forall c | c in g ensures c in db.blocks && g[c] == if c == block then [] else Successors(db.blocks[c]) {
      ChoppedSuccessors(db, db', block, addr, c);
    }
  }

  lemma SoleLoop(g: Adjacency, a: U64)
    ensures a in g && Sole(g, a, a) && |g[a]| == 1 <==> a in g && g[a] == [a] && forall c :: c in g && c != a ==> a !in g[c]
  {
    if a in g && |g[a]| == 1 {
      assert g[a] == [g[a][0]];
    }
  }

  /** In the store after the cut: the block is its own sole predecessor. */
  lemma LoopLeftIff(db: Db, g: Adjacency, block: U64, addr: U64, a: U64)
    requires block in db.blocks && block < addr && Reachable(GraphOf(db.blocks), block, a)
    requires forall c :: c in g <==> LookedAt(db, block, addr, c)
    requires forall c :: c in g ==> c in db.blocks && g[c] == if c == block then [] else Successors(db.blocks[c])
    ensures LoopLeft(db, block, addr, a) <==> a in g && Sole(g, a, a) && |g[a]| == 1
  {
    SoleLoop(g, a);
  }

  /** So the merge pass can run exactly if no such block is empty. */
  lemma NoEmptyLoopIff(db: Db, db': Db, block: U64, addr: U64, candidates: seq<U64>)
    requires block in db.blocks && block < addr && ChopDone(db, db', block, addr) && Linked(db')
    requires IsCandidates(db, block, candidates)
    ensures NoEmptyLoop(db, block, addr) <==> NoSelfMerge(db', Holders(db'.blocks, candidates), candidates)
  {
    forall a | a in candidates && a != block && a in db.blocks ensures db'.blocks[a].size == db.blocks[a].size {
      ChoppedSuccessors(db, db', block, addr, a);
    }
    var g := FlowOf(db'.blocks, Scope(db', Holders(db'.blocks, candidates)));
    ChoppedFlow(db, db', block, addr, candidates);
    forall a | a in candidates ensures LoopLeft(db, block, addr, a) <==> a in g && Sole(g, a, a) && |g[a]| == 1 {
      LoopLeftIff(db, g, block, addr, a);
    }
  }

  /** The references of the listed blocks are given up; those nobody else holds leave the store. */
  ghost predicate Released(db: Db, db': Db, rest: seq<U64>) {
    && db'.fcns == db.fcns
    && (forall a :: a in db'.blocks <==> a in db.blocks && !(a in rest && db.blocks[a].refs == 1))
    && (forall a :: a in db'.blocks && a in db.blocks && a !in rest ==> db'.blocks[a] == db.blocks[a])
    && (forall a :: a in db'.blocks && a in db.blocks && a in rest ==>
          db.blocks[a].refs > 0 && db'.blocks[a] == db.blocks[a].(refs := db.blocks[a].refs - 1))
  }

  lemma ReleaseOne(db: Db, mid: Db, done: seq<U64>, a: U64, todo: seq<U64>)
    requires Linked(mid) && Held(mid.blocks, [a] + todo) && Released(db, mid, done) && a !in done && a !in todo
    ensures a in mid.blocks && mid.blocks[a].refs > 0
    ensures var next := Unreffed(mid, a);
            Linked(next) && Held(next.blocks, todo) && Released(db, next, done + [a])
  {
    assert a in [a] + todo;
    UnreffedLinked(mid, a);
    forall c | c in todo ensures c in Unreffed(mid, a).blocks && Unreffed(mid, a).blocks[c] == mid.blocks[c] && c in mid.blocks {
      assert c in [a] + todo;
    }
  }

  method ReleaseAll(an: Analysis, rest: seq<U64>)
    requires Linked(an.State()) && Distinct(rest) && Held(an.blocks, rest)
    modifies an
    ensures Linked(an.State()) && Released(old(an.State()), an.State(), rest)
  {
    for k := 0 to |rest|
      invariant Linked(an.State()) && Held(an.blocks, rest[k..]) && Released(old(an.State()), an.State(), rest[..k])
    {
      assert rest[k..] == [rest[k]] + rest[k + 1..] && rest[..k + 1] == rest[..k] + [rest[k]];
      ReleaseOne(old(an.State()), an.State(), rest[..k], rest[k], rest[k + 1..]);
      an.UnrefBlock(rest[k]);
    }
    assert rest[..|rest|] == rest;
  }

  lemma StillHeld(db: Db, db': Db, given: seq<U64>, rest: seq<U64>, maxSize: nat)
    requires Merged(db, db', given, rest, maxSize) && Held(db.blocks, given)
    ensures Held(db'.blocks, rest)
  {
  }

  /** The returned block is still there exactly if somebody else held it or one of its functions still reaches it. */
  lemma ReturnedStays(db: Db, mid: Db, late: Db, end: Db, block: U64, addr: U64, candidates: seq<U64>, rest: seq<U64>,
                      maxSize: nat)
    requires InChopRange(db.blocks, block, addr) && Linked(db) && ChopDone(db, mid, block, addr) && Linked(mid)
    requires IsCandidates(db, block, candidates) && Spares(db.blocks, mid.blocks, candidates)
    requires Merged(mid, late, candidates, rest, maxSize) && Released(late, end, rest) && block in rest
    ensures block in end.blocks <==>
            Spare(db.blocks[block]) > 0 || exists f :: Keeps(db, block, addr, f, block)
  {
    SpareOfReturned(db, mid, late, block, candidates, rest, maxSize);
    KeptSomewhere(db, mid, block, addr);
  }

  lemma KeptSomewhere(db: Db, mid: Db, block: U64, addr: U64)
    requires block in db.blocks && block < addr && ChopDone(db, mid, block, addr)
    ensures block in mid.blocks && (mid.blocks[block].fcns != [] <==> exists f :: Keeps(db, block, addr, f, block))
  {
    var fcns := mid.blocks[block].fcns;
    if fcns != [] {
      assert fcns[0] in fcns;
    }
    if f :| Keeps(db, block, addr, f, block) {
      assert f in mid.blocks[block].fcns;
    }
  }

  lemma SpareOfReturned(db: Db, mid: Db, late: Db, block: U64, candidates: seq<U64>, rest: seq<U64>, maxSize: nat)
    requires block in db.blocks && block in mid.blocks && Linked(db)
    requires Spares(db.blocks, mid.blocks, candidates) && block in candidates && block in rest
    requires Merged(mid, late, candidates, rest, maxSize)
    ensures block in late.blocks && Spare(db.blocks[block]) >= 0
    ensures late.blocks[block].refs == |mid.blocks[block].fcns| + Spare(db.blocks[block]) + 1
  {
    assert BlockLinked(db, block);
  }

  /**
   * The whole of `chop_noreturn`: the cut, the merge pass over the former successors, and the release of their
   * references. The block is returned unless it was merged into its predecessor. `mid` is the store before the merge
   * pass, `late` the one behind it.
   */
  method ChopAndMerge(an: Analysis, block: U64, addr: U64)
    returns (ret: Option<U64>, ghost candidates: seq<U64>, ghost rest: seq<U64>, ghost mid: Db, ghost late: Db)
    requires Linked(an.State()) && block in an.blocks
    requires InChopRange(an.blocks, block, addr) ==> NoEmptyLoop(an.State(), block, addr)
    modifies an
    ensures Linked(an.State())
    ensures !InChopRange(old(an.blocks), block, addr) ==> ret == Some(block) && an.State() == old(an.State())
    ensures InChopRange(old(an.blocks), block, addr) ==>
              && IsCandidates(old(an.State()), block, candidates)
              && ChopDone(old(an.State()), mid, block, addr)
              && Merged(mid, late, candidates, rest, an.bbMaxSize) && Outcome(mid, late, candidates, an.bbMaxSize)
              && Released(late, an.State(), rest)
              && ret == if block in rest then Some(block) else None
    ensures InChopRange(old(an.blocks), block, addr) && ret.Some? ==>
              (block in an.blocks <==> Spare(old(an.blocks)[block]) > 0
                                       || exists f :: Keeps(old(an.State()), block, addr, f, block))
  {
    if addr <= block || addr > block + an.blocks[block].size {
      return Some(block), [], [], an.State(), an.State();
    }
    var given := ChopNoreturn(an, block, addr);
    mid, candidates := an.State(), given;
    NoEmptyLoopIff(old(an.State()), mid, block, addr, candidates);
    var left := Automerge.Automerge(an, given);
    rest, late := left, an.State();
    StillHeld(mid, late, candidates, rest, an.bbMaxSize);
    ReleaseAll(an, left);
    ret := if block in left then Some(block) else None;
    if ret.Some? {
      ReturnedStays(old(an.State()), mid, late, an.State(), block, addr, candidates, rest, an.bbMaxSize);
    }
  }
}
