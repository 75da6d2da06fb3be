/** When the merge pass keeps the control flow. */
module MergeFlowIff {
  import opened Machine
  import opened Blocks
  import opened BlockCode
  import opened Store
  import opened Flow
  import opened MergePass
  import opened MergeFlow
  import opened MergeOrder
  import opened MergeRuns

  /** Block `p` has no instructions and could absorb `c`, which has some. */
  ghost predicate Moves(db: Db, fs: set<FcnId>, given: seq<U64>, maxSize: nat, p: U64, c: U64) {
    && c in given && Feeds(db.blocks, FlowOf(db.blocks, Scope(db, fs)), p, c, maxSize)
    && db.blocks[p].code.ninstr == 0 && db.blocks[c].code.ninstr > 0
  }

  /** Behind any block of the scope that is near enough, the instructions of the given blocks have 16-bit offsets. */
  ghost predicate AllFit(db: Db, fs: set<FcnId>, given: seq<U64>, maxSize: nat) {
    forall q, t :: q in Scope(db, fs) && t in Scope(db, fs) && t in given && t in db.blocks && q <= t ==>
      FitsFrom(q, t, db.blocks[t], maxSize)
  }

  /** The first instruction of `c` belongs to no other block and comes once. */
  ghost predicate Alone(blocks: BlockMap, scope: set<U64>, c: U64) {
    && c in blocks && Increasing(blocks[c].code)
    && forall d :: d in scope && d in blocks && d != c ==> !InstrIn(d, blocks[d], c)
  }

  lemma AllFitLegible(db: Db, fs: set<FcnId>, given: seq<U64>, maxSize: nat)
    requires Linked(db) && AllFit(db, fs, given, maxSize) && forall p, c :: !Moves(db, fs, given, maxSize, p, c)
    ensures Legible(db, fs, given, maxSize)
  {
    var g := FlowOf(db.blocks, Scope(db, fs));
    forall p, t | t in given && t in db.blocks && Feeds(db.blocks, g, p, t, maxSize)
      ensures Absorbs(db.blocks, Scope(db, fs), p, t, maxSize)
    {
      FeedsIff(db, fs, p, t, maxSize);
      MergedScope(db, fs, p, t, maxSize);
      assert !Moves(db, fs, given, maxSize, p, t);
    }
  }

  // ----- an instruction that is lost does not come back

  /** A merge adds at most an instruction at the start of the absorbing block. */
  lemma MergedInstr(a: U64, A: Block, b: U64, B: Block, M: Block, x: nat)
    requires a + A.size == b && IsMerge(A.code, A.size, B.code, M.code) && InstrIn(a, M, x)
    ensures x == a || InstrIn(a, A, x) || InstrIn(b, B, x)
  {
    var i :| 0 <= i < M.code.ninstr && x == a + OpOffset(M.code, i);
    if i < A.code.ninstr {
      assert x == a + OpOffset(A.code, i);
    } else if i > 0 {
      assert x == b + OpOffset(B.code, i - A.code.ninstr);
    }
  }

  lemma NotGained(blocks: BlockMap, scope: set<U64>, a: U64, b: U64, M: Block, x: nat)
    requires a in scope && b in scope && a in blocks && b in blocks && a + blocks[a].size == b && x != a
    requires IsMerge(blocks[a].code, blocks[a].size, blocks[b].code, M.code) && !Instr(blocks, scope, x)
    ensures !Instr((blocks - {b})[a := M], scope - {b}, x)
  {
    var blocks', scope' := (blocks - {b})[a := M], scope - {b};
    forall c | c in scope' && c in blocks' ensures !InstrIn(c, blocks'[c], x) {
      if c != a {
        assert !InstrIn(c, blocks[c], x);
      } else if InstrIn(a, M, x) {
        MergedInstr(a, blocks[a], b, blocks[b], M, x);
      }
    }
  }

  lemma MergedFitsToo(a: U64, A: Block, b: U64, B: Block, M: Block, q: U64, maxSize: nat)
    requires a + A.size == b && q <= a && IsMerge(A.code, A.size, B.code, M.code) && M.size == A.size + B.size
    requires FitsFrom(q, a, A, maxSize) && FitsFrom(q, b, B, maxSize)
    ensures FitsFrom(q, a, M, maxSize)
  {
    if a + M.size <= q + maxSize {
      forall i | 0 <= i < M.code.ninstr ensures a + OpOffset(M.code, i) <= q + UT16_MAX {
        if i < A.code.ninstr {
          assert a + OpOffset(M.code, i) == a + OpOffset(A.code, i);
        } else {
          assert b + OpOffset(B.code, i - A.code.ninstr) <= q + UT16_MAX;
        }
      }
    }
  }

  lemma StepFits(db: Db, fs: set<FcnId>, given: seq<U64>, a: U64, b: U64, maxSize: nat)
    requires MergesAlong(db, fs, a, b, maxSize) && b in given && AllFit(db, fs, given, maxSize)
    ensures b in Scope(db, fs) && AllFit(AfterMerge(db, a, b), fs, given, maxSize)
    ensures IsMerge(db.blocks[a].code, db.blocks[a].size, db.blocks[b].code, AfterMerge(db, a, b).blocks[a].code)
  {
    var r, scope := AfterMerge(db, a, b), Scope(db, fs);
    MergedScope(db, fs, a, b, maxSize);
    MergeIsExact(a, db.blocks[a], b, db.blocks[b], maxSize);
    forall q, t | q in scope - {b} && t in scope - {b} && t in given && t in r.blocks && q <= t
      ensures FitsFrom(q, t, r.blocks[t], maxSize)
    {
      if t == a {
        MergedFitsToo(a, db.blocks[a], b, db.blocks[b], r.blocks[a], q, maxSize);
      }
    }
  }

  /** No instruction at `x`, and no block there either. */
  ghost predicate Lost(db: Db, fs: set<FcnId>, x: U64) {
    x !in db.blocks && !Instr(db.blocks, Scope(db, fs), x)
  }

  lemma LostMerge(db: Db, fs: set<FcnId>, given: seq<U64>, a: U64, b: U64, maxSize: nat, x: U64)
    requires MergesAlong(db, fs, a, b, maxSize) && b in given && AllFit(db, fs, given, maxSize) && Lost(db, fs, x)
    ensures AllFit(AfterMerge(db, a, b), fs, given, maxSize) && Lost(AfterMerge(db, a, b), fs, x)
  {
    StepFits(db, fs, given, a, b, maxSize);
    MergedScope(db, fs, a, b, maxSize);
    NotGained(db.blocks, Scope(db, fs), a, b, AfterMerge(db, a, b).blocks[a], x);
  }

  lemma LostStep(db: Db, db': Db, fs: set<FcnId>, given: seq<U64>, maxSize: nat, x: U64)
    requires PassStep(db, db', fs, given, maxSize) && AllFit(db, fs, given, maxSize) && Lost(db, fs, x)
    ensures AllFit(db', fs, given, maxSize) && Lost(db', fs, x)
  {
    var a, b :| MergesAlong(db, fs, a, b, maxSize) && b in given && db' == AfterMerge(db, a, b);
    LostMerge(db, fs, given, a, b, maxSize, x);
  }

  lemma {:induction false} LostForGood(states: seq<Db>, fs: set<FcnId>, given: seq<U64>, maxSize: nat, x: U64)
    requires PassRun(states, fs, given, maxSize) && AllFit(states[0], fs, given, maxSize) && Lost(states[0], fs, x)
    ensures Lost(states[|states| - 1], fs, x)
    decreases |states|
  {
    if |states| > 1 {
      assert PassStep(states[0], states[0 + 1], fs, given, maxSize);
      LostStep(states[0], states[1], fs, given, maxSize, x);
      PassRunTail(states, fs, given, maxSize);
      LostForGood(states[1..], fs, given, maxSize, x);
    }
  }

  // ----- the merge that loses it

  lemma MoveLoses(db: Db, fs: set<FcnId>, given: seq<U64>, maxSize: nat, p: U64, c: U64)
    requires Linked(db) && AllFit(db, fs, given, maxSize) && Moves(db, fs, given, maxSize, p, c)
    requires Alone(db.blocks, Scope(db, fs), c)
    ensures Instr(db.blocks, Scope(db, fs), c)
    ensures var r := TurnOf(db, fs, c, maxSize); AllFit(r, fs, given, maxSize) && Lost(r, fs, c)
  {
    FeedsIff(db, fs, p, c, maxSize);
    TurnIs(db, fs, p, c, maxSize);
    MergedScope(db, fs, p, c, maxSize);
    StepFits(db, fs, given, p, c, maxSize);
    var r := AfterMerge(db, p, c);
    BareAbsorberMovesCode(p, db.blocks[p], c, db.blocks[c], r.blocks[p]);
    assert c in Scope(db, fs) && InstrIn(c, db.blocks[c], c);
    forall d | d in Scope(db, fs) - {c} && d in r.blocks ensures !InstrIn(d, r.blocks[d], c) {
      assert !InstrIn(d, db.blocks[d], c);
    }
  }

  /** So a pass that begins with that merge changes the flow. */
  lemma MoveFirst(db: Db, fs: set<FcnId>, given: seq<U64>, maxSize: nat, p: U64, c: U64) returns (order: seq<U64>)
    requires Linked(db) && Distinct(given) && AllFit(db, fs, given, maxSize) && Moves(db, fs, given, maxSize, p, c)
    requires Alone(db.blocks, Scope(db, fs), c)
    ensures IsOrder(order, given) && !FlowIsKept(db, ByOrder(db, fs, order, maxSize), fs)
  {
    var others := Others(given, [c]);
    FirstThenOthers(given, [c]);
    order := [c] + others;
    MoveLoses(db, fs, given, maxSize, p, c);
    var next := TurnOf(db, fs, c, maxSize);
    assert order[0] == c && order[1..] == others;
    RunOfIsRun(next, fs, given, others, maxSize);
    LostForGood(RunOf(next, fs, others, maxSize), fs, given, maxSize, c);
  }

  // ----- main results

  ghost predicate FlowIsKept(db: Db, db': Db, fs: set<FcnId>) {
    SameFlow(db.blocks, Scope(db, fs), db'.blocks, Scope(db', fs))
  }

  /** Every run that has nothing left to merge keeps the instructions and their order of execution. */
  ghost predicate RunsKeepFlow(db: Db, fs: set<FcnId>, given: seq<U64>, maxSize: nat) {
    forall states: seq<Db> :: Completes(states, db, fs, given, maxSize) ==> FlowIsKept(db, states[|states| - 1], fs)
  }

  /** Every order of the given blocks does. */
  ghost predicate OrdersKeepFlow(db: Db, fs: set<FcnId>, given: seq<U64>, maxSize: nat) {
    forall order: seq<U64> :: IsOrder(order, given) ==> FlowIsKept(db, ByOrder(db, fs, order, maxSize), fs)
  }

  lemma NoMoveKeeps(db: Db, fs: set<FcnId>, given: seq<U64>, maxSize: nat)
    requires Linked(db) && AllFit(db, fs, given, maxSize) && forall p, c :: !Moves(db, fs, given, maxSize, p, c)
    ensures RunsKeepFlow(db, fs, given, maxSize)
  {
    AllFitLegible(db, fs, given, maxSize);
    forall states: seq<Db> | Completes(states, db, fs, given, maxSize) ensures FlowIsKept(db, states[|states| - 1], fs) {
      PassFlow(states, fs, given, maxSize);
    }
  }

  lemma RunsTellOrders(db: Db, fs: set<FcnId>, given: seq<U64>, maxSize: nat)
    requires Linked(db) && NoSelfMerge(db, fs, given) && RunsKeepFlow(db, fs, given, maxSize)
    ensures OrdersKeepFlow(db, fs, given, maxSize)
  {
    forall order: seq<U64> | IsOrder(order, given) ensures FlowIsKept(db, ByOrder(db, fs, order, maxSize), fs) {
      OrderCompletes(db, fs, given, order, maxSize);
    }
  }

  /** The pass keeps the instructions and their order of execution however it proceeds, if and only if no block without
      instructions could absorb one that has some; and orders of the given blocks are enough to tell. */
  lemma FlowKeptIff(db: Db, fs: set<FcnId>, given: seq<U64>, maxSize: nat)
    requires Linked(db) && NoSelfMerge(db, fs, given) && Distinct(given) && AllFit(db, fs, given, maxSize)
    requires forall p, c :: Moves(db, fs, given, maxSize, p, c) ==> Alone(db.blocks, Scope(db, fs), c)
    ensures RunsKeepFlow(db, fs, given, maxSize) <==> forall p, c :: !Moves(db, fs, given, maxSize, p, c)
    ensures OrdersKeepFlow(db, fs, given, maxSize) <==> forall p, c :: !Moves(db, fs, given, maxSize, p, c)
  {
    if p: U64, c: U64 :| Moves(db, fs, given, maxSize, p, c) {
      var order := MoveFirst(db, fs, given, maxSize, p, c);
      assert !OrdersKeepFlow(db, fs, given, maxSize);
      if RunsKeepFlow(db, fs, given, maxSize) {
        RunsTellOrders(db, fs, given, maxSize);
      }
    } else {
      NoMoveKeeps(db, fs, given, maxSize);
      RunsTellOrders(db, fs, given, maxSize);
    }
  }

  // ----- an example

  function FourBytes(jump: U64, ninstr: nat): Block {
    Block(4, jump, UT64_MAX, None, NewCode().(ninstr := ninstr), 2, [7])
  }

  /** One function whose first block has no instructions and leads to the one behind it, which has one. */
  function BareFirst(): Db {
    Db(map[0 := FourBytes(4, 0), 4 := FourBytes(UT64_MAX, 1)], map[7 := Fcn(0, [0, 4], UT64_MAX, 0)])
  }

  lemma BareLinked()
    ensures Linked(BareFirst()) && Scope(BareFirst(), {7}) == {0, 4}
  {
    var db := BareFirst();
    forall a | a in db.blocks ensures BlockLinked(db, a) {}
    forall f | f in db.fcns ensures FcnLinked(db, f) {}
    assert db.fcns[7].bbs == [0, 4] && 7 in {7} && 7 in db.fcns;
  }

  lemma BareMerges()
    ensures MergesAlong(BareFirst(), {7}, 0, 4, 100)
  {
    BareLinked();
    JumpOnly(FourBytes(4, 0), 4);
    NoSuccessors(FourBytes(UT64_MAX, 1));
    var g := FlowOf(BareFirst().blocks, {0, 4});
    assert g[0] == [4] && g[4] == [];
    assert Sole(g, 0, 4);
  }

  /** The pass merges the two, and the instruction is at another address afterwards. */
  lemma BareMergeMoves()
    ensures MergesAlong(BareFirst(), {7}, 0, 4, 100)
    ensures !FlowIsKept(BareFirst(), AfterMerge(BareFirst(), 0, 4), {7})
  {
    var db := BareFirst();
    BareMerges();
    BareLinked();
    assert forall i :: 0 <= i < db.blocks[4].code.ninstr ==> OpOffset(db.blocks[4].code, i) == 0;
    assert !InstrIn(0, db.blocks[0], 4);
    StepFlowIff(db, {7}, 0, 4, 100);
  }
}
