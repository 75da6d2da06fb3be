/** The merge pass keeps the instruction-level control flow. */
module MergeFlow {
  import opened Machine
  import opened Blocks
  import opened BlockCode
  import opened Store
  import opened Flow
  import opened MergePass

  /** If a block from `q` to the end of `t` is within the limit, every instruction of `t` has a 16-bit offset in it. */
  ghost predicate FitsFrom(q: U64, t: U64, b: Block, maxSize: nat) {
    t + b.size <= q + maxSize ==> forall i :: 0 <= i < b.code.ninstr ==> t + OpOffset(b.code, i) <= q + UT16_MAX
  }

  /** With instructions in `t` there are some in `p` too, and they fit behind any block of the scope. */
  ghost predicate Absorbs(blocks: BlockMap, scope: set<U64>, p: U64, t: U64, maxSize: nat)
    requires p in blocks && t in blocks
  {
    && (blocks[t].code.ninstr > 0 ==> blocks[p].code.ninstr > 0)
    && forall q :: q in scope && q <= t ==> FitsFrom(q, t, blocks[t], maxSize)
  }

  /** The premise on instructions: it concerns only pairs of which one could absorb the other. */
  ghost predicate Legible(db: Db, fs: set<FcnId>, given: seq<U64>, maxSize: nat) {
    var g := FlowOf(db.blocks, Scope(db, fs));
    forall p, t {:trigger Feeds(db.blocks, g, p, t, maxSize)} ::
      t in given && t in db.blocks && Feeds(db.blocks, g, p, t, maxSize) ==> Absorbs(db.blocks, Scope(db, fs), p, t, maxSize)
  }

  /** Offsets below the size of their block always fit. */
  lemma WellFormedFits(q: U64, t: U64, b: Block, maxSize: nat)
    requires WellFormed(b.code, b.size) && maxSize <= UT16_MAX + 1
    ensures FitsFrom(q, t, b, maxSize)
  {
  }

  /** So with well-formed blocks only the absorbing ones need an instruction, and not even those if they absorb bare
      blocks. */
  lemma WellFormedLegible(db: Db, fs: set<FcnId>, given: seq<U64>, maxSize: nat)
    requires maxSize <= UT16_MAX + 1 && forall a :: a in given && a in db.blocks ==> WellFormed(db.blocks[a].code, db.blocks[a].size)
    requires var g := FlowOf(db.blocks, Scope(db, fs));
             forall p, t {:trigger Feeds(db.blocks, g, p, t, maxSize)} ::
               t in given && t in db.blocks && Feeds(db.blocks, g, p, t, maxSize) && db.blocks[t].code.ninstr > 0 ==>
                 db.blocks[p].code.ninstr > 0
    ensures Legible(db, fs, given, maxSize)
  {
    var g := FlowOf(db.blocks, Scope(db, fs));
    forall p, t | t in given && t in db.blocks && Feeds(db.blocks, g, p, t, maxSize)
      ensures Absorbs(db.blocks, Scope(db, fs), p, t, maxSize)
    {
      forall q | q in Scope(db, fs) && q <= t ensures FitsFrom(q, t, db.blocks[t], maxSize) {
        WellFormedFits(q, t, db.blocks[t], maxSize);
      }
    }
  }

  // ----- one merge

  lemma MergeFeeds(db: Db, fs: set<FcnId>, a: U64, b: U64, maxSize: nat)
    requires MergesAlong(db, fs, a, b, maxSize)
    ensures Feeds(db.blocks, FlowOf(db.blocks, Scope(db, fs)), a, b, maxSize)
  {
    FeedsIff(db, fs, a, b, maxSize);
  }

  /** The merge is exact: nothing is truncated. */
  lemma MergeIsExact(a: U64, A: Block, b: U64, B: Block, maxSize: nat)
    requires a + A.size == b && a != b && A.size + B.size <= maxSize && FitsFrom(a, b, B, maxSize)
    ensures IsMerge(A.code, A.size, B.code, MergedCode(A.code, A.size, B.code))
  {
    MergeExact(A.code, A.size, B.code, B.code.ninstr);
  }

  /** What a merge does to who could absorb whom. */
  lemma FeedsBefore(db: Db, fs: set<FcnId>, a: U64, b: U64, maxSize: nat, p: U64, t: U64)
    requires MergesAlong(db, fs, a, b, maxSize) && b in Scope(db, fs) && t != b
    requires Feeds(AfterMerge(db, a, b).blocks, Fused(FlowOf(db.blocks, Scope(db, fs)), a, b), p, t, maxSize)
    ensures p != b && Feeds(db.blocks, FlowOf(db.blocks, Scope(db, fs)), if p == a then b else p, t, maxSize)
  {
    MergeFeeds(db, fs, a, b, maxSize);
    SoleAfterFuse(FlowOf(db.blocks, Scope(db, fs)), a, b, p, t);
  }

  lemma MergedFits(a: U64, A: Block, b: U64, B: Block, M: Block, q: U64, maxSize: nat)
    requires a + A.size == b && a < b && IsMerge(A.code, A.size, B.code, M.code) && M.size == A.size + B.size
    requires B.code.ninstr > 0 ==> A.code.ninstr > 0
    requires FitsFrom(q, a, A, maxSize) && FitsFrom(q, b, B, maxSize)
    ensures FitsFrom(q, a, M, maxSize)
  {
    if a + M.size <= q + maxSize {
      forall i | 0 <= i < M.code.ninstr ensures a + OpOffset(M.code, i) <= q + UT16_MAX {
        if i >= A.code.ninstr {
          assert OpOffset(M.code, i) == A.size + OpOffset(B.code, i - A.code.ninstr);
        }
      }
    }
  }

  /** The pair (p, t) after the merge of `b` into `a`. */
  lemma AbsorbsAfter(blocks: BlockMap, scope: set<U64>, a: U64, b: U64, M: Block, p: U64, t: U64, maxSize: nat)
    requires a in blocks && b in blocks && a + blocks[a].size == b && a < b && t in blocks && p in blocks && t != b && p != b
    requires IsMerge(blocks[a].code, blocks[a].size, blocks[b].code, M.code) && M.size == blocks[a].size + blocks[b].size
    requires Absorbs(blocks, scope, a, b, maxSize) && Absorbs(blocks, scope, if p == a then b else p, t, maxSize) && p != t
    ensures var r := (blocks - {b})[a := M]; Absorbs(r, scope - {b}, p, t, maxSize)
  {
    var r := (blocks - {b})[a := M];
    forall q | q in scope - {b} && q <= t ensures FitsFrom(q, t, r[t], maxSize) {
      if t == a {
        MergedFits(a, blocks[a], b, blocks[b], M, q, maxSize);
      }
    }
  }

  lemma StepLegible(db: Db, fs: set<FcnId>, given: seq<U64>, a: U64, b: U64, maxSize: nat)
    requires MergesAlong(db, fs, a, b, maxSize) && b in given && Legible(db, fs, given, maxSize)
    ensures Legible(AfterMerge(db, a, b), fs, given, maxSize)
  {
    var g, r, scope := FlowOf(db.blocks, Scope(db, fs)), AfterMerge(db, a, b), Scope(db, fs);
    MergedScope(db, fs, a, b, maxSize);
    MergeFeeds(db, fs, a, b, maxSize);
    MergeIsExact(a, db.blocks[a], b, db.blocks[b], maxSize);
    forall p, t | t in given && t in r.blocks && Feeds(r.blocks, Fused(g, a, b), p, t, maxSize)
      ensures Absorbs(r.blocks, scope - {b}, p, t, maxSize)
    {
      StepAbsorbs(db, fs, given, a, b, maxSize, p, t);
    }
  }

  lemma StepAbsorbs(db: Db, fs: set<FcnId>, given: seq<U64>, a: U64, b: U64, maxSize: nat, p: U64, t: U64)
    requires MergesAlong(db, fs, a, b, maxSize) && b in Scope(db, fs) && Legible(db, fs, given, maxSize)
    requires Absorbs(db.blocks, Scope(db, fs), a, b, maxSize) && t in given && t in AfterMerge(db, a, b).blocks
    requires IsMerge(db.blocks[a].code, db.blocks[a].size, db.blocks[b].code, AfterMerge(db, a, b).blocks[a].code)
    requires Feeds(AfterMerge(db, a, b).blocks, Fused(FlowOf(db.blocks, Scope(db, fs)), a, b), p, t, maxSize)
    ensures Absorbs(AfterMerge(db, a, b).blocks, Scope(db, fs) - {b}, p, t, maxSize)
  {
    FeedsBefore(db, fs, a, b, maxSize, p, t);
    AbsorbsAfter(db.blocks, Scope(db, fs), a, b, AfterMerge(db, a, b).blocks[a], p, t, maxSize);
  }

  lemma StepFuses(db: Db, fs: set<FcnId>, given: seq<U64>, a: U64, b: U64, maxSize: nat)
    requires MergesAlong(db, fs, a, b, maxSize) && b in given && Legible(db, fs, given, maxSize)
    ensures Fuses(a, db.blocks[a], b, db.blocks[b], AfterMerge(db, a, b).blocks[a])
    ensures OnlyFrom(db.blocks, Scope(db, fs), a, b)
  {
    MergeFeeds(db, fs, a, b, maxSize);
    MergeIsExact(a, db.blocks[a], b, db.blocks[b], maxSize);
    var g := FlowOf(db.blocks, Scope(db, fs));
    forall c | c in Scope(db, fs) && c != a ensures b !in Successors(db.blocks[c]) {
      assert c in g;
    }
  }

  /** One merge keeps the flow, and every single edge if the absorbed block has instructions. */
  lemma StepFlow(db: Db, fs: set<FcnId>, given: seq<U64>, a: U64, b: U64, maxSize: nat)
    requires MergesAlong(db, fs, a, b, maxSize) && b in given && Legible(db, fs, given, maxSize)
    ensures SameFlow(db.blocks, Scope(db, fs), AfterMerge(db, a, b).blocks, Scope(AfterMerge(db, a, b), fs))
    ensures db.blocks[b].code.ninstr > 0 ==>
              SameSteps(db.blocks, Scope(db, fs), AfterMerge(db, a, b).blocks, Scope(AfterMerge(db, a, b), fs))
  {
    MergedScope(db, fs, a, b, maxSize);
    StepFuses(db, fs, given, a, b, maxSize);
    FusedFlow(db.blocks, Scope(db, fs), a, b, AfterMerge(db, a, b).blocks[a]);
    if db.blocks[b].code.ninstr > 0 {
      FusedSteps(db.blocks, Scope(db, fs), a, b, AfterMerge(db, a, b).blocks[a]);
    }
  }

  /** Where no other block has an instruction at the start of `b`, a merge that truncates nothing keeps the flow exactly
      when it does not put instructions into a bare block. */
  lemma StepFlowIff(db: Db, fs: set<FcnId>, a: U64, b: U64, maxSize: nat)
    requires MergesAlong(db, fs, a, b, maxSize) && FitsFrom(a, b, db.blocks[b], maxSize) && Increasing(db.blocks[b].code)
    requires forall c :: c in Scope(db, fs) && c != b ==> !InstrIn(c, db.blocks[c], b)
    ensures SameFlow(db.blocks, Scope(db, fs), AfterMerge(db, a, b).blocks, Scope(AfterMerge(db, a, b), fs)) <==>
            (db.blocks[b].code.ninstr > 0 ==> db.blocks[a].code.ninstr > 0)
  {
    var A, B, M, scope := db.blocks[a], db.blocks[b], AfterMerge(db, a, b).blocks[a], Scope(db, fs);
    MergedScope(db, fs, a, b, maxSize);
    MergeIsExact(a, A, b, B, maxSize);
    if B.code.ninstr > 0 && A.code.ninstr == 0 {
      BareAbsorberMovesCode(a, A, b, B, M);
      assert Instr(db.blocks, scope, b);
      assert !Instr(AfterMerge(db, a, b).blocks, scope - {b}, b);
    } else {
      var g := FlowOf(db.blocks, scope);
      forall c | c in scope && c != a ensures b !in Successors(db.blocks[c]) {
        assert c in g;
      }
      assert Successors(M) == Successors(B);
      FusedFlow(db.blocks, scope, a, b, M);
    }
  }

  // ----- the whole pass

  /** Every given block has an instruction. */
  ghost predicate Manned(db: Db, given: seq<U64>) {
    forall t :: t in given && t in db.blocks ==> db.blocks[t].code.ninstr > 0
  }

  lemma {:induction false} MergedCount(a: Code, asize: nat, b: Code, n: nat)
    requires n <= b.ninstr
    ensures MergedFrom(a, asize, b, n).ninstr == a.ninstr + n
  {
    if n > 0 {
      MergedCount(a, asize, b, n - 1);
    }
  }

  lemma StepManned(db: Db, given: seq<U64>, a: U64, b: U64)
    requires a in db.blocks && b in db.blocks && a != b && Manned(db, given) && b in given
    ensures Manned(AfterMerge(db, a, b), given)
  {
    MergedCount(db.blocks[a].code, db.blocks[a].size, db.blocks[b].code, db.blocks[b].code.ninstr);
  }

  /** However the pass proceeds, it keeps instructions and their order of execution if the premise on absorbing blocks
      held at its start; and every edge if no given block is bare. */
  lemma {:induction false} PassFlow(states: seq<Db>, fs: set<FcnId>, given: seq<U64>, maxSize: nat)
    requires PassRun(states, fs, given, maxSize) && Legible(states[0], fs, given, maxSize)
    ensures var db0, db := states[0], states[|states| - 1];
            && Legible(db, fs, given, maxSize) && SameFlow(db0.blocks, Scope(db0, fs), db.blocks, Scope(db, fs))
            && (Manned(db0, given) ==>
                  Manned(db, given) && SameSteps(db0.blocks, Scope(db0, fs), db.blocks, Scope(db, fs)))
    decreases |states|
  {
    var n := |states| - 1;
    if n > 0 {
      var before := states[..n];
      assert PassRun(before, fs, given, maxSize) by {
        forall i | 0 <= i < n - 1 ensures PassStep(before[i], before[i + 1], fs, given, maxSize) {
          assert PassStep(states[i], states[i + 1], fs, given, maxSize);
        }
      }
      PassFlow(before, fs, given, maxSize);
      assert PassStep(states[n - 1], states[n - 1 + 1], fs, given, maxSize);
      FlowExtends(states[0], before[n - 1], states[n], fs, given, maxSize);
    }
  }

  lemma FlowExtends(db0: Db, mid: Db, db: Db, fs: set<FcnId>, given: seq<U64>, maxSize: nat)
    requires PassStep(mid, db, fs, given, maxSize) && Legible(mid, fs, given, maxSize)
    requires SameFlow(db0.blocks, Scope(db0, fs), mid.blocks, Scope(mid, fs))
    ensures Legible(db, fs, given, maxSize) && SameFlow(db0.blocks, Scope(db0, fs), db.blocks, Scope(db, fs))
    ensures Manned(mid, given) && SameSteps(db0.blocks, Scope(db0, fs), mid.blocks, Scope(mid, fs)) ==>
              Manned(db, given) && SameSteps(db0.blocks, Scope(db0, fs), db.blocks, Scope(db, fs))
  {
    var a, b :| MergesAlong(mid, fs, a, b, maxSize) && b in given && db == AfterMerge(mid, a, b);
    StepLegible(mid, fs, given, a, b, maxSize);
    StepFlow(mid, fs, given, a, b, maxSize);
    SameFlowTrans(db0.blocks, Scope(db0, fs), mid.blocks, Scope(mid, fs), db.blocks, Scope(db, fs));
    if Manned(mid, given) && SameSteps(db0.blocks, Scope(db0, fs), mid.blocks, Scope(mid, fs)) {
      StepManned(mid, given, a, b);
      SameStepsTrans(db0.blocks, Scope(db0, fs), mid.blocks, Scope(mid, fs), db.blocks, Scope(db, fs));
    }
  }
}
