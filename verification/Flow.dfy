/** Instruction-level control flow across blocks, and what splitting and merging blocks does to it. */
module Flow {
  import opened Machine
  import opened Blocks
  import opened BlockCode
  import opened Store

  // ----- instruction-level control flow

  /** Block `a` has an instruction at `x`. */
  ghost predicate InstrIn(a: U64, b: Block, x: nat) {
    exists i :: 0 <= i < b.code.ninstr && x == a + OpOffset(b.code, i)
  }

  /** `y` follows the i-th instruction: the next one, or after the last a successor of the block. */
  ghost predicate Follows(a: U64, b: Block, i: nat, y: nat) {
    if i + 1 < b.code.ninstr then y == a + OpOffset(b.code, i + 1) else y in Successors(b)
  }

  ghost predicate StepIn(a: U64, b: Block, x: nat, y: nat) {
    exists i :: 0 <= i < b.code.ninstr && x == a + OpOffset(b.code, i) && Follows(a, b, i, y)
  }

  /** Some block of `scope` has an instruction at `x`. */
  ghost predicate Instr(blocks: BlockMap, scope: set<U64>, x: nat) {
    exists a :: a in scope && a in blocks && InstrIn(a, blocks[a], x)
  }

  ghost predicate Step(blocks: BlockMap, scope: set<U64>, x: nat, y: nat) {
    exists a :: a in scope && a in blocks && StepIn(a, blocks[a], x, y)
  }

  /** Same instruction addresses, and the same edges to whatever starts at the successor addresses. */
  ghost predicate SameSteps(blocks: BlockMap, scope: set<U64>, blocks': BlockMap, scope': set<U64>) {
    && (forall x :: Instr(blocks, scope, x) <==> Instr(blocks', scope', x))
    && (forall x, y :: Step(blocks, scope, x, y) <==> Step(blocks', scope', x, y))
  }

  // ----- through blocks without instructions

  ghost predicate Bare(blocks: BlockMap, scope: set<U64>, t: U64) {
    t in scope && t in blocks && blocks[t].code.ninstr == 0
  }

  /** Going on from address `t` through at most `n` bare blocks gets to `y`. */
  ghost predicate LeadsWithin(blocks: BlockMap, scope: set<U64>, t: U64, y: nat, n: nat)
    decreases n
  {
    if Bare(blocks, scope, t)
    then n > 0 && exists w :: w in Successors(blocks[t]) && LeadsWithin(blocks, scope, w, y, n - 1)
    else y == t
  }

  ghost predicate Leads(blocks: BlockMap, scope: set<U64>, t: U64, y: nat) {
    exists n: nat :: LeadsWithin(blocks, scope, t, y, n)
  }

  lemma LeadsOn(blocks: BlockMap, scope: set<U64>, t: U64, w: U64, y: nat)
    requires Bare(blocks, scope, t) && w in Successors(blocks[t]) && Leads(blocks, scope, w, y)
    ensures Leads(blocks, scope, t, y)
  {
    var n: nat :| LeadsWithin(blocks, scope, w, y, n);
    assert LeadsWithin(blocks, scope, t, y, n + 1);
  }

  /** `y` is executed after the i-th instruction: the next one, or what a successor leads to. */
  ghost predicate Continues(blocks: BlockMap, scope: set<U64>, a: U64, b: Block, i: nat, y: nat) {
    if i + 1 < b.code.ninstr then y == a + OpOffset(b.code, i + 1)
    else exists u :: u in Successors(b) && Leads(blocks, scope, u, y)
  }

  ghost predicate RunsIn(blocks: BlockMap, scope: set<U64>, a: U64, b: Block, x: nat, y: nat) {
    exists i :: 0 <= i < b.code.ninstr && x == a + OpOffset(b.code, i) && Continues(blocks, scope, a, b, i, y)
  }

  /** After the instruction at `x` comes `y`. */
  ghost predicate Flows(blocks: BlockMap, scope: set<U64>, x: nat, y: nat) {
    exists a :: a in scope && a in blocks && RunsIn(blocks, scope, a, blocks[a], x, y)
  }

  /** Same instruction addresses and same order of execution: only block boundaries differ. */
  ghost predicate SameFlow(blocks: BlockMap, scope: set<U64>, blocks': BlockMap, scope': set<U64>) {
    && (forall x :: Instr(blocks, scope, x) <==> Instr(blocks', scope', x))
    && (forall x, y :: Flows(blocks, scope, x, y) <==> Flows(blocks', scope', x, y))
  }

  lemma SameFlowTrans(b0: BlockMap, s0: set<U64>, b1: BlockMap, s1: set<U64>, b2: BlockMap, s2: set<U64>)
    requires SameFlow(b0, s0, b1, s1) && SameFlow(b1, s1, b2, s2)
    ensures SameFlow(b0, s0, b2, s2)
  {
  }

  lemma SameStepsTrans(b0: BlockMap, s0: set<U64>, b1: BlockMap, s1: set<U64>, b2: BlockMap, s2: set<U64>)
    requires SameSteps(b0, s0, b1, s1) && SameSteps(b1, s1, b2, s2)
    ensures SameSteps(b0, s0, b2, s2)
  {
  }

  // ----- fusing two blocks

  /** `b` merged into `a`, its only successor, with no instruction moved: a bare block absorbs only bare ones. */
  ghost predicate Fuses(a: U64, A: Block, b: U64, B: Block, M: Block) {
    && b == a + A.size && a != b && Successors(A) == [b] && Successors(M) == Successors(B)
    && IsMerge(A.code, A.size, B.code, M.code) && (B.code.ninstr > 0 ==> A.code.ninstr > 0)
  }

  lemma FusedInstr(a: U64, A: Block, b: U64, B: Block, M: Block, x: nat)
    requires Fuses(a, A, b, B, M)
    ensures InstrIn(a, M, x) <==> InstrIn(a, A, x) || InstrIn(b, B, x)
  {
    var n := A.code.ninstr;
    if InstrIn(a, A, x) {
      var i :| 0 <= i < n && x == a + OpOffset(A.code, i);
      assert x == a + OpOffset(M.code, i);
    }
    if InstrIn(b, B, x) {
      var i :| 0 <= i < B.code.ninstr && x == b + OpOffset(B.code, i);
      assert x == a + OpOffset(M.code, n + i);
    }
    if InstrIn(a, M, x) {
      var i :| 0 <= i < M.code.ninstr && x == a + OpOffset(M.code, i);
      if i < n {
        assert x == a + OpOffset(A.code, i);
      } else {
        assert x == b + OpOffset(B.code, i - n);
      }
    }
  }

  /** Where instruction `i` of the merged block leads. */
  lemma FusedFollows(a: U64, A: Block, b: U64, B: Block, M: Block, i: nat, y: nat)
    requires Fuses(a, A, b, B, M) && i < M.code.ninstr && B.code.ninstr > 0
    ensures i < A.code.ninstr ==> (Follows(a, M, i, y) <==> Follows(a, A, i, y))
    ensures i >= A.code.ninstr ==> (Follows(a, M, i, y) <==> Follows(b, B, i - A.code.ninstr, y))
  {
  }

  /** With an instruction in both blocks the fused block steps exactly as the two did. */
  lemma FusedStep(a: U64, A: Block, b: U64, B: Block, M: Block, x: nat, y: nat)
    requires Fuses(a, A, b, B, M) && B.code.ninstr > 0
    ensures StepIn(a, M, x, y) <==> StepIn(a, A, x, y) || StepIn(b, B, x, y)
  {
    var n := A.code.ninstr;
    if StepIn(a, A, x, y) {
      var i :| 0 <= i < n && x == a + OpOffset(A.code, i) && Follows(a, A, i, y);
      FusedFollows(a, A, b, B, M, i, y);
      assert x == a + OpOffset(M.code, i) && Follows(a, M, i, y);
    }
    if StepIn(b, B, x, y) {
      var i :| 0 <= i < B.code.ninstr && x == b + OpOffset(B.code, i) && Follows(b, B, i, y);
      FusedFollows(a, A, b, B, M, n + i, y);
      assert x == a + OpOffset(M.code, n + i) && Follows(a, M, n + i, y);
    }
    if StepIn(a, M, x, y) {
      var i :| 0 <= i < M.code.ninstr && x == a + OpOffset(M.code, i) && Follows(a, M, i, y);
      FusedFollows(a, A, b, B, M, i, y);
      if i < n {
        assert x == a + OpOffset(A.code, i) && Follows(a, A, i, y);
      } else {
        assert x == b + OpOffset(B.code, i - n) && Follows(b, B, i - n, y);
      }
    }
  }

  lemma FusedInstrs(blocks: BlockMap, scope: set<U64>, a: U64, b: U64, M: Block)
    requires a in scope && b in scope && a in blocks && b in blocks && Fuses(a, blocks[a], b, blocks[b], M)
    ensures forall x :: Instr(blocks, scope, x) <==> Instr((blocks - {b})[a := M], scope - {b}, x)
  {
    var blocks', scope' := (blocks - {b})[a := M], scope - {b};
    forall x ensures Instr(blocks, scope, x) <==> Instr(blocks', scope', x) {
      FusedInstr(a, blocks[a], b, blocks[b], M, x);
      if Instr(blocks, scope, x) {
        var c :| c in scope && c in blocks && InstrIn(c, blocks[c], x);
        var d := if c == b then a else c;
        assert d in scope' && d in blocks' && InstrIn(d, blocks'[d], x);
      }
      if Instr(blocks', scope', x) {
        var c :| c in scope' && c in blocks' && InstrIn(c, blocks'[c], x);
        var d := if c == a && !InstrIn(a, blocks[a], x) then b else c;
        assert d in scope && d in blocks && InstrIn(d, blocks[d], x);
      }
    }
  }

  /** Fusing two blocks that both have instructions keeps every edge. */
  lemma FusedSteps(blocks: BlockMap, scope: set<U64>, a: U64, b: U64, M: Block)
    requires a in scope && b in scope && a in blocks && b in blocks
    requires Fuses(a, blocks[a], b, blocks[b], M) && blocks[b].code.ninstr > 0
    ensures SameSteps(blocks, scope, (blocks - {b})[a := M], scope - {b})
  {
    var blocks', scope' := (blocks - {b})[a := M], scope - {b};
    FusedInstrs(blocks, scope, a, b, M);
    forall x, y ensures Step(blocks, scope, x, y) <==> Step(blocks', scope', x, y) {
      FusedStep(a, blocks[a], b, blocks[b], M, x, y);
      if Step(blocks, scope, x, y) {
        var c :| c in scope && c in blocks && StepIn(c, blocks[c], x, y);
        var d := if c == b then a else c;
        assert d in scope' && d in blocks' && StepIn(d, blocks'[d], x, y);
      }
      if Step(blocks', scope', x, y) {
        var c :| c in scope' && c in blocks' && StepIn(c, blocks'[c], x, y);
        var d := if c == a && !StepIn(a, blocks[a], x, y) then b else c;
        assert d in scope && d in blocks && StepIn(d, blocks[d], x, y);
      }
    }
  }

  /** The edges themselves are kept exactly when the absorbed block has instructions: otherwise the last instruction of
      `a` no longer leads to `b`. */
  lemma StepsKeptIff(blocks: BlockMap, scope: set<U64>, a: U64, b: U64, M: Block)
    requires a in scope && b in scope && a in blocks && b in blocks && Fuses(a, blocks[a], b, blocks[b], M)
    requires OnlyFrom(blocks, scope, a, b) && blocks[a].code.ninstr > 0 && Increasing(blocks[a].code)
    requires var last := a + OpOffset(blocks[a].code, blocks[a].code.ninstr - 1);
             forall c :: c in scope && c in blocks && c != a ==> !InstrIn(c, blocks[c], last)
    ensures SameSteps(blocks, scope, (blocks - {b})[a := M], scope - {b}) <==> blocks[b].code.ninstr > 0
  {
    var A, B, n := blocks[a], blocks[b], blocks[a].code.ninstr;
    var x := a + OpOffset(A.code, n - 1);
    if B.code.ninstr > 0 {
      FusedSteps(blocks, scope, a, b, M);
    } else {
      assert Follows(a, A, n - 1, b);
      assert StepIn(a, A, x, b);
      assert Step(blocks, scope, x, b);
      var blocks', scope' := (blocks - {b})[a := M], scope - {b};
      forall c | c in scope' && c in blocks' ensures !StepIn(c, blocks'[c], x, b) {
        if c == a {
          LastStep(a, A, b, B, M);
        } else {
          assert !InstrIn(c, blocks[c], x);
        }
      }
    }
  }

  lemma LastStep(a: U64, A: Block, b: U64, B: Block, M: Block)
    requires Fuses(a, A, b, B, M) && A.code.ninstr > 0 && Increasing(A.code) && B.code.ninstr == 0 && b !in Successors(B)
    ensures !StepIn(a, M, a + OpOffset(A.code, A.code.ninstr - 1), b)
  {
    var n := A.code.ninstr;
    forall i | 0 <= i < n && OpOffset(M.code, i) == OpOffset(A.code, n - 1) ensures i == n - 1 {
      assert OpOffset(M.code, i) == OpOffset(A.code, i);
    }
  }

  /** A bare block that absorbs one with instructions moves the first of them to its own start. */
  lemma BareAbsorberMovesCode(a: U64, A: Block, b: U64, B: Block, M: Block)
    requires b == a + A.size && a != b && IsMerge(A.code, A.size, B.code, M.code)
    requires A.code.ninstr == 0 && B.code.ninstr > 0 && Increasing(B.code)
    ensures InstrIn(a, M, a) && !InstrIn(a, A, a) && InstrIn(b, B, b) && !InstrIn(a, M, b)
  {
    assert OpOffset(M.code, 0) == 0 && OpOffset(B.code, 0) == 0;
    forall i | 0 < i < M.code.ninstr ensures OpOffset(M.code, i) != A.size {
      assert OpOffset(B.code, 0) < OpOffset(B.code, i);
    }
  }

  // ----- fusing keeps the flow, with or without instructions in the absorbed block

  /** Only `a` leads to `b`. */
  ghost predicate OnlyFrom(blocks: BlockMap, scope: set<U64>, a: U64, b: U64) {
    forall c :: c in scope && c in blocks && c != a ==> b !in Successors(blocks[c])
  }

  /** What the flow of the fused store relies on. */
  ghost predicate FusedIn(blocks: BlockMap, scope: set<U64>, a: U64, b: U64, blocks': BlockMap, scope': set<U64>) {
    && a in scope && b in scope && a in blocks && b in blocks && a in blocks'
    && Fuses(a, blocks[a], b, blocks[b], blocks'[a]) && scope' == scope - {b}
    && (forall c :: c != a && c != b ==> (c in blocks' <==> c in blocks) && (c in blocks ==> blocks'[c] == blocks[c]))
    && (blocks[b].code.ninstr > 0 || OnlyFrom(blocks, scope, a, b))
  }

  lemma LeadsNext(blocks: BlockMap, scope: set<U64>, t: U64, y: nat, n: nat) returns (w: U64)
    requires Bare(blocks, scope, t) && LeadsWithin(blocks, scope, t, y, n)
    ensures n > 0 && w in Successors(blocks[t]) && LeadsWithin(blocks, scope, w, y, n - 1)
  {
    w :| w in Successors(blocks[t]) && LeadsWithin(blocks, scope, w, y, n - 1);
  }

  lemma BareKept(blocks: BlockMap, scope: set<U64>, a: U64, b: U64, blocks': BlockMap, scope': set<U64>, t: U64)
    requires FusedIn(blocks, scope, a, b, blocks', scope') && t != b
    ensures Bare(blocks', scope', t) <==> Bare(blocks, scope, t)
  {
  }

  /** Behind a bare block comes no bare `b`, unless it is `a`, which leads to `b` only. */
  lemma BehindBare(blocks: BlockMap, scope: set<U64>, a: U64, b: U64, blocks': BlockMap, scope': set<U64>, t: U64, w: U64)
    requires FusedIn(blocks, scope, a, b, blocks', scope') && Bare(blocks, scope, t) && w in Successors(blocks[t])
    ensures t == a ==> w == b && Bare(blocks, scope, b)
    ensures t != a ==> w != b || !Bare(blocks, scope, b)
  {
  }

  lemma FusedNext(blocks: BlockMap, scope: set<U64>, a: U64, b: U64, blocks': BlockMap, scope': set<U64>, t: U64)
    requires FusedIn(blocks, scope, a, b, blocks', scope') && Bare(blocks, scope, t) && t != b
    ensures Bare(blocks', scope', t) && Successors(blocks'[t]) == Successors(blocks[if t == a then b else t])
  {
  }

  lemma {:induction false} LeadsForth(blocks: BlockMap, scope: set<U64>, a: U64, b: U64, blocks': BlockMap,
                                      scope': set<U64>, t: U64, y: nat, n: nat)
    requires FusedIn(blocks, scope, a, b, blocks', scope') && LeadsWithin(blocks, scope, t, y, n)
    requires t != b || !Bare(blocks, scope, b)
    ensures Leads(blocks', scope', t, y)
    decreases n
  {
    if t == b || !Bare(blocks, scope, t) {
      if t != b {
        BareKept(blocks, scope, a, b, blocks', scope', t);
      }
      assert LeadsWithin(blocks', scope', t, y, 0);
    } else {
      var from, m := t, n - 1;
      var w := LeadsNext(blocks, scope, t, y, n);
      BehindBare(blocks, scope, a, b, blocks', scope', t, w);
      if t == a {
        from, m := b, n - 2;
        w := LeadsNext(blocks, scope, b, y, n - 1);
        BehindBare(blocks, scope, a, b, blocks', scope', b, w);
      }
      FusedNext(blocks, scope, a, b, blocks', scope', t);
      LeadsForth(blocks, scope, a, b, blocks', scope', w, y, m);
      LeadsOn(blocks', scope', t, w, y);
    }
  }

  lemma {:induction false} LeadsBack(blocks: BlockMap, scope: set<U64>, a: U64, b: U64, blocks': BlockMap,
                                     scope': set<U64>, t: U64, y: nat, n: nat)
    requires FusedIn(blocks, scope, a, b, blocks', scope') && LeadsWithin(blocks', scope', t, y, n)
    requires t != b || !Bare(blocks, scope, b)
    ensures Leads(blocks, scope, t, y)
    decreases n
  {
    if t == b {
      assert LeadsWithin(blocks, scope, t, y, 0);
    } else {
      BareKept(blocks, scope, a, b, blocks', scope', t);
      if !Bare(blocks, scope, t) {
        assert LeadsWithin(blocks, scope, t, y, 0);
      } else {
        var w := LeadsNext(blocks', scope', t, y, n);
        assert w in Successors(blocks[if t == a then b else t]);
        LeadsBack(blocks, scope, a, b, blocks', scope', w, y, n - 1);
        if t == a {
          LeadsOn(blocks, scope, b, w, y);
          LeadsOn(blocks, scope, a, b, y);
        } else {
          LeadsOn(blocks, scope, t, w, y);
        }
      }
    }
  }

  lemma LeadsSame(blocks: BlockMap, scope: set<U64>, a: U64, b: U64, blocks': BlockMap, scope': set<U64>, t: U64, y: nat)
    requires FusedIn(blocks, scope, a, b, blocks', scope') && (t != b || !Bare(blocks, scope, b))
    ensures Leads(blocks', scope', t, y) <==> Leads(blocks, scope, t, y)
  {
    if Leads(blocks, scope, t, y) {
      var n: nat :| LeadsWithin(blocks, scope, t, y, n);
      LeadsForth(blocks, scope, a, b, blocks', scope', t, y, n);
    }
    if Leads(blocks', scope', t, y) {
      var n: nat :| LeadsWithin(blocks', scope', t, y, n);
      LeadsBack(blocks, scope, a, b, blocks', scope', t, y, n);
    }
  }

  /** Some successor of the block leads to `y`. */
  ghost predicate Exits(blocks: BlockMap, scope: set<U64>, b: Block, y: nat) {
    exists u :: u in Successors(b) && Leads(blocks, scope, u, y)
  }

  /** Blocks other than `a`, and the absorbed one, are left to the same places as before. */
  lemma ExitsSame(blocks: BlockMap, scope: set<U64>, a: U64, b: U64, blocks': BlockMap, scope': set<U64>, c: U64, y: nat)
    requires FusedIn(blocks, scope, a, b, blocks', scope') && c in scope && c in blocks && c != a
    ensures Exits(blocks', scope', blocks[c], y) <==> Exits(blocks, scope, blocks[c], y)
  {
    forall u | u in Successors(blocks[c]) ensures Leads(blocks', scope', u, y) <==> Leads(blocks, scope, u, y) {
      LeadsSame(blocks, scope, a, b, blocks', scope', u, y);
    }
  }

  /** Leaving `a` is entering `b`. */
  lemma ExitsIntoB(blocks: BlockMap, scope: set<U64>, a: U64, b: U64, blocks': BlockMap, scope': set<U64>, y: nat)
    requires FusedIn(blocks, scope, a, b, blocks', scope')
    ensures Exits(blocks, scope, blocks[a], y) <==>
            if blocks[b].code.ninstr > 0 then y == b else Exits(blocks, scope, blocks[b], y)
  {
    assert b in Successors(blocks[a]) && forall u :: u in Successors(blocks[a]) ==> u == b;
    if blocks[b].code.ninstr > 0 {
      assert LeadsWithin(blocks, scope, b, b, 0);
      if Leads(blocks, scope, b, y) {
        var n: nat :| LeadsWithin(blocks, scope, b, y, n);
      }
    } else {
      if Leads(blocks, scope, b, y) {
        var n: nat :| LeadsWithin(blocks, scope, b, y, n);
        var w :| w in Successors(blocks[b]) && LeadsWithin(blocks, scope, w, y, n - 1);
        assert Leads(blocks, scope, w, y);
      }
      if Exits(blocks, scope, blocks[b], y) {
        var w :| w in Successors(blocks[b]) && Leads(blocks, scope, w, y);
        LeadsOn(blocks, scope, b, w, y);
      }
    }
  }

  /** Where instruction `i` of the fused block continues. */
  lemma FusedContinues(blocks: BlockMap, scope: set<U64>, a: U64, b: U64, blocks': BlockMap, scope': set<U64>, i: nat, y: nat)
    requires FusedIn(blocks, scope, a, b, blocks', scope') && i < blocks'[a].code.ninstr
    ensures var A, B, M, n := blocks[a], blocks[b], blocks'[a], blocks[a].code.ninstr;
            if i < n then Continues(blocks', scope', a, M, i, y) <==> Continues(blocks, scope, a, A, i, y)
            else Continues(blocks', scope', a, M, i, y) <==> Continues(blocks, scope, b, B, i - n, y)
  {
    ExitsSame(blocks, scope, a, b, blocks', scope', b, y);
    ExitsIntoB(blocks, scope, a, b, blocks', scope', y);
    LastOf(blocks, scope, a, blocks[a], y);
    LastOf(blocks, scope, b, blocks[b], y);
    LastOf(blocks', scope', a, blocks'[a], y);
    assert Exits(blocks', scope', blocks'[a], y) <==> Exits(blocks', scope', blocks[b], y);
  }

  lemma LastOf(blocks: BlockMap, scope: set<U64>, a: U64, b: Block, y: nat)
    ensures b.code.ninstr > 0 ==> (Continues(blocks, scope, a, b, b.code.ninstr - 1, y) <==> Exits(blocks, scope, b, y))
  {
  }

  lemma FusedRuns(blocks: BlockMap, scope: set<U64>, a: U64, b: U64, blocks': BlockMap, scope': set<U64>, x: nat, y: nat)
    requires FusedIn(blocks, scope, a, b, blocks', scope')
    ensures RunsIn(blocks', scope', a, blocks'[a], x, y) <==>
            RunsIn(blocks, scope, a, blocks[a], x, y) || RunsIn(blocks, scope, b, blocks[b], x, y)
  {
    var A, B, M := blocks[a], blocks[b], blocks'[a];
    var n := A.code.ninstr;
    if RunsIn(blocks, scope, a, A, x, y) {
      var i :| 0 <= i < n && x == a + OpOffset(A.code, i) && Continues(blocks, scope, a, A, i, y);
      FusedContinues(blocks, scope, a, b, blocks', scope', i, y);
      assert x == a + OpOffset(M.code, i);
    }
    if RunsIn(blocks, scope, b, B, x, y) {
      var i :| 0 <= i < B.code.ninstr && x == b + OpOffset(B.code, i) && Continues(blocks, scope, b, B, i, y);
      FusedContinues(blocks, scope, a, b, blocks', scope', n + i, y);
      assert x == a + OpOffset(M.code, n + i);
    }
    if RunsIn(blocks', scope', a, M, x, y) {
      var i :| 0 <= i < M.code.ninstr && x == a + OpOffset(M.code, i) && Continues(blocks', scope', a, M, i, y);
      FusedContinues(blocks, scope, a, b, blocks', scope', i, y);
      if i < n {
        assert x == a + OpOffset(A.code, i);
      } else {
        assert x == b + OpOffset(B.code, i - n);
      }
    }
  }

  lemma OtherRuns(blocks: BlockMap, scope: set<U64>, a: U64, b: U64, blocks': BlockMap, scope': set<U64>, c: U64, x: nat, y: nat)
    requires FusedIn(blocks, scope, a, b, blocks', scope') && c in scope && c in blocks && c != a
    ensures RunsIn(blocks', scope', c, blocks[c], x, y) <==> RunsIn(blocks, scope, c, blocks[c], x, y)
  {
    forall i | 0 <= i < blocks[c].code.ninstr
      ensures Continues(blocks', scope', c, blocks[c], i, y) <==> Continues(blocks, scope, c, blocks[c], i, y)
    {
      ExitsSame(blocks, scope, a, b, blocks', scope', c, y);
      if i + 1 == blocks[c].code.ninstr {
        LastOf(blocks, scope, c, blocks[c], y);
        LastOf(blocks', scope', c, blocks[c], y);
      }
    }
  }

  lemma FlowsKept(blocks: BlockMap, scope: set<U64>, a: U64, b: U64, blocks': BlockMap, scope': set<U64>, x: nat, y: nat)
    requires FusedIn(blocks, scope, a, b, blocks', scope')
    ensures Flows(blocks', scope', x, y) <==> Flows(blocks, scope, x, y)
  {
    FusedRuns(blocks, scope, a, b, blocks', scope', x, y);
    if Flows(blocks, scope, x, y) {
      var c :| c in scope && c in blocks && RunsIn(blocks, scope, c, blocks[c], x, y);
      if c != a && c != b {
        OtherRuns(blocks, scope, a, b, blocks', scope', c, x, y);
        assert c in scope' && c in blocks';
      } else {
        assert a in scope' && a in blocks';
      }
    }
    if Flows(blocks', scope', x, y) {
      var c :| c in scope' && c in blocks' && RunsIn(blocks', scope', c, blocks'[c], x, y);
      if c != a {
        OtherRuns(blocks, scope, a, b, blocks', scope', c, x, y);
      }
    }
  }

  /** Fusing two blocks keeps the flow if the second has instructions, or only the first leads to it. */
  lemma FusedFlow(blocks: BlockMap, scope: set<U64>, a: U64, b: U64, M: Block)
    requires a in scope && b in scope && a in blocks && b in blocks && Fuses(a, blocks[a], b, blocks[b], M)
    requires blocks[b].code.ninstr > 0 || OnlyFrom(blocks, scope, a, b)
    ensures SameFlow(blocks, scope, (blocks - {b})[a := M], scope - {b})
  {
    var blocks', scope' := (blocks - {b})[a := M], scope - {b};
    FusedInstrs(blocks, scope, a, b, M);
    forall x, y ensures Flows(blocks, scope, x, y) <==> Flows(blocks', scope', x, y) {
      FlowsKept(blocks, scope, a, b, blocks', scope', x, y);
    }
  }

  // ----- splitting keeps the flow

  /** Splitting a block on an instruction boundary keeps every edge and the flow. Behind the start of its last
      instruction it keeps the flow as well, if nothing else leads to the second half. */
  lemma SplitFlow(db: Db, scope: set<U64>, a: U64, at: U64, head: Code, tail: Code)
    requires CanSplit(db, a, at) && a in scope && scope <= db.blocks.Keys && at != UT64_MAX
    requires var b := db.blocks[a]; WellFormed(b.code, b.size) && IsSplit(b.code, b.size, at - a, head, tail)
    ensures OnBoundary(db.blocks[a].code, at - a) ==>
              && SameSteps(db.blocks, scope, SplitDb(db, a, at, head, tail).blocks, scope + {at})
              && SameFlow(db.blocks, scope, SplitDb(db, a, at, head, tail).blocks, scope + {at})
    ensures head.ninstr == db.blocks[a].code.ninstr && (forall c :: c in scope ==> at !in Successors(db.blocks[c])) ==>
              SameFlow(db.blocks, scope, SplitDb(db, a, at, head, tail).blocks, scope + {at})
  {
    var b, r: BlockMap := db.blocks[a], SplitDb(db, a, at, head, tail).blocks;
    assert (r - {at})[a := b] == db.blocks && scope + {at} - {at} == scope;
    assert Successors(r[at]) == Successors(b);
    if OnBoundary(b.code, at - a) {
      SplitFuses(a, r[a], at, r[at], b);
      FusedSteps(r, scope + {at}, a, at, b);
      FusedFlow(r, scope + {at}, a, at, b);
    }
    if head.ninstr == b.code.ninstr && forall c :: c in scope ==> at !in Successors(db.blocks[c]) {
      SplitFuses(a, r[a], at, r[at], b);
      assert OnlyFrom(r, scope + {at}, a, at);
      FusedFlow(r, scope + {at}, a, at, b);
    }
  }

  lemma SplitFuses(a: U64, H: Block, at: U64, T: Block, b: Block)
    requires WellFormed(b.code, b.size) && a < at < a + b.size && at != UT64_MAX
    requires IsSplit(b.code, b.size, at - a, H.code, T.code) && H.size == at - a
    requires OnBoundary(b.code, at - a) || H.code.ninstr == b.code.ninstr
    requires H.jump == at && H.fail == UT64_MAX && H.cases == None && Successors(T) == Successors(b)
    ensures Fuses(a, H, at, T, b) && (OnBoundary(b.code, at - a) ==> T.code.ninstr > 0)
  {
    if OnBoundary(b.code, at - a) {
      SplitIsMergeBack(b.code, b.size, at - a, H.code, T.code);
    }
    JumpOnly(H, at);
  }

  lemma JumpOnly(b: Block, t: U64)
    requires b.jump == t != UT64_MAX && b.fail == UT64_MAX && b.cases == None
    ensures Successors(b) == [t]
  {
    assert [b.jump, b.fail] + [] == [t, UT64_MAX];
    assert [t, UT64_MAX][1..] == [UT64_MAX] && [UT64_MAX][1..] == [];
    assert Targets([UT64_MAX]) == [];
  }

  lemma NoSuccessors(b: Block)
    requires b.jump == UT64_MAX && b.fail == UT64_MAX && b.cases == None
    ensures Successors(b) == []
  {
    assert [b.jump, b.fail] + [] == [UT64_MAX, UT64_MAX];
    assert [UT64_MAX, UT64_MAX][1..] == [UT64_MAX] && [UT64_MAX][1..] == [];
    assert Targets([UT64_MAX]) == [];
  }
}
