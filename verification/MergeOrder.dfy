/** Chains of blocks, and what the merge pass makes of them in any order. */
module MergeOrder {
  import opened Machine
  import opened Blocks
  import opened BlockCode
  import opened Store
  import opened Flow
  import opened MergePass
  import opened MergeFlow

  /** The blocks, the edges between those of the functions concerned, the given blocks and the limit at the start. */
  datatype Start = Start(blocks: BlockMap, g: Adjacency, given: set<U64>, limit: nat)

  ghost function StartOf(db: Db, fs: set<FcnId>, given: seq<U64>, maxSize: nat): Start {
    Start(db.blocks, FlowOf(db.blocks, Scope(db, fs)), Members(given), maxSize)
  }

  /** Block `c` could be merged into `p` at the start. */
  ghost predicate Joins(s: Start, p: U64, c: U64) {
    c in s.given && Feeds(s.blocks, s.g, p, c, s.limit)
  }

  ghost predicate HasNext(s: Start, a: U64) {
    a in s.blocks && a + s.blocks[a].size <= UT64_MAX && Joins(s, a, a + s.blocks[a].size)
  }

  ghost predicate HasPrev(s: Start, c: U64) {
    exists p :: Joins(s, p, c)
  }

  /** The last block of the chain that begins with `a`. */
  ghost function Last(s: Start, a: U64): U64
    decreases UT64_MAX - a
  {
    if HasNext(s, a) then Last(s, a + s.blocks[a].size) else a
  }

  lemma JoinsNext(s: Start, p: U64, c: U64)
    requires Joins(s, p, c)
    ensures p < c && HasNext(s, p) && c == p + s.blocks[p].size && Last(s, p) == Last(s, c)
  {
  }

  lemma {:induction false} LastEnd(s: Start, a: U64)
    requires a in s.blocks
    ensures Last(s, a) in s.blocks && a + s.blocks[a].size <= Last(s, a) + s.blocks[Last(s, a)].size && a <= Last(s, a)
    decreases UT64_MAX - a
  {
    if HasNext(s, a) {
      LastEnd(s, a + s.blocks[a].size);
    }
  }

  /** `c` lies on the chain that begins with `a`. */
  ghost predicate OnChain(s: Start, a: U64, c: U64)
    decreases UT64_MAX - a
  {
    a == c || (HasNext(s, a) && OnChain(s, a + s.blocks[a].size, c))
  }

  lemma {:induction false} ChainTrans(s: Start, a: U64, b: U64, c: U64)
    requires OnChain(s, a, b) && OnChain(s, b, c)
    ensures OnChain(s, a, c)
    decreases UT64_MAX - a
  {
    if a != b {
      ChainTrans(s, a + s.blocks[a].size, b, c);
    }
  }

  /** Along a chain, blocks and their ends move on. */
  lemma {:induction false} ChainMonotone(s: Start, a: U64, c: U64)
    requires a in s.blocks && OnChain(s, a, c)
    ensures c in s.blocks && a <= c && a + s.blocks[a].size <= c + s.blocks[c].size && Last(s, a) == Last(s, c)
    ensures SameFcns(s.blocks[a], s.blocks[c])
    decreases UT64_MAX - a
  {
    if a != c {
      ChainMonotone(s, a + s.blocks[a].size, c);
    }
  }

  // ----- in the middle of the pass

  /** Block `b`, now at `a`, stands for the chain from `a` to `l`. */
  ghost predicate StandsFor(s: Start, a: U64, l: U64, b: Block)
    requires a in s.blocks && l in s.blocks
  {
    var A, L := s.blocks[a], s.blocks[l];
    && OnChain(s, a, l) && a + b.size == l + L.size && (a != l ==> b.size <= s.limit)
    && b.jump == L.jump && b.fail == L.fail && b.cases == L.cases && b.refs == A.refs && b.fcns == A.fcns
  }

  /** `tip` tells how far each block has grown. */
  ghost predicate Grown(s: Start, blocks: BlockMap, tip: map<U64, U64>) {
    AllStand(s, blocks, tip) && TipsApart(tip)
  }

  ghost predicate IsTip(tip: map<U64, U64>, p: U64) {
    exists a :: a in tip && tip[a] == p
  }

  /** A block is gone exactly if the edge into it was used. */
  ghost predicate Used(s: Start, tip: map<U64, U64>) {
    && (forall p, c {:trigger Joins(s, p, c)} :: Joins(s, p, c) ==> (c in tip <==> IsTip(tip, p)))
    && (forall c {:trigger HasPrev(s, c)} :: c in s.blocks && c !in tip ==> HasPrev(s, c))
  }

  /** Edges now leave from the blocks that have grown. */
  ghost predicate SoleNow(s: Start, g: Adjacency, tip: map<U64, U64>) {
    && (forall p :: p in g ==> p in tip && tip[p] in s.g && g[p] == s.g[tip[p]])
    && (forall p :: p in tip && tip[p] in s.g ==> p in g)
    && (forall p, t :: p in g && t in tip ==> (Sole(g, p, t) <==> Sole(s.g, tip[p], t)))
  }

  /** All of it. */
  ghost predicate Tracks(s: Start, db: Db, fs: set<FcnId>, tip: map<U64, U64>) {
    Grown(s, db.blocks, tip) && Used(s, tip) && SoleNow(s, FlowOf(db.blocks, Scope(db, fs)), tip)
  }

  lemma TracksBegins(db: Db, fs: set<FcnId>, given: seq<U64>, maxSize: nat, tip: map<U64, U64>)
    requires tip == map a | a in db.blocks :: a
    ensures Tracks(StartOf(db, fs, given, maxSize), db, fs, tip)
  {
    var s := StartOf(db, fs, given, maxSize);
    forall p, c | Joins(s, p, c) ensures c in tip <==> IsTip(tip, p) {
      assert p in tip && tip[p] == p;
    }
  }

  // ----- one merge

  /** The edge the merge uses was there from the start. */
  lemma UsesJoin(s: Start, db: Db, fs: set<FcnId>, tip: map<U64, U64>, a: U64, b: U64, maxSize: nat)
    requires Tracks(s, db, fs, tip) && MergesAlong(db, fs, a, b, maxSize) && b in s.given && maxSize == s.limit
    ensures a in tip && b in tip && Joins(s, tip[a], b)
  {
    FeedsIff(db, fs, a, b, maxSize);
    JoinOf(s, db.blocks, FlowOf(db.blocks, Scope(db, fs)), tip, a, b);
  }

  lemma JoinOf(s: Start, blocks: BlockMap, g: Adjacency, tip: map<U64, U64>, a: U64, b: U64)
    requires AllStand(s, blocks, tip) && TipsApart(tip) && SoleNow(s, g, tip)
    requires Feeds(blocks, g, a, b, s.limit) && b in s.given
    ensures a in tip && b in tip && Joins(s, tip[a], b)
  {
    assert StandsFor(s, a, tip[a], blocks[a]) && StandsFor(s, b, tip[b], blocks[b]);
    ChainMonotone(s, a, tip[a]);
    ChainMonotone(s, b, tip[b]);
    assert tip[a] != b;
    assert Sole(s.g, tip[a], b);
  }

  lemma StandsForMerged(s: Start, a: U64, la: U64, A: Block, b: U64, lb: U64, B: Block, M: Block)
    requires a in s.blocks && la in s.blocks && b in s.blocks && lb in s.blocks && Joins(s, la, b)
    requires StandsFor(s, a, la, A) && StandsFor(s, b, lb, B) && M == MergedBlock(A, B, M.code)
    requires a + A.size == b && M.size <= s.limit
    ensures StandsFor(s, a, lb, M)
  {
    JoinsNext(s, la, b);
    assert OnChain(s, b, lb) && OnChain(s, la, lb);
    ChainTrans(s, a, la, lb);
  }

  ghost predicate AllStand(s: Start, blocks: BlockMap, tip: map<U64, U64>) {
    && tip.Keys == blocks.Keys
    && (forall a :: a in tip ==> a in s.blocks && tip[a] in s.blocks && StandsFor(s, a, tip[a], blocks[a]))
  }

  /** Blocks that have been absorbed are not tips of themselves, and no block is the tip of two. */
  ghost predicate TipsApart(tip: map<U64, U64>) {
    && (forall a :: a in tip && tip[a] != a ==> tip[a] !in tip)
    && (forall a, a' :: a in tip && a' in tip && tip[a] == tip[a'] ==> a == a')
  }

  lemma AllStandStep(s: Start, blocks: BlockMap, tip: map<U64, U64>, a: U64, b: U64, M: Block)
    requires AllStand(s, blocks, tip) && a in tip && b in tip && a != b && StandsFor(s, a, tip[b], M)
    ensures AllStand(s, (blocks - {b})[a := M], (tip - {b})[a := tip[b]])
  {
    var blocks', tip' := (blocks - {b})[a := M], (tip - {b})[a := tip[b]];
    forall c | c in tip' ensures c in s.blocks && tip'[c] in s.blocks && StandsFor(s, c, tip'[c], blocks'[c]) {
      if c != a {
        assert StandsFor(s, c, tip[c], blocks[c]);
      }
    }
  }

  lemma TipsApartStep(tip: map<U64, U64>, a: U64, b: U64)
    requires TipsApart(tip) && a in tip && b in tip && a != b
    ensures TipsApart((tip - {b})[a := tip[b]])
  {
  }

  lemma GrownStep(s: Start, blocks: BlockMap, tip: map<U64, U64>, a: U64, b: U64, M: Block)
    requires Grown(s, blocks, tip) && a in tip && b in tip && a != b && Joins(s, tip[a], b)
    requires M == MergedBlock(blocks[a], blocks[b], M.code) && a + blocks[a].size == b && M.size <= s.limit
    ensures Grown(s, (blocks - {b})[a := M], (tip - {b})[a := tip[b]])
  {
    assert StandsFor(s, a, tip[a], blocks[a]) && StandsFor(s, b, tip[b], blocks[b]);
    StandsForMerged(s, a, tip[a], blocks[a], b, tip[b], blocks[b], M);
    AllStandStep(s, blocks, tip, a, b, M);
    TipsApartStep(tip, a, b);
  }

  lemma UsedStep(s: Start, tip: map<U64, U64>, a: U64, b: U64)
    requires Used(s, tip) && a in tip && b in tip && a != b && Joins(s, tip[a], b)
    requires forall c, c' :: c in tip && c' in tip && tip[c] == tip[c'] ==> c == c'
    ensures Used(s, (tip - {b})[a := tip[b]])
  {
    var tip' := (tip - {b})[a := tip[b]];
    JoinsNext(s, tip[a], b);
    forall p, c | Joins(s, p, c) ensures c in tip' <==> IsTip(tip', p) {
      JoinsNext(s, p, c);
      if c == b {
        assert p == tip[a] by { assert Sole(s.g, p, b) && Sole(s.g, tip[a], b); }
        NoLongerTip(tip, a, b);
      } else {
        TipMoves(tip, a, b, p, tip[a] == p);
      }
    }
  }

  lemma NoLongerTip(tip: map<U64, U64>, a: U64, b: U64)
    requires a in tip && b in tip && a != b
    requires forall c, c' :: c in tip && c' in tip && tip[c] == tip[c'] ==> c == c'
    ensures !IsTip((tip - {b})[a := tip[b]], tip[a])
  {
  }

  lemma TipMoves(tip: map<U64, U64>, a: U64, b: U64, p: U64, mine: bool)
    requires a in tip && b in tip && a != b && mine == (tip[a] == p)
    ensures !mine ==> (IsTip((tip - {b})[a := tip[b]], p) <==> IsTip(tip, p))
  {
    var tip' := (tip - {b})[a := tip[b]];
    if !mine {
      if IsTip(tip, p) {
        var d :| d in tip && tip[d] == p;
        assert tip'[if d == b then a else d] == p;
      }
      if IsTip(tip', p) {
        var d :| d in tip' && tip'[d] == p;
        assert tip[if d == a then b else d] == p;
      }
    }
  }

  lemma SoleNowStep(s: Start, g: Adjacency, tip: map<U64, U64>, a: U64, b: U64)
    requires SoleNow(s, g, tip) && a in g && b in g && a != b && g[a] == [b] && Sole(g, a, b)
    ensures SoleNow(s, Fused(g, a, b), (tip - {b})[a := tip[b]])
  {
    var g', tip' := Fused(g, a, b), (tip - {b})[a := tip[b]];
    forall p, t | p in g' && t in tip' ensures Sole(g', p, t) <==> Sole(s.g, tip'[p], t) {
      SoleAfterFuse(g, a, b, p, t);
    }
  }

  lemma TracksStep(s: Start, db: Db, fs: set<FcnId>, tip: map<U64, U64>, a: U64, b: U64, maxSize: nat)
    requires Tracks(s, db, fs, tip) && MergesAlong(db, fs, a, b, maxSize) && b in s.given && maxSize == s.limit
    ensures b in tip && Tracks(s, AfterMerge(db, a, b), fs, (tip - {b})[a := tip[b]])
  {
    var r := AfterMerge(db, a, b);
    UsesJoin(s, db, fs, tip, a, b, maxSize);
    MergedScope(db, fs, a, b, maxSize);
    GrownStep(s, db.blocks, tip, a, b, r.blocks[a]);
    UsedStep(s, tip, a, b);
    SoleNowStep(s, FlowOf(db.blocks, Scope(db, fs)), tip, a, b);
  }

  // ----- instructions

  /** The addresses of a block's instructions, in order. */
  ghost function Addresses(a: U64, c: Code): seq<nat> {
    seq(c.ninstr, i requires 0 <= i < c.ninstr => a + OpOffset(c, i))
  }

  /** The instructions of the whole chain from `a` on. */
  ghost function ChainInstrs(s: Start, a: U64): seq<nat>
    requires a in s.blocks
    decreases UT64_MAX - a, 1
  {
    Addresses(a, s.blocks[a].code) + Beyond(s, a)
  }

  ghost function Beyond(s: Start, a: U64): seq<nat>
    requires a in s.blocks
    decreases UT64_MAX - a, 0
  {
    if HasNext(s, a) then ChainInstrs(s, a + s.blocks[a].size) else []
  }

  /** Each block has the instructions of its part of the chain, and the stack data of its first block. */
  ghost predicate Coded(s: Start, blocks: BlockMap, tip: map<U64, U64>) {
    forall a :: a in tip && a in blocks && a in s.blocks && tip[a] in s.blocks ==> CodedAt(s, a, tip[a], blocks[a].code)
  }

  ghost predicate CodedAt(s: Start, a: U64, l: U64, c: Code)
    requires a in s.blocks && l in s.blocks
  {
    && ChainInstrs(s, a) == Addresses(a, c) + Beyond(s, l)
    && c.spEntry == s.blocks[a].code.spEntry && c.spDelta == s.blocks[a].code.spDelta
  }

  lemma MergedAddresses(a: U64, A: Block, b: U64, B: Block, m: Code)
    requires a + A.size == b && IsMerge(A.code, A.size, B.code, m) && (B.code.ninstr > 0 ==> A.code.ninstr > 0)
    ensures Addresses(a, m) == Addresses(a, A.code) + Addresses(b, B.code)
  {
    var n := A.code.ninstr;
    forall i | 0 <= i < m.ninstr ensures Addresses(a, m)[i] == (Addresses(a, A.code) + Addresses(b, B.code))[i] {
      if i >= n {
        assert OpOffset(m, i) == A.size + OpOffset(B.code, i - n);
      }
    }
  }

  lemma CodedStep(s: Start, a: U64, la: U64, A: Block, b: U64, lb: U64, B: Block, m: Code)
    requires a in s.blocks && la in s.blocks && b in s.blocks && lb in s.blocks && Joins(s, la, b)
    requires CodedAt(s, a, la, A.code) && CodedAt(s, b, lb, B.code)
    requires a + A.size == b && IsMerge(A.code, A.size, B.code, m) && (B.code.ninstr > 0 ==> A.code.ninstr > 0)
    ensures CodedAt(s, a, lb, m)
  {
    JoinsNext(s, la, b);
    MergedAddresses(a, A, b, B, m);
    BeyondNext(s, la, b);
    ThreeParts(ChainInstrs(s, a), Addresses(a, A.code), Addresses(b, B.code), Beyond(s, lb), Beyond(s, la));
  }

  lemma BeyondNext(s: Start, l: U64, b: U64)
    requires l in s.blocks && b in s.blocks && HasNext(s, l) && b == l + s.blocks[l].size
    ensures Beyond(s, l) == ChainInstrs(s, b)
  {
  }

  lemma ThreeParts(all: seq<nat>, x: seq<nat>, y: seq<nat>, z: seq<nat>, rest: seq<nat>)
    requires all == x + rest && rest == y + z
    ensures all == (x + y) + z
  {
  }

  lemma CodedMerge(s: Start, db: Db, fs: set<FcnId>, given: seq<U64>, tip: map<U64, U64>, a: U64, b: U64, maxSize: nat)
    requires Tracks(s, db, fs, tip) && MergesAlong(db, fs, a, b, maxSize) && b in given && b in s.given && maxSize == s.limit
    requires Legible(db, fs, given, maxSize) && Coded(s, db.blocks, tip)
    ensures b in tip && Coded(s, AfterMerge(db, a, b).blocks, (tip - {b})[a := tip[b]])
  {
    UsesJoin(s, db, fs, tip, a, b, maxSize);
    StepFuses(db, fs, given, a, b, maxSize);
    CodedAll(s, db.blocks, tip, a, b, AfterMerge(db, a, b).blocks[a]);
  }

  lemma CodedAll(s: Start, blocks: BlockMap, tip: map<U64, U64>, a: U64, b: U64, M: Block)
    requires Coded(s, blocks, tip) && Grown(s, blocks, tip) && a in tip && b in tip && a != b && Joins(s, tip[a], b)
    requires a + blocks[a].size == b && IsMerge(blocks[a].code, blocks[a].size, blocks[b].code, M.code)
    requires blocks[b].code.ninstr > 0 ==> blocks[a].code.ninstr > 0
    ensures Coded(s, (blocks - {b})[a := M], (tip - {b})[a := tip[b]])
  {
    assert StandsFor(s, a, tip[a], blocks[a]) && StandsFor(s, b, tip[b], blocks[b]);
    assert CodedAt(s, a, tip[a], blocks[a].code) && CodedAt(s, b, tip[b], blocks[b].code);
    CodedStep(s, a, tip[a], blocks[a], b, tip[b], blocks[b], M.code);
  }

  // ----- the whole pass

  /** What is known after some steps of the pass. */
  ghost predicate Followed(s: Start, db0: Db, db: Db, fs: set<FcnId>, given: seq<U64>, tip: map<U64, U64>) {
    && Tracks(s, db, fs, tip)
    && (Legible(db0, fs, given, s.limit) ==> Legible(db, fs, given, s.limit) && Coded(s, db.blocks, tip))
  }

  lemma FollowStep(s: Start, db0: Db, db: Db, next: Db, fs: set<FcnId>, given: seq<U64>, tip: map<U64, U64>)
    returns (tip': map<U64, U64>)
    requires Followed(s, db0, db, fs, given, tip) && PassStep(db, next, fs, given, s.limit) && s.given == Members(given)
    ensures Followed(s, db0, next, fs, given, tip')
  {
    var a, b :| MergesAlong(db, fs, a, b, s.limit) && b in given && next == AfterMerge(db, a, b);
    TracksStep(s, db, fs, tip, a, b, s.limit);
    if Legible(db0, fs, given, s.limit) {
      StepLegible(db, fs, given, a, b, s.limit);
      CodedMerge(s, db, fs, given, tip, a, b, s.limit);
    }
    tip' := (tip - {b})[a := tip[b]];
  }

  lemma {:induction false} PassTracks(states: seq<Db>, fs: set<FcnId>, given: seq<U64>, maxSize: nat)
    returns (tip: map<U64, U64>)
    requires PassRun(states, fs, given, maxSize)
    ensures Followed(StartOf(states[0], fs, given, maxSize), states[0], states[|states| - 1], fs, given, tip)
    decreases |states|
  {
    var n := |states| - 1;
    var s := StartOf(states[0], fs, given, maxSize);
    if n == 0 {
      tip := map a | a in states[0].blocks :: a;
      TracksBegins(states[0], fs, given, maxSize, tip);
    } else {
      var before := states[..n];
      assert PassRun(before, fs, given, maxSize) by {
        forall i | 0 <= i < n - 1 ensures PassStep(before[i], before[i + 1], fs, given, maxSize) {
          assert PassStep(states[i], states[i + 1], fs, given, maxSize);
        }
      }
      tip := PassTracks(before, fs, given, maxSize);
      assert PassStep(states[n - 1], states[n - 1 + 1], fs, given, maxSize);
      tip := FollowStep(s, states[0], before[n - 1], states[n], fs, given, tip);
    }
  }

  /** Every chain, of which neighbours fit together, fits as a whole. */
  ghost predicate Unlimited(s: Start) {
    forall a :: a in s.blocks && HasNext(s, a) && Last(s, a) in s.blocks ==>
                  Last(s, a) + s.blocks[Last(s, a)].size - a <= s.limit
  }

  /** Every chain has become one block, and nothing else has changed. */
  ghost predicate Collapsed(s: Start, blocks: BlockMap) {
    && (forall c :: c in blocks <==> c in s.blocks && !HasPrev(s, c))
    && (forall a :: a in blocks && a in s.blocks ==> Last(s, a) in s.blocks && StandsFor(s, a, Last(s, a), blocks[a]))
  }

  ghost predicate CollapsedCode(s: Start, blocks: BlockMap) {
    forall a :: a in blocks && a in s.blocks ==>
                  && Addresses(a, blocks[a].code) == ChainInstrs(s, a)
                  && blocks[a].code.spEntry == s.blocks[a].code.spEntry && blocks[a].code.spDelta == s.blocks[a].code.spDelta
  }

  lemma NextInTip(s: Start, tip: map<U64, U64>, a: U64, c: U64)
    requires Used(s, tip) && a in tip && Joins(s, tip[a], c)
    ensures c in tip
  {
    assert IsTip(tip, tip[a]);
  }

  lemma EdgeNow(s: Start, g: Adjacency, tip: map<U64, U64>, a: U64, c: U64)
    requires SoleNow(s, g, tip) && a in tip && c in tip && Joins(s, tip[a], c)
    ensures a in g && Sole(g, a, c) && |g[a]| == 1
  {
  }

  /** A block could still absorb the next one of its chain, if the two fit together. */
  lemma FeedsNow(s: Start, blocks: BlockMap, g: Adjacency, tip: map<U64, U64>, a: U64, c: U64)
    requires AllStand(s, blocks, tip) && SoleNow(s, g, tip) && a in tip && c in tip && Joins(s, tip[a], c)
    requires blocks[a].size + blocks[c].size <= s.limit
    ensures Feeds(blocks, g, a, c, s.limit)
  {
    assert StandsFor(s, a, tip[a], blocks[a]) && StandsFor(s, c, tip[c], blocks[c]);
    ChainMonotone(s, a, tip[a]);
    JoinsNext(s, tip[a], c);
    EdgeNow(s, g, tip, a, c);
  }

  /** What is left of the chain fits, because the whole of it does. */
  lemma RestFits(s: Start, a: U64, l: U64, A: Block, c: U64, lc: U64, C: Block)
    requires a in s.blocks && l in s.blocks && c in s.blocks && lc in s.blocks
    requires StandsFor(s, a, l, A) && StandsFor(s, c, lc, C) && Joins(s, l, c) && Unlimited(s)
    ensures A.size + C.size <= s.limit
  {
    JoinsNext(s, l, c);
    ChainMonotone(s, a, l);
    ChainMonotone(s, c, lc);
    LastEnd(s, lc);
    LastEnd(s, c);
  }

  /** Nothing given is left that could be merged. */
  ghost predicate Complete(db: Db, fs: set<FcnId>, given: set<U64>, maxSize: nat) {
    forall t :: t in given && t in db.blocks ==> !Mergeable(db.blocks, FlowOf(db.blocks, Scope(db, fs)), maxSize, t)
  }

  lemma CompleteNotAlong(db: Db, fs: set<FcnId>, given: set<U64>, maxSize: nat, a: U64, c: U64)
    requires Complete(db, fs, given, maxSize) && c in given
    ensures !MergesAlong(db, fs, a, c, maxSize)
  {
  }

  lemma NextOf(s: Start, l: U64) returns (c: U64)
    requires HasNext(s, l)
    ensures Joins(s, l, c)
  {
    c := l + s.blocks[l].size;
  }

  /** Then every block has grown to the end of its chain. */
  lemma TipIsLast(s: Start, db: Db, fs: set<FcnId>, tip: map<U64, U64>, a: U64, l: U64)
    requires Tracks(s, db, fs, tip) && Linked(db) && a in tip && l == tip[a] && Unlimited(s)
    requires Complete(db, fs, s.given, s.limit)
    ensures !HasNext(s, l)
  {
    if HasNext(s, l) {
      var c := NextOf(s, l);
      NextNotComplete(s, db, fs, tip, a, c);
    }
  }

  lemma NextNotComplete(s: Start, db: Db, fs: set<FcnId>, tip: map<U64, U64>, a: U64, c: U64)
    requires Tracks(s, db, fs, tip) && Linked(db) && a in tip && Joins(s, tip[a], c) && Unlimited(s)
    ensures !Complete(db, fs, s.given, s.limit)
  {
    NextInTip(s, tip, a, c);
    NextAlong(s, db, fs, tip, a, c);
    if Complete(db, fs, s.given, s.limit) {
      CompleteNotAlong(db, fs, s.given, s.limit, a, c);
    }
  }

  lemma NextAlong(s: Start, db: Db, fs: set<FcnId>, tip: map<U64, U64>, a: U64, c: U64)
    requires Tracks(s, db, fs, tip) && Linked(db) && a in tip && c in tip && Joins(s, tip[a], c) && Unlimited(s)
    ensures MergesAlong(db, fs, a, c, s.limit)
  {
    RestFits(s, a, tip[a], db.blocks[a], c, tip[c], db.blocks[c]);
    FeedsNow(s, db.blocks, FlowOf(db.blocks, Scope(db, fs)), tip, a, c);
    FeedsIff(db, fs, a, c, s.limit);
  }

  /** However the pass proceeds, if every chain fits as a whole it collapses every chain into its first block. */
  lemma PassCollapses(states: seq<Db>, fs: set<FcnId>, given: seq<U64>, maxSize: nat)
    requires PassRun(states, fs, given, maxSize) && Unlimited(StartOf(states[0], fs, given, maxSize))
    requires Linked(states[|states| - 1]) && Complete(states[|states| - 1], fs, Members(given), maxSize)
    ensures var s, blocks := StartOf(states[0], fs, given, maxSize), states[|states| - 1].blocks;
            Collapsed(s, blocks) && (Legible(states[0], fs, given, maxSize) ==> CollapsedCode(s, blocks))
  {
    var s := StartOf(states[0], fs, given, maxSize);
    var tip := PassTracks(states, fs, given, maxSize);
    Collapse(s, states[|states| - 1], fs, tip);
    if Legible(states[0], fs, given, maxSize) {
      CollapseCode(s, states[|states| - 1], fs, tip);
    }
  }

  lemma Collapse(s: Start, db: Db, fs: set<FcnId>, tip: map<U64, U64>)
    requires Tracks(s, db, fs, tip) && Linked(db) && Unlimited(s) && Complete(db, fs, s.given, s.limit)
    ensures Collapsed(s, db.blocks)
  {
    AllTipsLast(s, db, fs, tip);
    CollapsedBy(s, db.blocks, tip);
  }

  lemma CollapseCode(s: Start, db: Db, fs: set<FcnId>, tip: map<U64, U64>)
    requires Tracks(s, db, fs, tip) && Linked(db) && Unlimited(s) && Complete(db, fs, s.given, s.limit)
    requires Coded(s, db.blocks, tip)
    ensures CollapsedCode(s, db.blocks)
  {
    AllTipsLast(s, db, fs, tip);
    AllCoded(s, db.blocks, tip);
  }

  lemma AllTipsLast(s: Start, db: Db, fs: set<FcnId>, tip: map<U64, U64>)
    requires Tracks(s, db, fs, tip) && Linked(db) && Unlimited(s) && Complete(db, fs, s.given, s.limit)
    ensures forall a :: a in tip ==> !HasNext(s, tip[a]) && tip[a] == Last(s, a)
  {
    forall a | a in tip ensures !HasNext(s, tip[a]) && tip[a] == Last(s, a) {
      TipIsLast(s, db, fs, tip, a, tip[a]);
      assert StandsFor(s, a, tip[a], db.blocks[a]);
      ChainMonotone(s, a, tip[a]);
    }
  }

  lemma AllCoded(s: Start, blocks: BlockMap, tip: map<U64, U64>)
    requires Coded(s, blocks, tip) && tip.Keys == blocks.Keys
    requires forall a :: a in tip ==> a in s.blocks && tip[a] in s.blocks && !HasNext(s, tip[a])
    ensures CollapsedCode(s, blocks)
  {
    forall a | a in blocks ensures Addresses(a, blocks[a].code) == ChainInstrs(s, a) {
      assert CodedAt(s, a, tip[a], blocks[a].code) && Beyond(s, tip[a]) == [];
    }
  }

  lemma CollapsedBy(s: Start, blocks: BlockMap, tip: map<U64, U64>)
    requires Grown(s, blocks, tip) && Used(s, tip) && forall a :: a in tip ==> !HasNext(s, tip[a]) && tip[a] == Last(s, a)
    ensures Collapsed(s, blocks)
  {
    CollapsedKeys(s, tip);
  }

  lemma CollapsedKeys(s: Start, tip: map<U64, U64>)
    requires Used(s, tip) && forall a :: a in tip ==> a in s.blocks && !HasNext(s, tip[a])
    ensures forall c :: c in tip <==> c in s.blocks && !HasPrev(s, c)
  {
    forall p, c | Joins(s, p, c) ensures c !in tip {
      JoinsNext(s, p, c);
    }
  }

  /** Two blocks that cannot be told apart by what is read from them. */
  ghost predicate SameBlock(b: Block, c: Block) {
    && b.(code := c.code) == c && b.code.ninstr == c.code.ninstr
    && b.code.spEntry == c.code.spEntry && b.code.spDelta == c.code.spDelta
    && forall i :: 0 <= i < b.code.ninstr ==> OpOffset(b.code, i) == OpOffset(c.code, i)
  }

  lemma SameAddresses(a: U64, c: Code, d: Code)
    requires Addresses(a, c) == Addresses(a, d)
    ensures c.ninstr == d.ninstr && forall i :: 0 <= i < c.ninstr ==> OpOffset(c, i) == OpOffset(d, i)
  {
    assert |Addresses(a, c)| == c.ninstr && |Addresses(a, d)| == d.ninstr;
    forall i | 0 <= i < c.ninstr ensures OpOffset(c, i) == OpOffset(d, i) {
      assert Addresses(a, c)[i] == Addresses(a, d)[i];
    }
  }

  lemma SameStanding(s: Start, a: U64, l: U64, b: Block, c: Block)
    requires a in s.blocks && l in s.blocks && StandsFor(s, a, l, b) && StandsFor(s, a, l, c)
    ensures b.(code := c.code) == c
  {
  }

  /** The same blocks up to their instructions. */
  ghost predicate SameBlocks(blocks: BlockMap, blocks': BlockMap) {
    blocks.Keys == blocks'.Keys && forall a :: a in blocks ==> blocks[a].(code := blocks'[a].code) == blocks'[a]
  }

  /** The same instructions in each block. */
  ghost predicate SameInstrs(blocks: BlockMap, blocks': BlockMap) {
    blocks.Keys == blocks'.Keys && forall a :: a in blocks ==> SameBlock(blocks[a], blocks'[a])
  }

  lemma CollapsedSame(s: Start, blocks: BlockMap, blocks': BlockMap)
    requires Collapsed(s, blocks) && Collapsed(s, blocks')
    ensures SameBlocks(blocks, blocks')
    ensures CollapsedCode(s, blocks) && CollapsedCode(s, blocks') ==> SameInstrs(blocks, blocks')
  {
    assert blocks.Keys == blocks'.Keys;
    forall a | a in blocks ensures blocks[a].(code := blocks'[a].code) == blocks'[a] {
      SameStanding(s, a, Last(s, a), blocks[a], blocks'[a]);
    }
    if CollapsedCode(s, blocks) && CollapsedCode(s, blocks') {
      forall a | a in blocks ensures SameBlock(blocks[a], blocks'[a]) {
        SameAddresses(a, blocks[a].code, blocks'[a].code);
      }
    }
  }
}
