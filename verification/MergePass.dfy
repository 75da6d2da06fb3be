/** The steps of the pass that merges blocks into their unique predecessors. */
module MergePass {
  import opened Machine
  import opened Blocks
  import opened BlockCode
  import opened Store
  import opened Analysis

  // ----- edges between blocks

  /** `p -> t` is the only edge into `t`, counting repetitions. */
  ghost predicate Sole(g: Adjacency, p: U64, t: U64) {
    p in g && multiset(g[p])[t] == 1 && forall c :: c in g && c != p ==> t !in g[c]
  }

  ghost predicate Untargeted(g: Adjacency, t: U64) {
    forall c :: c in g ==> t !in g[c]
  }

  function Fused(g: Adjacency, a: U64, b: U64): (r: Adjacency)
    requires b in g
  {
    (g - {b})[a := g[b]]
  }

  /** After fusing `a -> b`, edges out of `b` leave from `a`; all other edges are as before. */
  lemma SoleAfterFuse(g: Adjacency, a: U64, b: U64, p: U64, t: U64)
    requires a in g && b in g && a != b && g[a] == [b] && Sole(g, a, b) && t != b
    ensures Sole(Fused(g, a, b), p, t) <==> p != b && Sole(g, if p == a then b else p, t)
  {
    var r := Fused(g, a, b);
    assert t !in g[a];
    if Sole(r, p, t) {
      var q := if p == a then b else p;
      forall c | c in g && c != q ensures t !in g[c] {
        assert c != a && c != b ==> c in r;
        assert c == b ==> a in r && r[a] == g[b];
      }
    }
  }

  // ----- the predecessor search

  type Preds = map<U64, Option<U64>>

  /** The table is exact: absent without an edge, the predecessor for a sole edge, null for several. */
  ghost predicate Tabulated(g: Adjacency, preds: Preds, t: U64) {
    && (t in preds <==> !Untargeted(g, t))
    && (forall p: U64 :: t in preds && preds[t] == Some(p) <==> Sole(g, p, t))
  }

  ghost predicate AllTabulated(g: Adjacency, preds: Preds, candidates: set<U64>) {
    forall t {:trigger Tabulated(g, preds, t)} :: t in candidates ==> Tabulated(g, preds, t)
  }

  /** What the callback does with one successor address `t` of `cur`. */
  function NotedEdge(preds: Preds, candidates: set<U64>, cur: U64, t: U64): Preds {
    if t !in candidates then preds
    else if t !in preds then preds[t := Some(cur)]
    else if preds[t].Some? then preds[t := None]
    else preds
  }

  lemma NotedEdgeTabulated(g: Adjacency, preds: Preds, candidates: set<U64>, cur: U64, t: U64, u: U64)
    requires cur in g && u in candidates && Tabulated(g, preds, u)
    ensures Tabulated(g[cur := g[cur] + [t]], NotedEdge(preds, candidates, cur, t), u)
  {
    var g', preds' := g[cur := g[cur] + [t]], NotedEdge(preds, candidates, cur, t);
    assert forall c :: c in g ==> (u in g'[c] <==> u in g[c] || (c == cur && u == t));
    assert multiset(g'[cur]) == multiset(g[cur]) + multiset{t};
    if u != t {
      forall p ensures Sole(g', p, u) <==> Sole(g, p, u) {}
      assert Untargeted(g', u) <==> Untargeted(g, u);
    } else {
      assert u in g'[cur];
      forall p ensures Sole(g', p, u) <==> p == cur && Untargeted(g, u) {
        if Untargeted(g, u) {
          assert u !in g[cur];
        }
      }
    }
  }

  lemma NewEntryTabulated(g: Adjacency, preds: Preds, candidates: set<U64>, cur: U64)
    requires cur !in g && AllTabulated(g, preds, candidates)
    ensures AllTabulated(g[cur := []], preds, candidates)
  {
    var g' := g[cur := []];
    assert forall c :: c in g ==> c in g' && g'[c] == g[c];
    forall t | t in candidates ensures Tabulated(g', preds, t) {
      assert Tabulated(g, preds, t);
      forall p: U64 ensures Sole(g', p, t) <==> Sole(g, p, t) {
        assert p == cur ==> g'[p] == [];
      }
      assert Untargeted(g', t) <==> Untargeted(g, t);
    }
  }

  lemma NotedEdgeAll(g: Adjacency, preds: Preds, candidates: set<U64>, cur: U64, t: U64)
    requires cur in g && AllTabulated(g, preds, candidates)
    ensures AllTabulated(g[cur := g[cur] + [t]], NotedEdge(preds, candidates, cur, t), candidates)
  {
    forall u | u in candidates ensures Tabulated(g[cur := g[cur] + [t]], NotedEdge(preds, candidates, cur, t), u) {
      assert Tabulated(g, preds, u);
      NotedEdgeTabulated(g, preds, candidates, cur, t, u);
    }
  }

  /** `automerge_predecessor_successor_cb` over all successors of one block. */
  method NoteSuccessors(cur: U64, succs: seq<U64>, candidates: set<U64>, preds: Preds, ghost g: Adjacency)
    returns (preds': Preds, count: nat)
    requires cur !in g && AllTabulated(g, preds, candidates)
    ensures AllTabulated(g[cur := succs], preds', candidates) && count == |succs|
  {
    preds', count := preds, 0;
    NewEntryTabulated(g, preds, candidates, cur);
    for k := 0 to |succs|
      invariant count == k && AllTabulated(g[cur := succs[..k]], preds', candidates)
    {
      NotedEdgeAll(g[cur := succs[..k]], preds', candidates, cur, succs[k]);
      assert succs[..k] + [succs[k]] == succs[..k + 1];
      assert g[cur := succs[..k]][cur := succs[..k] + [succs[k]]] == g[cur := succs[..k + 1]];
      count := count + 1;
      preds' := NotedEdge(preds', candidates, cur, succs[k]);
    }
    assert succs[..|succs|] == succs;
  }

  /** The blocks of the given functions. */
  ghost function Scope(db: Db, fs: set<FcnId>): set<U64> {
    set a | a in db.blocks && exists f :: f in fs && f in db.fcns && a in db.fcns[f].bbs
  }

  ghost function FlowOf(blocks: BlockMap, scope: set<U64>): Adjacency
    requires scope <= blocks.Keys
  {
    map a | a in scope :: Successors(blocks[a])
  }

  /** The sole edge into `t`: block `p` names it exactly once, and no other block of the scope does. */
  lemma SoleExact(blocks: BlockMap, scope: set<U64>, p: U64, t: U64)
    requires scope <= blocks.Keys
    ensures Sole(FlowOf(blocks, scope), p, t) <==>
            p in scope && t != UT64_MAX && Times(blocks[p], t) == 1 && forall c :: c in scope && c != p ==> Times(blocks[c], t) == 0
  {
    var g := FlowOf(blocks, scope);
    forall c | c in scope
      ensures multiset(g[c])[t] == if t == UT64_MAX then 0 else Times(blocks[c], t)
      ensures t in g[c] <==> multiset(g[c])[t] > 0
    {
      SuccessorsExact(blocks[c], t);
    }
  }

  lemma FlowOfGrows(blocks: BlockMap, scope: set<U64>, a: U64)
    requires scope <= blocks.Keys && a in blocks
    ensures FlowOf(blocks, scope)[a := Successors(blocks[a])] == FlowOf(blocks, scope + {a})
  {
  }

  function Members(s: seq<U64>): set<U64> {
    set a | a in s
  }

  lemma MembersNext(s: seq<U64>, k: nat)
    requires k < |s|
    ensures Members(s[..k + 1]) == Members(s[..k]) + {s[k]}
  {
    assert s[..k + 1] == s[..k] + [s[k]];
  }

  /** Both tables are right for the blocks visited, which are the keys of `counts`. */
  ghost predicate Counted(blocks: BlockMap, candidates: set<U64>, preds: Preds, counts: map<U64, nat>) {
    && counts.Keys <= blocks.Keys && AllTabulated(FlowOf(blocks, counts.Keys), preds, candidates)
    && forall a :: a in counts ==> counts[a] == |Successors(blocks[a])|
  }

  /** Visits one block. */
  method NoteBlock(blocks: BlockMap, a: U64, candidates: set<U64>, preds: Preds, counts: map<U64, nat>)
    returns (preds': Preds, counts': map<U64, nat>)
    requires Counted(blocks, candidates, preds, counts) && a in blocks && a !in counts
    ensures counts'.Keys == counts.Keys + {a} && Counted(blocks, candidates, preds', counts')
  {
    var count;
    preds', count := NoteSuccessors(a, Successors(blocks[a]), candidates, preds, FlowOf(blocks, counts.Keys));
    FlowOfGrows(blocks, counts.Keys, a);
    counts' := counts[a := count];
    assert counts'.Keys == counts.Keys + {a};
  }

  /** Visits the blocks of one function that were not visited before. */
  method NoteFunction(blocks: BlockMap, bbs: seq<U64>, candidates: set<U64>, preds: Preds, counts: map<U64, nat>)
    returns (preds': Preds, counts': map<U64, nat>)
    requires Counted(blocks, candidates, preds, counts) && forall a :: a in bbs ==> a in blocks
    ensures counts'.Keys == counts.Keys + Members(bbs) && Counted(blocks, candidates, preds', counts')
  {
    preds', counts' := preds, counts;
    for k := 0 to |bbs|
      invariant counts'.Keys == counts.Keys + Members(bbs[..k]) && Counted(blocks, candidates, preds', counts')
    {
      MembersNext(bbs, k);
      if bbs[k] !in counts' {
        preds', counts' := NoteBlock(blocks, bbs[k], candidates, preds', counts');
      }
    }
    assert bbs[..|bbs|] == bbs;
  }

  /** The functions that hold some of the given blocks. */
  ghost function Holders(blocks: BlockMap, given: seq<U64>): set<FcnId> {
    set a, f | a in given && a in blocks && f in blocks[a].fcns :: f
  }

  method RelevantFunctions(blocks: BlockMap, given: seq<U64>) returns (fs: set<FcnId>)
    requires forall a :: a in given ==> a in blocks
    ensures fs == Holders(blocks, given)
  {
    fs := {};
    for k := 0 to |given|
      invariant fs == Holders(blocks, given[..k])
    {
      assert given[..k + 1] == given[..k] + [given[k]];
      assert Holders(blocks, given[..k + 1]) == Holders(blocks, given[..k]) + set f | f in blocks[given[k]].fcns;
      fs := fs + set f | f in blocks[given[k]].fcns;
    }
    assert given[..|given|] == given;
  }

  /** Tabulates the predecessors of the candidates among all blocks of the functions, visited in any order. */
  method FindPredecessors(db: Db, fs: set<FcnId>, candidates: set<U64>) returns (preds: Preds, counts: map<U64, nat>)
    requires Linked(db) && fs <= db.fcns.Keys
    ensures counts.Keys == Scope(db, fs)
    ensures AllTabulated(FlowOf(db.blocks, Scope(db, fs)), preds, candidates)
    ensures forall a :: a in counts ==> counts[a] == |Successors(db.blocks[a])|
  {
    preds, counts := map[], map[];
    var todo := fs;
    assert FlowOf(db.blocks, counts.Keys) == map[];
    while todo != {}
      invariant todo <= fs
      invariant counts.Keys == Scope(db, fs - todo)
      invariant AllTabulated(FlowOf(db.blocks, counts.Keys), preds, candidates)
      invariant forall a :: a in counts ==> counts[a] == |Successors(db.blocks[a])|
      decreases todo
    {
      var f :| f in todo;
      assert FcnLinked(db, f);
      preds, counts := NoteFunction(db.blocks, db.fcns[f].bbs, candidates, preds, counts);
      assert fs - (todo - {f}) == (fs - todo) + {f};
      assert Scope(db, (fs - todo) + {f}) == Scope(db, fs - todo) + Members(db.fcns[f].bbs);
      todo := todo - {f};
    }
    assert fs - todo == fs;
  }

  // ----- one merge

  /** The store after `b` was merged into `a`. */
  ghost function AfterMerge(db: Db, a: U64, b: U64): Db
    requires a in db.blocks && b in db.blocks && a != b
  {
    MergedDb(db, a, b, MergedCode(db.blocks[a].code, db.blocks[a].size, db.blocks[b].code))
  }

  /** A successor that had a block in the scope still has one. */
  ghost predicate Anchored(scope0: set<U64>, blocks: BlockMap, scope: set<U64>) {
    forall c, t :: c in scope && c in blocks && t in Successors(blocks[c]) && t in scope0 ==> t in scope
  }

  /** The pass would merge `t` into its predecessor. */
  ghost predicate Mergeable(blocks: BlockMap, g: Adjacency, maxSize: nat, t: U64) {
    exists p :: Sole(g, p, t) && |g[p]| == 1 && CanMerge(blocks, p, t, maxSize)
  }

  /** No given empty block is its own sole predecessor; the source would merge it into itself and go on with a freed
      block. */
  ghost predicate NoSelfMerge(db: Db, fs: set<FcnId>, given: seq<U64>) {
    var g := FlowOf(db.blocks, Scope(db, fs));
    forall a :: a in given && a in g && Sole(g, a, a) && |g[a]| == 1 ==> db.blocks[a].size > 0
  }

  lemma MergedScope(db: Db, fs: set<FcnId>, a: U64, b: U64, maxSize: nat)
    requires Linked(db) && CanMerge(db.blocks, a, b, maxSize) && a != b && a in Scope(db, fs)
    ensures b in Scope(db, fs)
    ensures Scope(AfterMerge(db, a, b), fs) == Scope(db, fs) - {b}
    ensures FlowOf(AfterMerge(db, a, b).blocks, Scope(db, fs) - {b}) == Fused(FlowOf(db.blocks, Scope(db, fs)), a, b)
  {
    var r := AfterMerge(db, a, b);
    MergedLinked(db, a, b, r.blocks[a].code, maxSize);
    var f :| f in fs && f in db.fcns && a in db.fcns[f].bbs;
    assert FcnLinked(db, f) && BlockLinked(db, b);
    forall c | c in db.blocks && c != b ensures c in Scope(r, fs) <==> c in Scope(db, fs) {
      if c in Scope(db, fs) {
        var h :| h in fs && h in db.fcns && c in db.fcns[h].bbs;
        assert c in r.fcns[h].bbs;
      }
      if c in Scope(r, fs) {
        var h :| h in fs && h in r.fcns && c in r.fcns[h].bbs;
        assert c in db.fcns[h].bbs;
      }
    }
  }

  /** The pass may merge `b` into `a` along the sole edge between them. */
  ghost predicate MergesAlong(db: Db, fs: set<FcnId>, a: U64, b: U64, maxSize: nat) {
    && Linked(db) && CanMerge(db.blocks, a, b, maxSize) && a != b
    && a in Scope(db, fs) && Successors(db.blocks[a]) == [b]
    && Sole(FlowOf(db.blocks, Scope(db, fs)), a, b)
  }

  ghost predicate SameFcns(b: Block, c: Block) {
    forall f :: f in b.fcns <==> f in c.fcns
  }

  /** `p` could absorb `t`. */
  ghost predicate Feeds(blocks: BlockMap, g: Adjacency, p: U64, t: U64, maxSize: nat) {
    && p in blocks && t in blocks && p != t && Sole(g, p, t) && |g[p]| == 1 && p + blocks[p].size == t
    && SameFcns(blocks[p], blocks[t]) && blocks[p].size + blocks[t].size <= maxSize
  }

  /** The comparison of the function lists in `merge`, again: for linked blocks it is one of sets. */
  lemma FeedsIff(db: Db, fs: set<FcnId>, a: U64, b: U64, maxSize: nat)
    requires Linked(db)
    ensures MergesAlong(db, fs, a, b, maxSize) <==> Feeds(db.blocks, FlowOf(db.blocks, Scope(db, fs)), a, b, maxSize)
  {
    if a in db.blocks && b in db.blocks {
      assert BlockLinked(db, a) && BlockLinked(db, b);
      if SameFcns(db.blocks[a], db.blocks[b]) {
        SameLength(db.blocks[a].fcns, db.blocks[b].fcns);
      }
      if MergesAlong(db, fs, a, b, maxSize) {
        SameMembers(db.blocks[a].fcns, db.blocks[b].fcns);
      }
    }
  }

  lemma MergeAnchored(db: Db, fs: set<FcnId>, scope0: set<U64>, a: U64, b: U64, maxSize: nat)
    requires MergesAlong(db, fs, a, b, maxSize) && Anchored(scope0, db.blocks, Scope(db, fs))
    ensures Anchored(scope0, AfterMerge(db, a, b).blocks, Scope(db, fs) - {b})
  {
    MergedScope(db, fs, a, b, maxSize);
    var scope, r := Scope(db, fs), AfterMerge(db, a, b);
    var g := FlowOf(db.blocks, scope);
    assert Successors(r.blocks[a]) == g[b];
    forall c, t | c in scope - {b} && c in r.blocks && t in Successors(r.blocks[c]) && t in scope0
      ensures t in scope - {b}
    {
      var was := if c == a then b else c;
      assert was in g && t in g[was];
    }
  }

  lemma MergeNoSelf(db: Db, fs: set<FcnId>, given: seq<U64>, a: U64, b: U64, maxSize: nat)
    requires MergesAlong(db, fs, a, b, maxSize) && NoSelfMerge(db, fs, given)
    ensures NoSelfMerge(AfterMerge(db, a, b), fs, given)
  {
    MergedScope(db, fs, a, b, maxSize);
    var g, r := FlowOf(db.blocks, Scope(db, fs)), AfterMerge(db, a, b);
    forall c | c in given && c in Fused(g, a, b) && Sole(Fused(g, a, b), c, c) && |Fused(g, a, b)[c]| == 1
      ensures r.blocks[c].size > 0
    {
      SoleAfterFuse(g, a, b, c, c);
      if c != a {
        assert r.blocks[c] == db.blocks[c] && c in g;
      }
    }
  }

  /** The table entry is exact as far as lookups see it. */
  ghost predicate Noted(g: Adjacency, preds: Preds, t: U64) {
    forall p: U64 :: t in preds && preds[t] == Some(p) <==> Sole(g, p, t)
  }

  function Redirected(preds: Preds, later: seq<U64>, b: U64, a: U64): Preds {
    map t | t in preds :: if t in later && preds[t] == Some(b) then Some(a) else preds[t]
  }

  lemma NotedAfterFuse(g: Adjacency, a: U64, b: U64, preds: Preds, later: seq<U64>, t: U64)
    requires a in g && b in g && a != b && g[a] == [b] && Sole(g, a, b) && t != b && t in later
    requires Noted(g, preds, t)
    ensures Noted(Fused(g, a, b), Redirected(preds, later, b, a), t)
  {
    var preds' := Redirected(preds, later, b, a);
    assert t !in g[a];
    forall p: U64 ensures t in preds' && preds'[t] == Some(p) <==> Sole(Fused(g, a, b), p, t) {
      SoleAfterFuse(g, a, b, p, t);
      var q := if p == a then b else p;
      assert t in preds && preds[t] == Some(q) <==> Sole(g, q, t);
      assert t in preds && preds[t] == Some(a) <==> Sole(g, a, t);
    }
  }

  /** A block the pass had to skip cannot become mergeable by a later merge. */
  lemma UnmergeableAfterFuse(db: Db, fs: set<FcnId>, a: U64, b: U64, maxSize: nat, t: U64)
    requires MergesAlong(db, fs, a, b, maxSize) && b in Scope(db, fs) && t != b
    requires !Mergeable(db.blocks, FlowOf(db.blocks, Scope(db, fs)), maxSize, t)
    ensures !Mergeable(AfterMerge(db, a, b).blocks, Fused(FlowOf(db.blocks, Scope(db, fs)), a, b), maxSize, t)
  {
    var g, r := FlowOf(db.blocks, Scope(db, fs)), AfterMerge(db, a, b);
    MergedLinked(db, a, b, r.blocks[a].code, maxSize);
    forall p | Sole(Fused(g, a, b), p, t) && |Fused(g, a, b)[p]| == 1 ensures !CanMerge(r.blocks, p, t, maxSize) {
      SoleAfterFuse(g, a, b, p, t);
      var q := if p == a then b else p;
      if CanMerge(r.blocks, p, t, maxSize) {
        assert CanMerge(db.blocks, q, t, maxSize);
      }
    }
  }

  // ----- the pass

  /** What every merge of the pass preserves, relative to the store it started from; it asks nothing of the
      instructions. */
  ghost predicate Kept(db0: Db, db: Db, fs: set<FcnId>, given: seq<U64>) {
    && Linked(db) && NoSelfMerge(db, fs, given) && db.fcns.Keys == db0.fcns.Keys
    && Anchored(Scope(db0, fs), db.blocks, Scope(db, fs)) && Scope(db, fs) <= Scope(db0, fs)
    && Untouched(db0.blocks, Scope(db0, fs), db.blocks)
  }

  /** Blocks outside are as they were, and those left in the scope keep their functions and references. */
  ghost predicate Untouched(blocks0: BlockMap, scope0: set<U64>, blocks: BlockMap) {
    && (forall a :: a in blocks0 && a !in scope0 ==> a in blocks && blocks[a] == blocks0[a])
    && (forall a :: a in blocks ==> a in blocks0 && SameHolders(blocks0[a], blocks[a]))
  }

  ghost predicate SameHolders(b: Block, b': Block) {
    b'.fcns == b.fcns && b'.refs == b.refs
  }

  lemma KeptStep(db0: Db, db: Db, fs: set<FcnId>, given: seq<U64>, a: U64, b: U64, maxSize: nat)
    requires Kept(db0, db, fs, given) && MergesAlong(db, fs, a, b, maxSize)
    ensures Kept(db0, AfterMerge(db, a, b), fs, given)
  {
    var r := AfterMerge(db, a, b);
    MergedScope(db, fs, a, b, maxSize);
    MergeNoSelf(db, fs, given, a, b, maxSize);
    MergeAnchored(db, fs, Scope(db0, fs), a, b, maxSize);
    MergeUntouched(db0.blocks, Scope(db0, fs), db, a, b);
    MergeLinked(db, a, b, maxSize);
    KeptOf(db0, r, fs, given, Scope(db, fs), b);
  }

  lemma MergeLinked(db: Db, a: U64, b: U64, maxSize: nat)
    requires Linked(db) && CanMerge(db.blocks, a, b, maxSize) && a != b
    ensures Linked(AfterMerge(db, a, b)) && AfterMerge(db, a, b).fcns.Keys == db.fcns.Keys
  {
    MergedLinked(db, a, b, AfterMerge(db, a, b).blocks[a].code, maxSize);
  }

  lemma KeptOf(db0: Db, r: Db, fs: set<FcnId>, given: seq<U64>, scope: set<U64>, b: U64)
    requires Linked(r) && NoSelfMerge(r, fs, given) && r.fcns.Keys == db0.fcns.Keys && scope <= Scope(db0, fs)
    requires Scope(r, fs) == scope - {b} && Anchored(Scope(db0, fs), r.blocks, scope - {b})
    requires Untouched(db0.blocks, Scope(db0, fs), r.blocks)
    ensures Kept(db0, r, fs, given)
  {
  }

  lemma MergeUntouched(blocks0: BlockMap, scope0: set<U64>, db: Db, a: U64, b: U64)
    requires Untouched(blocks0, scope0, db.blocks) && a in scope0 && b in scope0
    requires a in db.blocks && b in db.blocks && a != b
    ensures Untouched(blocks0, scope0, AfterMerge(db, a, b).blocks)
  {
    UntouchedStep(blocks0, scope0, db.blocks, AfterMerge(db, a, b).blocks, a, b);
  }

  lemma UntouchedStep(blocks0: BlockMap, scope0: set<U64>, blocks: BlockMap, r: BlockMap, a: U64, b: U64)
    requires Untouched(blocks0, scope0, blocks) && a in scope0 && b in scope0 && a in blocks
    requires a in r && SameHolders(blocks[a], r[a]) && (forall c :: c in r <==> c in blocks && c != b)
    requires forall c :: c in r && c != a ==> r[c] == blocks[c]
    ensures Untouched(blocks0, scope0, r)
  {
  }

  /** The state of the search: entries of the blocks still to do are exact, those done cannot be merged. */
  ghost predicate Searched(blocks: BlockMap, g: Adjacency, maxSize: nat, preds: Preds, counts: map<U64, nat>,
                           done: seq<U64>, todo: seq<U64>) {
    && (forall p :: p in g ==> p in counts && counts[p] == |g[p]|)
    && (forall t :: t in todo ==> Noted(g, preds, t))
    && (forall t :: t in done ==> !Mergeable(blocks, g, maxSize, t))
  }

  /** Looking the predecessor up gave nothing to merge with. */
  ghost predicate NothingToMerge(blocks: BlockMap, maxSize: nat, preds: Preds, counts: map<U64, nat>, t: U64) {
    t in preds && preds[t].Some? && preds[t].value in counts && counts[preds[t].value] == 1 ==>
      !CanMerge(blocks, preds[t].value, t, maxSize)
  }

  lemma SearchedSkip(blocks: BlockMap, g: Adjacency, maxSize: nat, preds: Preds, counts: map<U64, nat>,
                     done: seq<U64>, todo: seq<U64>)
    requires Searched(blocks, g, maxSize, preds, counts, done, todo) && todo != []
    requires NothingToMerge(blocks, maxSize, preds, counts, todo[0])
    ensures Searched(blocks, g, maxSize, preds, counts, done + [todo[0]], todo[1..])
  {
    assert Noted(g, preds, todo[0]);
    assert !Mergeable(blocks, g, maxSize, todo[0]);
  }

  lemma SearchedStep(db: Db, fs: set<FcnId>, g: Adjacency, maxSize: nat, preds: Preds, counts: map<U64, nat>,
                     done: seq<U64>, todo: seq<U64>, a: U64)
    requires g == FlowOf(db.blocks, Scope(db, fs)) && Searched(db.blocks, g, maxSize, preds, counts, done, todo)
    requires todo != [] && todo[0] !in done && todo[0] !in todo[1..]
    requires MergesAlong(db, fs, a, todo[0], maxSize) && todo[0] in Scope(db, fs)
    ensures Searched(AfterMerge(db, a, todo[0]).blocks, Fused(g, a, todo[0]), maxSize,
                     Redirected(preds, todo[1..], todo[0], a), counts[a := |g[todo[0]]|], done, todo[1..])
  {
    var b := todo[0];
    forall t | t in todo[1..] ensures Noted(Fused(g, a, b), Redirected(preds, todo[1..], b, a), t) {
      NotedAfterFuse(g, a, b, preds, todo[1..], t);
    }
    forall t | t in done ensures !Mergeable(AfterMerge(db, a, b).blocks, Fused(g, a, b), maxSize, t) {
      UnmergeableAfterFuse(db, fs, a, b, maxSize, t);
    }
  }

  /** The blocks behind `i` that have `b` recorded as predecessor. */
  method CollectFixups(preds: Preds, rest: seq<U64>, i: nat, b: U64) returns (fixups: seq<U64>)
    requires i < |rest|
    ensures forall t :: t in fixups <==> t in rest[i..][1..] && t in preds && preds[t] == Some(b)
  {
    fixups := [];
    for j := i + 1 to |rest|
      invariant forall t :: t in fixups <==> t in rest[i + 1..j] && t in preds && preds[t] == Some(b)
    {
      assert rest[i + 1..j + 1] == rest[i + 1..j] + [rest[j]];
      if rest[j] in preds && preds[rest[j]] == Some(b) {
        fixups := fixups + [rest[j]];
      }
    }
    assert rest[i + 1..|rest|] == rest[i..][1..];
  }

  method ApplyFixups(preds: Preds, fixups: seq<U64>, a: U64) returns (preds': Preds)
    requires forall t :: t in fixups ==> t in preds
    ensures preds' == map t | t in preds :: if t in fixups then Some(a) else preds[t]
  {
    preds' := preds;
    for k := 0 to |fixups|
      invariant preds' == map t | t in preds :: if t in fixups[..k] then Some(a) else preds[t]
    {
      assert fixups[..k + 1] == fixups[..k] + [fixups[k]];
      preds' := preds'[fixups[k] := Some(a)];
    }
    assert fixups[..|fixups|] == fixups;
  }

  /** What the tables say about a block with a recorded predecessor of one successor. */
  lemma PredecessorFacts(db: Db, fs: set<FcnId>, given: seq<U64>, g: Adjacency, preds: Preds, counts: map<U64, nat>, t: U64, p: U64)
    requires g == FlowOf(db.blocks, Scope(db, fs)) && NoSelfMerge(db, fs, given) && t in given
    requires Noted(g, preds, t) && t in preds && preds[t] == Some(p)
    requires p in g ==> p in counts && counts[p] == |g[p]|
    requires p in counts && counts[p] == 1
    ensures p in Scope(db, fs) && Successors(db.blocks[p]) == [t] && Sole(g, p, t)
    ensures p == t ==> db.blocks[p].size > 0
  {
    assert Sole(g, p, t);
    assert t in g[p] && |g[p]| == 1;
  }

  /** Both sides of the pass's invariant after one merge. */
  lemma MergeDone(db0: Db, db: Db, fs: set<FcnId>, given: seq<U64>, g: Adjacency, maxSize: nat, preds: Preds,
                  counts: map<U64, nat>, done: seq<U64>, todo: seq<U64>, a: U64)
    requires Kept(db0, db, fs, given) && g == FlowOf(db.blocks, Scope(db, fs))
    requires Searched(db.blocks, g, maxSize, preds, counts, done, todo)
    requires todo != [] && todo[0] !in done && todo[0] !in todo[1..] && MergesAlong(db, fs, a, todo[0], maxSize)
    ensures todo[0] in Scope(db, fs)
    ensures Kept(db0, AfterMerge(db, a, todo[0]), fs, given)
    ensures var db' := AfterMerge(db, a, todo[0]);
            Searched(db'.blocks, FlowOf(db'.blocks, Scope(db', fs)), maxSize, Redirected(preds, todo[1..], todo[0], a),
                     counts[a := |Successors(db.blocks[todo[0]])|], done, todo[1..])
  {
    MergedScope(db, fs, a, todo[0], maxSize);
    KeptStep(db0, db, fs, given, a, todo[0], maxSize);
    SearchedStep(db, fs, g, maxSize, preds, counts, done, todo, a);
  }

  /** One turn of the pass at a block whose recorded predecessor has no other successor. */
  method MergeIntoPredecessor(an: Analysis, preds: Preds, counts: map<U64, nat>, rest: seq<U64>, i: nat, p: U64)
    returns (ok: bool, preds': Preds, counts': map<U64, nat>)
    requires Linked(an.State()) && i < |rest| && rest[i] in an.blocks && p in an.blocks
    requires p == rest[i] ==> an.blocks[p].size > 0
    modifies an
    ensures ok == CanMerge(old(an.blocks), p, rest[i], an.bbMaxSize)
    ensures !ok ==> an.State() == old(an.State())
    ensures ok ==> p != rest[i] && an.State() == AfterMerge(old(an.State()), p, rest[i])
    ensures ok ==> preds' == Redirected(preds, rest[i..][1..], rest[i], p)
    ensures ok ==> counts' == counts[p := |Successors(old(an.blocks)[rest[i]])|]
  {
    var t := rest[i];
    preds', counts' := preds, counts;
    var fixups := CollectFixups(preds, rest, i, t);
    ghost var code;
    ok, code := an.Merge(p, t);
    if ok {
      counts' := counts[p := |Successors(an.blocks[p])|];
      preds' := ApplyFixups(preds, fixups, p);
      assert preds' == Redirected(preds, rest[i..][1..], t, p);
    }
  }

  lemma HoldersExist(db: Db, given: seq<U64>)
    requires Linked(db)
    ensures Holders(db.blocks, given) <= db.fcns.Keys
  {
    forall f | f in Holders(db.blocks, given) ensures f in db.fcns {
      var a :| a in given && a in db.blocks && f in db.blocks[a].fcns;
      assert BlockLinked(db, a);
    }
  }

  lemma SearchBegins(blocks: BlockMap, scope: set<U64>, maxSize: nat, preds: Preds, counts: map<U64, nat>, given: seq<U64>)
    requires scope <= blocks.Keys && AllTabulated(FlowOf(blocks, scope), preds, set a | a in given)
    requires counts.Keys == scope && forall a :: a in counts ==> counts[a] == |Successors(blocks[a])|
    ensures Searched(blocks, FlowOf(blocks, scope), maxSize, preds, counts, [], given)
  {
    forall t | t in given ensures Noted(FlowOf(blocks, scope), preds, t) {
      assert Tabulated(FlowOf(blocks, scope), preds, t);
    }
  }

  /** The list without its i-th entry. */
  lemma RestShrinks(rest: seq<U64>, i: nat)
    requires Distinct(rest) && i < |rest|
    ensures var r := rest[..i] + rest[i + 1..];
            && Distinct(r) && (forall t :: t in r <==> t in rest && t != rest[i])
            && r[..i] == rest[..i] && r[i..] == rest[i..][1..]
  {
    var r := rest[..i] + rest[i + 1..];
    forall t | t in rest && t != rest[i] ensures t in r {
      var k :| 0 <= k < |rest| && rest[k] == t;
      assert t == if k < i then r[k] else r[k - 1];
    }
  }

  /** Every list entry at `i` is new with respect to its two sides. */
  lemma SplitAt(rest: seq<U64>, i: nat)
    requires Distinct(rest) && i < |rest|
    ensures rest[i..] != [] && rest[i..][0] == rest[i] && rest[i] !in rest[..i] && rest[i] !in rest[i..][1..]
    ensures rest[..i] + [rest[i]] == rest[..i + 1] && rest[i..][1..] == rest[i + 1..]
  {
  }

  /** Exactly the given blocks that left the list have left the store. */
  ghost predicate Listed(keys0: set<U64>, keys: set<U64>, given: seq<U64>, rest: seq<U64>) {
    && Distinct(rest) && (forall a :: a in rest ==> a in given) && (forall a :: a in given ==> a in keys0)
    && (forall a :: a in keys <==> a in keys0 && (a in given ==> a in rest))
  }

  lemma ListedStep(keys0: set<U64>, keys: set<U64>, given: seq<U64>, rest: seq<U64>, i: nat)
    requires Listed(keys0, keys, given, rest) && i < |rest|
    ensures Listed(keys0, keys - {rest[i]}, given, rest[..i] + rest[i + 1..])
  {
    RestShrinks(rest, i);
  }

  // ----- the order of the pass

  /** Whether some block absorbs `t` at its turn. */
  ghost predicate IsAbsorbed(db: Db, fs: set<FcnId>, t: U64, maxSize: nat) {
    exists p :: MergesAlong(db, fs, p, t, maxSize)
  }

  /** The store after the turn of `t`. */
  ghost function TurnOf(db: Db, fs: set<FcnId>, t: U64, maxSize: nat): Db {
    if IsAbsorbed(db, fs, t, maxSize) then
      var p :| MergesAlong(db, fs, p, t, maxSize);
      AfterMerge(db, p, t)
    else db
  }

  /** The store after the turns of the listed blocks, one after the other. */
  ghost function ByOrder(db: Db, fs: set<FcnId>, order: seq<U64>, maxSize: nat): Db
    decreases |order|
  {
    if order == [] then db else ByOrder(TurnOf(db, fs, order[0], maxSize), fs, order[1..], maxSize)
  }

  /** There is only one block that can absorb it. */
  lemma TurnIs(db: Db, fs: set<FcnId>, p: U64, t: U64, maxSize: nat)
    requires MergesAlong(db, fs, p, t, maxSize)
    ensures IsAbsorbed(db, fs, t, maxSize) && TurnOf(db, fs, t, maxSize) == AfterMerge(db, p, t)
  {
    assert IsAbsorbed(db, fs, t, maxSize);
    var q: U64 :| MergesAlong(db, fs, q, t, maxSize) && TurnOf(db, fs, t, maxSize) == AfterMerge(db, q, t);
    assert Sole(FlowOf(db.blocks, Scope(db, fs)), q, t);
    SoleUnique(FlowOf(db.blocks, Scope(db, fs)), p, q, t);
  }

  lemma SoleUnique(g: Adjacency, p: U64, q: U64, t: U64)
    requires Sole(g, p, t) && Sole(g, q, t)
    ensures p == q
  {
    assert t in g[p];
  }

  lemma TurnNone(db: Db, fs: set<FcnId>, t: U64, maxSize: nat)
    requires !Mergeable(db.blocks, FlowOf(db.blocks, Scope(db, fs)), maxSize, t)
    ensures TurnOf(db, fs, t, maxSize) == db
  {
  }

  /** One store of the pass follows from another by a merge of a given block. */
  ghost predicate PassStep(db: Db, db': Db, fs: set<FcnId>, given: seq<U64>, maxSize: nat) {
    exists a, b :: MergesAlong(db, fs, a, b, maxSize) && b in given && db' == AfterMerge(db, a, b)
  }

  /** The stores of the pass, from the first to the last. */
  ghost predicate PassRun(states: seq<Db>, fs: set<FcnId>, given: seq<U64>, maxSize: nat) {
    states != [] && forall i :: 0 <= i < |states| - 1 ==> PassStep(states[i], states[i + 1], fs, given, maxSize)
  }

  lemma PassRunSnoc(states: seq<Db>, db: Db, fs: set<FcnId>, given: seq<U64>, maxSize: nat)
    requires PassRun(states, fs, given, maxSize) && PassStep(states[|states| - 1], db, fs, given, maxSize)
    ensures PassRun(states + [db], fs, given, maxSize)
  {
    var r := states + [db];
    forall i | 0 <= i < |r| - 1 ensures PassStep(r[i], r[i + 1], fs, given, maxSize) {
      assert i < |states| - 1 ==> PassStep(states[i], states[i + 1], fs, given, maxSize);
    }
  }

  /** The invariant of the pass. */
  ghost predicate Pass(db0: Db, db: Db, fs: set<FcnId>, given: seq<U64>, maxSize: nat, preds: Preds,
                       counts: map<U64, nat>, rest: seq<U64>, i: nat) {
    && i <= |rest| && Listed(db0.blocks.Keys, db.blocks.Keys, given, rest) && Kept(db0, db, fs, given)
    && Searched(db.blocks, FlowOf(db.blocks, Scope(db, fs)), maxSize, preds, counts, rest[..i], rest[i..])
  }

  lemma PassSkip(db0: Db, db: Db, fs: set<FcnId>, given: seq<U64>, maxSize: nat, preds: Preds,
                 counts: map<U64, nat>, rest: seq<U64>, i: nat)
    requires Pass(db0, db, fs, given, maxSize, preds, counts, rest, i) && i < |rest|
    requires NothingToMerge(db.blocks, maxSize, preds, counts, rest[i])
    ensures Pass(db0, db, fs, given, maxSize, preds, counts, rest, i + 1)
    ensures !Mergeable(db.blocks, FlowOf(db.blocks, Scope(db, fs)), maxSize, rest[i])
  {
    SplitAt(rest, i);
    SearchedSkip(db.blocks, FlowOf(db.blocks, Scope(db, fs)), maxSize, preds, counts, rest[..i], rest[i..]);
    assert rest[i] in rest[..i + 1];
  }

  /** A recorded predecessor with one successor is a fit partner for `Merge`. */
  lemma PassPartner(db0: Db, db: Db, fs: set<FcnId>, given: seq<U64>, maxSize: nat, preds: Preds,
                    counts: map<U64, nat>, rest: seq<U64>, i: nat, p: U64)
    requires Pass(db0, db, fs, given, maxSize, preds, counts, rest, i) && i < |rest|
    requires rest[i] in preds && preds[rest[i]] == Some(p) && p in counts && counts[p] == 1
    ensures Linked(db) && rest[i] in db.blocks && p in Scope(db, fs) && Successors(db.blocks[p]) == [rest[i]]
    ensures Sole(FlowOf(db.blocks, Scope(db, fs)), p, rest[i]) && (p == rest[i] ==> db.blocks[p].size > 0)
  {
    SplitAt(rest, i);
    assert rest[i] in db.blocks.Keys;
    assert Noted(FlowOf(db.blocks, Scope(db, fs)), preds, rest[i..][0]);
    PredecessorFacts(db, fs, given, FlowOf(db.blocks, Scope(db, fs)), preds, counts, rest[i], p);
  }

  lemma PassMerge(db0: Db, db: Db, fs: set<FcnId>, given: seq<U64>, maxSize: nat, preds: Preds,
                  counts: map<U64, nat>, rest: seq<U64>, i: nat, p: U64)
    requires Pass(db0, db, fs, given, maxSize, preds, counts, rest, i) && i < |rest|
    requires MergesAlong(db, fs, p, rest[i], maxSize)
    ensures rest[i] in Scope(db, fs) && rest[i] in given && PassStep(db, AfterMerge(db, p, rest[i]), fs, given, maxSize)
    ensures Pass(db0, AfterMerge(db, p, rest[i]), fs, given, maxSize, Redirected(preds, rest[i..][1..], rest[i], p),
                 counts[p := |Successors(db.blocks[rest[i]])|], rest[..i] + rest[i + 1..], i)
  {
    SplitAt(rest, i);
    RestShrinks(rest, i);
    ListedStep(db0.blocks.Keys, db.blocks.Keys, given, rest, i);
    assert AfterMerge(db, p, rest[i]).blocks.Keys == db.blocks.Keys - {rest[i]};
    MergeDone(db0, db, fs, given, FlowOf(db.blocks, Scope(db, fs)), maxSize, preds, counts, rest[..i], rest[i..], p);
  }

  lemma KeptBegins(db: Db, fs: set<FcnId>, given: seq<U64>)
    requires Linked(db) && NoSelfMerge(db, fs, given)
    ensures Kept(db, db, fs, given)
  {
  }

  /** Gathers the tables and the relevant functions. */
  method Search(an: Analysis, given: seq<U64>) returns (fs: set<FcnId>, preds: Preds, counts: map<U64, nat>)
    requires Linked(an.State()) && Distinct(given) && forall a :: a in given ==> a in an.blocks
    requires NoSelfMerge(an.State(), Holders(an.blocks, given), given)
    ensures fs == Holders(an.blocks, given)
    ensures Pass(an.State(), an.State(), fs, given, an.bbMaxSize, preds, counts, given, 0)
  {
    fs := RelevantFunctions(an.blocks, given);
    HoldersExist(an.State(), given);
    preds, counts := FindPredecessors(Db(an.blocks, an.fcns), fs, set a | a in given);
    SearchBegins(an.blocks, Scope(an.State(), fs), an.bbMaxSize, preds, counts, given);
    KeptBegins(an.State(), fs, given);
    assert given[..0] == [] && given[0..] == given;
  }

  /** What the pass leaves: the link, blocks outside the functions, holders and references are untouched, exactly the
      given blocks not in `rest` are gone, and none of `rest` could still be merged. */
  ghost predicate Merged(db0: Db, db: Db, given: seq<U64>, rest: seq<U64>, maxSize: nat) {
    var fs := Holders(db0.blocks, given);
    && Kept(db0, db, fs, given) && Distinct(rest) && (forall a :: a in rest ==> a in given && a in db.blocks)
    && (forall a :: a in db.blocks <==> a in db0.blocks && (a in given ==> a in rest))
    && (forall t :: t in rest ==> !Mergeable(db.blocks, FlowOf(db.blocks, Scope(db, fs)), maxSize, t))
  }

  /** One turn of the pass. */
  method MergeAt(an: Analysis, given: seq<U64>, fs: set<FcnId>, preds: Preds, counts: map<U64, nat>, rest: seq<U64>,
                 i: nat, ghost db0: Db)
    returns (ok: bool, rest': seq<U64>, preds': Preds, counts': map<U64, nat>)
    requires i < |rest| && Pass(db0, an.State(), fs, given, an.bbMaxSize, preds, counts, rest, i)
    modifies an
    ensures !ok ==> an.State() == old(an.State())
    ensures !ok ==> Pass(db0, an.State(), fs, given, an.bbMaxSize, preds, counts, rest, i + 1)
    ensures ok ==> |rest'| == |rest| - 1 && PassStep(old(an.State()), an.State(), fs, given, an.bbMaxSize)
    ensures ok ==> Pass(db0, an.State(), fs, given, an.bbMaxSize, preds', counts', rest', i)
    ensures an.State() == TurnOf(old(an.State()), fs, rest[i], an.bbMaxSize)
    ensures ok ==> rest'[i..] == rest[i..][1..]
  {
    var t := rest[i];
    ghost var db := an.State();
    preds', counts', rest' := preds, counts, rest;
    ok := t in preds && preds[t].Some? && preds[t].value in counts && counts[preds[t].value] == 1;
    if ok {
      var p := preds[t].value;
      PassPartner(db0, db, fs, given, an.bbMaxSize, preds, counts, rest, i, p);
      ok, preds', counts' := MergeIntoPredecessor(an, preds, counts, rest, i, p);
      if ok {
        PassMerge(db0, db, fs, given, an.bbMaxSize, preds, counts, rest, i, p);
        TurnIs(db, fs, p, t, an.bbMaxSize);
        RestShrinks(rest, i);
        rest' := rest[..i] + rest[i + 1..];
      }
    }
    if !ok {
      PassSkip(db0, db, fs, given, an.bbMaxSize, preds, counts, rest, i);
      TurnNone(db, fs, t, an.bbMaxSize);
    }
  }

  /** The run so far, and what is still to come. */
  ghost predicate Running(db0: Db, db: Db, fs: set<FcnId>, given: seq<U64>, maxSize: nat, todo: seq<U64>, states: seq<Db>) {
    && PassRun(states, fs, given, maxSize) && states[0] == db0 && states[|states| - 1] == db
    && ByOrder(db, fs, todo, maxSize) == ByOrder(db0, fs, given, maxSize)
  }

  lemma RunningNext(db0: Db, db: Db, next: Db, fs: set<FcnId>, given: seq<U64>, maxSize: nat, todo: seq<U64>, states: seq<Db>)
    requires Running(db0, db, fs, given, maxSize, todo, states) && todo != [] && next == TurnOf(db, fs, todo[0], maxSize)
    ensures next == db ==> Running(db0, next, fs, given, maxSize, todo[1..], states)
    ensures PassStep(db, next, fs, given, maxSize) ==> Running(db0, next, fs, given, maxSize, todo[1..], states + [next])
  {
    if PassStep(db, next, fs, given, maxSize) {
      PassRunSnoc(states, next, fs, given, maxSize);
    }
  }

  /** The loop of the pass: every block has its turn in the order given. `states` lists the stores it goes through. */
  method RunPass(an: Analysis, given: seq<U64>) returns (rest: seq<U64>, ghost states: seq<Db>)
    requires Linked(an.State()) && Distinct(given) && forall a :: a in given ==> a in an.blocks
    requires NoSelfMerge(an.State(), Holders(an.blocks, given), given)
    modifies an
    ensures Merged(old(an.State()), an.State(), given, rest, an.bbMaxSize)
    ensures PassRun(states, old(Holders(an.blocks, given)), given, an.bbMaxSize)
    ensures states[0] == old(an.State()) && states[|states| - 1] == an.State()
    ensures an.State() == ByOrder(old(an.State()), old(Holders(an.blocks, given)), given, an.bbMaxSize)
  {
    var fs, preds: Preds, counts: map<U64, nat> := Search(an, given);
    rest, states := given, [an.State()];
    var i := 0;
    assert rest[0..] == given;
    while i < |rest|
      invariant Pass(old(an.State()), an.State(), fs, given, an.bbMaxSize, preds, counts, rest, i)
      invariant i <= |rest| && Running(old(an.State()), an.State(), fs, given, an.bbMaxSize, rest[i..], states)
      decreases |rest| - i
    {
      ghost var mid, todo := an.State(), rest[i..];
      assert todo[0] == rest[i] && todo[1..] == rest[i + 1..];
      var ok, rest', preds', counts' := MergeAt(an, given, fs, preds, counts, rest, i, old(an.State()));
      RunningNext(old(an.State()), mid, an.State(), fs, given, an.bbMaxSize, todo, states);
      if ok {
        preds, counts, rest := preds', counts', rest';
        states := states + [an.State()];
      } else {
        i := i + 1;
      }
    }
    PassEnds(old(an.State()), an.State(), fs, given, an.bbMaxSize, preds, counts, rest, i);
    assert rest[i..] == [];
  }

  lemma PassEnds(db0: Db, db: Db, fs: set<FcnId>, given: seq<U64>, maxSize: nat, preds: Preds, counts: map<U64, nat>,
                 rest: seq<U64>, i: nat)
    requires Pass(db0, db, fs, given, maxSize, preds, counts, rest, i) && i >= |rest| && fs == Holders(db0.blocks, given)
    ensures Merged(db0, db, given, rest, maxSize)
  {
    assert rest[..i] == rest;
  }
}
