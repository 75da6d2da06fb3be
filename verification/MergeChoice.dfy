/** When the outcome of the merge pass depends on the order of the given blocks. */
module MergeChoice {
  import opened Machine
  import opened Blocks
  import opened BlockCode
  import opened Store
  import opened Flow
  import opened MergePass
  import opened MergeFlow
  import opened MergeOrder
  import opened MergeRuns

  // ----- along a run

  /** The state of a pass, however far it got. */
  ghost predicate Live(s: Start, db: Db, fs: set<FcnId>, tip: map<U64, U64>) {
    Tracks(s, db, fs, tip) && Linked(db)
  }

  function Absorbed(tip: map<U64, U64>, a: U64, b: U64): (r: map<U64, U64>)
    requires a in tip && b in tip
    ensures r.Keys <= tip.Keys
  {
    (tip - {b})[a := tip[b]]
  }

  lemma AlongLive(s: Start, db: Db, fs: set<FcnId>, tip: map<U64, U64>, a: U64, b: U64)
    requires Live(s, db, fs, tip) && MergesAlong(db, fs, a, b, s.limit) && b in s.given
    ensures a in tip && b in tip && Live(s, AfterMerge(db, a, b), fs, Absorbed(tip, a, b))
  {
    TracksStep(s, db, fs, tip, a, b, s.limit);
    UsesJoin(s, db, fs, tip, a, b, s.limit);
    MergeLinked(db, a, b, s.limit);
  }

  /** After one turn. */
  lemma TurnLive(s: Start, db: Db, fs: set<FcnId>, tip: map<U64, U64>, t: U64) returns (tip': map<U64, U64>)
    requires Live(s, db, fs, tip) && t in s.given
    ensures Live(s, TurnOf(db, fs, t, s.limit), fs, tip') && tip'.Keys <= tip.Keys
  {
    tip' := tip;
    if IsAbsorbed(db, fs, t, s.limit) {
      var p: U64 :| MergesAlong(db, fs, p, t, s.limit);
      TurnIs(db, fs, p, t, s.limit);
      AlongLive(s, db, fs, tip, p, t);
      tip' := Absorbed(tip, p, t);
    }
  }

  /** After any number of turns. */
  lemma {:induction false} OrderLive(s: Start, db: Db, fs: set<FcnId>, tip: map<U64, U64>, order: seq<U64>)
    returns (tip': map<U64, U64>)
    requires Live(s, db, fs, tip) && forall t :: t in order ==> t in s.given
    ensures Live(s, ByOrder(db, fs, order, s.limit), fs, tip') && tip'.Keys <= tip.Keys
    decreases |order|
  {
    tip' := tip;
    if order != [] {
      tip' := TurnLive(s, db, fs, tip, order[0]);
      tip' := OrderLive(s, TurnOf(db, fs, order[0], s.limit), fs, tip', order[1..]);
    }
  }

  // ----- stretches of a chain

  /** The blocks behind `l` up to `y` on a chain. */
  ghost function Between(s: Start, l: U64, y: U64): seq<U64>
    requires OnChain(s, l, y)
    decreases UT64_MAX - l
  {
    if l == y then [] else [l + s.blocks[l].size] + Between(s, l + s.blocks[l].size, y)
  }

  lemma {:induction false} BetweenMember(s: Start, l: U64, y: U64, c: U64)
    requires OnChain(s, l, y) && l in s.blocks
    ensures c in Between(s, l, y) <==> OnChain(s, l, c) && OnChain(s, c, y) && c != l
    ensures c in Between(s, l, y) ==> c in s.given
    decreases UT64_MAX - l
  {
    if l != y {
      var n: U64 := l + s.blocks[l].size;
      BetweenMember(s, n, y, c);
      if OnChain(s, n, c) && OnChain(s, c, y) {
        ChainMonotone(s, n, c);
      }
    } else if OnChain(s, l, c) && OnChain(s, c, y) {
      ChainMonotone(s, l, c);
      ChainMonotone(s, c, y);
    }
  }

  lemma {:induction false} BetweenDistinct(s: Start, l: U64, y: U64)
    requires OnChain(s, l, y) && l in s.blocks
    ensures Distinct(Between(s, l, y)) && l !in Between(s, l, y)
    decreases UT64_MAX - l
  {
    BetweenMember(s, l, y, l);
    if l != y {
      BetweenDistinct(s, l + s.blocks[l].size, y);
    }
  }

  /** The blocks of a stretch still stand alone. */
  ghost predicate Fresh(tip: map<U64, U64>, cs: seq<U64>) {
    forall c :: c in cs ==> c in tip && tip[c] == c
  }

  /** The stretch behind `l` up to `y` fits into `x`. */
  ghost predicate Stretch(s: Start, x: U64, l: U64, y: U64) {
    && l in s.blocks && OnChain(s, l, y) && x !in Between(s, l, y)
    && y in s.blocks && y + s.blocks[y].size <= x + s.limit
  }

  lemma StretchNext(s: Start, x: U64, l: U64, y: U64) returns (c: U64)
    requires Stretch(s, x, l, y) && l != y
    ensures Joins(s, l, c) && c + s.blocks[c].size <= x + s.limit && Stretch(s, x, c, y)
    ensures Between(s, l, y) == [c] + Between(s, c, y) && Distinct([c] + Between(s, c, y)) && l < c
  {
    c := l + s.blocks[l].size;
    ChainMonotone(s, c, y);
    BetweenDistinct(s, l, y);
    assert Between(s, l, y) == [c] + Between(s, c, y);
  }

  /** One block of the stretch is merged. */
  lemma MergeNext(s: Start, db: Db, fs: set<FcnId>, tip: map<U64, U64>, x: U64, c: U64)
    requires Live(s, db, fs, tip) && x in tip && c in tip && tip[c] == c && Joins(s, tip[x], c)
    requires c + s.blocks[c].size <= x + s.limit
    ensures x in db.blocks && c in db.blocks && x != c && TurnOf(db, fs, c, s.limit) == AfterMerge(db, x, c)
    ensures Live(s, AfterMerge(db, x, c), fs, Absorbed(tip, x, c))
  {
    assert StandsFor(s, x, tip[x], db.blocks[x]) && StandsFor(s, c, c, db.blocks[c]);
    FeedsNow(s, db.blocks, FlowOf(db.blocks, Scope(db, fs)), tip, x, c);
    FeedsIff(db, fs, x, c, s.limit);
    TurnIs(db, fs, x, c, s.limit);
    AlongLive(s, db, fs, tip, x, c);
  }

  lemma FirstOfStretch(s: Start, db: Db, fs: set<FcnId>, tip: map<U64, U64>, x: U64, c: U64, rest: seq<U64>)
    requires Live(s, db, fs, tip) && x in tip && Fresh(tip, [c] + rest) && Joins(s, tip[x], c)
    requires c + s.blocks[c].size <= x + s.limit && Distinct([c] + rest) && x !in [c] + rest
    ensures var db', tip' := TurnOf(db, fs, c, s.limit), Absorbed(tip, x, c);
            && Live(s, db', fs, tip') && Fresh(tip', rest) && x in tip' && tip'[x] == c && c !in tip'
            && ByOrder(db, fs, [c] + rest, s.limit) == ByOrder(db', fs, rest, s.limit)
  {
    assert ([c] + rest)[0] == c && ([c] + rest)[1..] == rest;
    MergeNext(s, db, fs, tip, x, c);
    FreshRest(tip, x, c, rest);
  }

  /** A stretch that fits can be merged into its first block, which has grown to `l` already. */
  lemma {:induction false} MergeStretch(s: Start, db: Db, fs: set<FcnId>, tip: map<U64, U64>, x: U64, l: U64, y: U64)
    returns (tip': map<U64, U64>)
    requires Live(s, db, fs, tip) && x in tip && tip[x] == l && Stretch(s, x, l, y) && Fresh(tip, Between(s, l, y))
    ensures Live(s, ByOrder(db, fs, Between(s, l, y), s.limit), fs, tip') && tip'.Keys <= tip.Keys
    ensures forall c :: c in Between(s, l, y) ==> c !in tip'
    decreases UT64_MAX - l
  {
    tip' := tip;
    if l != y {
      var c := StretchNext(s, x, l, y);
      FirstOfStretch(s, db, fs, tip, x, c, Between(s, c, y));
      tip' := MergeStretch(s, TurnOf(db, fs, c, s.limit), fs, Absorbed(tip, x, c), x, c, y);
    }
  }

  lemma FreshRest(tip: map<U64, U64>, x: U64, c: U64, rest: seq<U64>)
    requires Fresh(tip, [c] + rest) && Distinct([c] + rest) && x !in [c] + rest && x in tip && c in tip
    ensures Fresh(Absorbed(tip, x, c), rest)
  {
    forall d | d in rest ensures d in tip && tip[d] == d && d != c && d != x {
      assert d in [c] + rest;
      var i :| 0 <= i < |rest| && rest[i] == d;
      assert ([c] + rest)[0] == c && ([c] + rest)[i + 1] == d;
    }
  }

  /** The block before `y` on the way from `x`. */
  lemma {:induction false} PrevOn(s: Start, x: U64, y: U64) returns (p: U64)
    requires x in s.blocks && OnChain(s, x, y) && x != y
    ensures OnChain(s, x, p) && Joins(s, p, y) && p in s.blocks
    decreases UT64_MAX - x
  {
    var n: U64 := x + s.blocks[x].size;
    if n == y {
      p := x;
    } else {
      p := PrevOn(s, n, y);
    }
  }

  /** A chain that leads to `y` leads to the block before it. */
  lemma BeforePrev(s: Start, a: U64, y: U64, p: U64)
    requires a in s.blocks && OnChain(s, a, y) && a != y && Joins(s, p, y)
    ensures OnChain(s, a, p)
  {
    var q := PrevOn(s, a, y);
    SoleUnique(s.g, p, q, y);
  }

  /** Of two blocks whose chains meet, one lies on the chain of the other. */
  lemma {:induction false} OneWay(s: Start, a: U64, x: U64, y: U64)
    requires a in s.blocks && x in s.blocks && OnChain(s, a, y) && OnChain(s, x, y)
    ensures OnChain(s, a, x) || OnChain(s, x, a)
    decreases y
  {
    if a != y && x != y {
      var p := PrevOn(s, a, y);
      JoinsNext(s, p, y);
      BeforePrev(s, x, y, p);
      OneWay(s, a, x, p);
    }
  }

  /** Every block of the start is part of one that is left. */
  lemma {:induction false} Covered(s: Start, tip: map<U64, U64>, c: U64, blocks: BlockMap) returns (a: U64)
    requires AllStand(s, blocks, tip) && Used(s, tip) && c in s.blocks
    ensures a in tip && OnChain(s, a, c) && OnChain(s, c, tip[a])
    decreases c
  {
    if c in tip {
      a := c;
      assert StandsFor(s, c, tip[c], blocks[c]);
    } else {
      assert HasPrev(s, c);
      var p: U64 :| Joins(s, p, c);
      JoinsNext(s, p, c);
      a := Covered(s, tip, p, blocks);
      assert !IsTip(tip, p);
      assert OnChain(s, p, c) by { assert OnChain(s, c, c); }
      ChainTrans(s, a, p, c);
    }
  }

  // ----- two orders with different outcomes

  /** From `x` to `y` the chain is too long to be merged. */
  ghost predicate Overlong(s: Start, x: U64, y: U64) {
    x in s.blocks && OnChain(s, x, y) && y in s.blocks && y + s.blocks[y].size > x + s.limit
  }

  /** An overlong stretch that fits without its first and without its last block: `n` is the second, `p` the last but
      one. */
  ghost predicate Minimal(s: Start, x: U64, y: U64, n: U64, p: U64) {
    && Overlong(s, x, y) && x != y && OnChain(s, x, p) && Joins(s, p, y) && !Overlong(s, x, p)
    && n in s.blocks && OnChain(s, n, y) && n != y && !Overlong(s, n, y)
  }

  lemma {:induction false} Shortest(s: Start, x0: U64, y0: U64) returns (x: U64, y: U64, n: U64, p: U64)
    requires Overlong(s, x0, y0) && x0 != y0
    ensures Minimal(s, x, y, n, p)
    decreases y0 - x0
  {
    n := x0 + s.blocks[x0].size;
    p := PrevOn(s, x0, y0);
    ChainMonotone(s, x0, n);
    ChainMonotone(s, n, y0);
    ChainMonotone(s, x0, p);
    JoinsNext(s, p, y0);
    assert Joins(s, x0, n);
    if Overlong(s, n, y0) {
      x, y, n, p := Shortest(s, n, y0);
    } else if Overlong(s, x0, p) {
      x, y, n, p := Shortest(s, x0, p);
    } else {
      x, y := x0, y0;
      BeforePrev(s, n, y, p);
      if p == x {
        ChainMonotone(s, n, p);
      }
    }
  }

  /** The last block of an overlong stretch stays, once the blocks before it were merged into the first. */
  lemma LastStays(s: Start, db: Db, fs: set<FcnId>, tip: map<U64, U64>, x: U64, y: U64, p: U64)
    requires Live(s, db, fs, tip) && Overlong(s, x, y) && OnChain(s, x, p) && Joins(s, p, y) && x != y
    requires forall c :: c in Between(s, x, p) ==> c !in tip
    ensures y in tip
  {
    var a := Covered(s, tip, y, db.blocks);
    if a != y {
      assert StandsFor(s, a, tip[a], db.blocks[a]);
      ChainMonotone(s, y, tip[a]);
      ChainMonotone(s, a, y);
      OneWay(s, a, x, y);
      if OnChain(s, a, x) {
        ChainMonotone(s, a, x);
        ChainMonotone(s, x, p);
        JoinsNext(s, p, y);
      } else {
        BeforePrev(s, a, y, p);
        BetweenMember(s, x, p, a);
      }
    }
  }

  lemma StartLive(db: Db, fs: set<FcnId>, given: seq<U64>, maxSize: nat) returns (tip: map<U64, U64>)
    requires Linked(db)
    ensures Live(StartOf(db, fs, given, maxSize), db, fs, tip) && tip == map a | a in db.blocks :: a
  {
    tip := map a | a in db.blocks :: a;
    TracksBegins(db, fs, given, maxSize, tip);
  }

  lemma StretchGiven(s: Start, x: U64, y: U64, given: seq<U64>)
    requires x in s.blocks && OnChain(s, x, y) && s.given == Members(given) && Distinct(given)
    ensures var first := Between(s, x, y);
            && x !in first && IsOrder(first + Others(given, first), given) && forall c :: c in first ==> c in s.blocks && c in given
  {
    var first := Between(s, x, y);
    BetweenDistinct(s, x, y);
    forall c | c in first ensures c in s.blocks && c in given {
      BetweenMember(s, x, y, c);
      ChainMonotone(s, x, c);
    }
    FirstThenOthers(given, first);
  }

  /** Merging a stretch first, then the others in any order. */
  lemma StretchFirst(s: Start, db: Db, fs: set<FcnId>, given: seq<U64>, x: U64, y: U64)
    returns (order: seq<U64>, tip: map<U64, U64>)
    requires Linked(db) && s == StartOf(db, fs, given, s.limit) && Distinct(given)
    requires x in s.blocks && OnChain(s, x, y) && y in s.blocks && !Overlong(s, x, y)
    ensures IsOrder(order, given) && Live(s, ByOrder(db, fs, order, s.limit), fs, tip)
    ensures forall c :: c in Between(s, x, y) ==> c !in tip
  {
    var first := Between(s, x, y);
    StretchGiven(s, x, y, given);
    order := first + Others(given, first);
    var tip0 := StartLive(db, fs, given, s.limit);
    var tip1 := MergeStretch(s, db, fs, tip0, x, x, y);
    tip := OrderLive(s, ByOrder(db, fs, first, s.limit), fs, tip1, Others(given, first));
    ByOrderConcat(db, fs, first, Others(given, first), s.limit);
  }

  lemma LiveKeys(s: Start, db: Db, fs: set<FcnId>, tip: map<U64, U64>)
    requires Live(s, db, fs, tip)
    ensures tip.Keys == db.blocks.Keys
  {
  }

  /** The order that keeps the last block of an overlong stretch. */
  lemma OrderWith(s: Start, db: Db, fs: set<FcnId>, given: seq<U64>, x: U64, y: U64, n: U64, p: U64)
    returns (order: seq<U64>)
    requires Linked(db) && s == StartOf(db, fs, given, s.limit) && Distinct(given)
    requires Minimal(s, x, y, n, p)
    ensures IsOrder(order, given) && y in ByOrder(db, fs, order, s.limit).blocks
  {
    var tip;
    ChainMonotone(s, x, p);
    order, tip := StretchFirst(s, db, fs, given, x, p);
    LastStays(s, ByOrder(db, fs, order, s.limit), fs, tip, x, y, p);
    LiveKeys(s, ByOrder(db, fs, order, s.limit), fs, tip);
  }

  /** The order that merges it. */
  lemma OrderWithout(s: Start, db: Db, fs: set<FcnId>, given: seq<U64>, x: U64, y: U64, n: U64, p: U64)
    returns (order: seq<U64>)
    requires Linked(db) && s == StartOf(db, fs, given, s.limit) && Distinct(given)
    requires Minimal(s, x, y, n, p)
    ensures IsOrder(order, given) && y !in ByOrder(db, fs, order, s.limit).blocks
  {
    var tip;
    ChainMonotone(s, n, y);
    order, tip := StretchFirst(s, db, fs, given, n, y);
    BetweenMember(s, n, y, y);
    LiveKeys(s, ByOrder(db, fs, order, s.limit), fs, tip);
  }

  /** With a chain that is too long, two orders leave different blocks. */
  lemma TwoOrders(s: Start, db: Db, fs: set<FcnId>, given: seq<U64>, x0: U64, y0: U64) returns (order: seq<U64>, order': seq<U64>)
    requires Linked(db) && s == StartOf(db, fs, given, s.limit) && Distinct(given) && Overlong(s, x0, y0) && x0 != y0
    ensures IsOrder(order, given) && IsOrder(order', given)
    ensures ByOrder(db, fs, order, s.limit).blocks.Keys != ByOrder(db, fs, order', s.limit).blocks.Keys
  {
    var x, y, n, p := Shortest(s, x0, y0);
    order := OrderWith(s, db, fs, given, x, y, n, p);
    order' := OrderWithout(s, db, fs, given, x, y, n, p);
  }

  lemma {:induction false} LastOnChain(s: Start, a: U64)
    ensures OnChain(s, a, Last(s, a))
    decreases UT64_MAX - a
  {
    if HasNext(s, a) {
      LastOnChain(s, a + s.blocks[a].size);
    }
  }

  lemma OverlongChain(s: Start) returns (x: U64, y: U64)
    requires !Unlimited(s)
    ensures Overlong(s, x, y) && x != y
  {
    x :| x in s.blocks && HasNext(s, x) && Last(s, x) in s.blocks
         && Last(s, x) + s.blocks[Last(s, x)].size - x > s.limit;
    y := Last(s, x);
    LastOnChain(s, x);
    LastEnd(s, x + s.blocks[x].size);
  }

  // ----- main results

  /** Any two runs that have nothing left to merge end with the same blocks. */
  ghost predicate RunsAgree(db: Db, fs: set<FcnId>, given: seq<U64>, maxSize: nat) {
    forall states: seq<Db>, states': seq<Db> {:trigger Completes(states, db, fs, given, maxSize), Completes(states', db, fs, given, maxSize)} ::
      Completes(states, db, fs, given, maxSize) && Completes(states', db, fs, given, maxSize) ==>
        SameBlocks(states[|states| - 1].blocks, states'[|states'| - 1].blocks)
  }

  /** Any two orders of the given blocks lead to the same blocks. */
  ghost predicate OrdersAgree(db: Db, fs: set<FcnId>, given: seq<U64>, maxSize: nat) {
    forall order: seq<U64>, order': seq<U64> :: IsOrder(order, given) && IsOrder(order', given) ==>
      SameBlocks(ByOrder(db, fs, order, maxSize).blocks, ByOrder(db, fs, order', maxSize).blocks)
  }

  /** Where the order does not matter, the instructions are the same as well. */
  lemma SameOutcome(db: Db, fs: set<FcnId>, given: seq<U64>, maxSize: nat, states: seq<Db>, states': seq<Db>)
    requires Linked(db) && NoSelfMerge(db, fs, given) && Unlimited(StartOf(db, fs, given, maxSize))
    requires Completes(states, db, fs, given, maxSize) && Completes(states', db, fs, given, maxSize)
    ensures SameBlocks(states[|states| - 1].blocks, states'[|states'| - 1].blocks)
    ensures Legible(db, fs, given, maxSize) ==> SameInstrs(states[|states| - 1].blocks, states'[|states'| - 1].blocks)
  {
    RunKeeps(states, fs, given, maxSize);
    RunKeeps(states', fs, given, maxSize);
    PassCollapses(states, fs, given, maxSize);
    PassCollapses(states', fs, given, maxSize);
    CollapsedSame(StartOf(db, fs, given, maxSize), states[|states| - 1].blocks, states'[|states'| - 1].blocks);
  }

  lemma AgreeingOrders(db: Db, fs: set<FcnId>, given: seq<U64>, maxSize: nat, order: seq<U64>, order': seq<U64>)
    requires Linked(db) && NoSelfMerge(db, fs, given) && RunsAgree(db, fs, given, maxSize)
    requires IsOrder(order, given) && IsOrder(order', given)
    ensures SameBlocks(ByOrder(db, fs, order, maxSize).blocks, ByOrder(db, fs, order', maxSize).blocks)
  {
    OrderCompletes(db, fs, given, order, maxSize);
    OrderCompletes(db, fs, given, order', maxSize);
  }

  /** The pass leaves the same blocks however it proceeds, if and only if every chain whose neighbours fit together fits
      as a whole; and orders of the given blocks are enough to tell. */
  lemma OrderDoesNotMatter(db: Db, fs: set<FcnId>, given: seq<U64>, maxSize: nat)
    requires Linked(db) && NoSelfMerge(db, fs, given) && Distinct(given)
    ensures Unlimited(StartOf(db, fs, given, maxSize)) <==> RunsAgree(db, fs, given, maxSize)
    ensures Unlimited(StartOf(db, fs, given, maxSize)) <==> OrdersAgree(db, fs, given, maxSize)
  {
    var s := StartOf(db, fs, given, maxSize);
    if Unlimited(s) {
      forall states: seq<Db>, states': seq<Db> | Completes(states, db, fs, given, maxSize) && Completes(states', db, fs, given, maxSize)
        ensures SameBlocks(states[|states| - 1].blocks, states'[|states'| - 1].blocks)
      {
        SameOutcome(db, fs, given, maxSize, states, states');
      }
    }
    if RunsAgree(db, fs, given, maxSize) {
      forall order: seq<U64>, order': seq<U64> | IsOrder(order, given) && IsOrder(order', given)
        ensures SameBlocks(ByOrder(db, fs, order, maxSize).blocks, ByOrder(db, fs, order', maxSize).blocks)
      {
        AgreeingOrders(db, fs, given, maxSize, order, order');
      }
    }
    if !Unlimited(s) {
      var x, y := OverlongChain(s);
      var order, order' := TwoOrders(s, db, fs, given, x, y);
      assert !OrdersAgree(db, fs, given, maxSize);
    }
  }

  // ----- an example

  function TenBytes(jump: U64): Block {
    Block(10, jump, UT64_MAX, None, NewCode(), 2, [7])
  }

  /** One function with three adjacent blocks of ten bytes, each leading to the next. */
  function ThreeBlocks(): Db {
    Db(map[0 := TenBytes(10), 10 := TenBytes(20), 20 := TenBytes(UT64_MAX)], map[7 := Fcn(0, [0, 10, 20], UT64_MAX, 0)])
  }

  lemma ThreeLinked()
    ensures Linked(ThreeBlocks())
  {
    var db := ThreeBlocks();
    forall a | a in db.blocks ensures BlockLinked(db, a) {}
    forall f | f in db.fcns ensures FcnLinked(db, f) {}
  }

  lemma ThreeScope()
    ensures Scope(ThreeBlocks(), {7}) == {0, 10, 20}
  {
    var db := ThreeBlocks();
    assert db.fcns[7].bbs == [0, 10, 20] && 7 in {7} && 7 in db.fcns;
  }

  lemma ThreeFlow()
    ensures FlowOf(ThreeBlocks().blocks, {0, 10, 20}) == map[0 := [10], 10 := [20], 20 := []]
  {
    JumpOnly(TenBytes(10), 10);
    JumpOnly(TenBytes(20), 20);
    NoSuccessors(TenBytes(UT64_MAX));
  }

  lemma ThreeSole(g: Adjacency)
    requires g == map[0 := [10], 10 := [20], 20 := []]
    ensures Sole(g, 0, 10) && Sole(g, 10, 20)
  {
  }

  lemma ThreeStep(a: U64, b: U64)
    requires (a, b) == (0, 10) || (a, b) == (10, 20)
    ensures MergesAlong(ThreeBlocks(), {7}, a, b, 20)
  {
    var db := ThreeBlocks();
    ThreeLinked();
    ThreeScope();
    ThreeFlow();
    ThreeSole(FlowOf(db.blocks, Scope(db, {7})));
    JumpOnly(TenBytes(10), 10);
    JumpOnly(TenBytes(20), 20);
  }

  lemma MergedSizes(db: Db, a: U64, b: U64)
    requires a in db.blocks && b in db.blocks && a != b
    ensures var blocks := AfterMerge(db, a, b).blocks;
            && blocks.Keys == db.blocks.Keys - {b} && blocks[a].size == db.blocks[a].size + db.blocks[b].size
            && forall c :: c in blocks && c != a ==> blocks[c].size == db.blocks[c].size
  {
  }

  lemma NoneFits(blocks: BlockMap, a: U64, b: U64)
    requires (a, b) == (0, 10) || (a, b) == (10, 20)
    requires blocks.Keys == {0, 10, 20} - {b} && blocks[a].size == 20
    requires forall c :: c in blocks && c != a ==> blocks[c].size == 10
    ensures forall p: U64, t: U64 :: !CanMerge(blocks, p, t, 20)
  {
    forall p: U64, t: U64 ensures !CanMerge(blocks, p, t, 20) {
      if p in blocks && t in blocks && p != t {
        assert p == a || t == a;
      }
    }
  }

  /** One merge is all the limit allows. */
  lemma ThreeCompletes(db: Db, a: U64, b: U64)
    requires (a, b) == (0, 10) || (a, b) == (10, 20)
    requires db.blocks.Keys == {0, 10, 20} && (forall c :: c in db.blocks ==> db.blocks[c].size == 10)
    requires MergesAlong(db, {7}, a, b, 20)
    ensures Completes([db, AfterMerge(db, a, b)], db, {7}, [0, 10, 20], 20)
    ensures AfterMerge(db, a, b).blocks.Keys == {0, 10, 20} - {b}
  {
    var next := AfterMerge(db, a, b);
    MergedSizes(db, a, b);
    NoneFits(next.blocks, a, b);
    OneStepCompletes(db, next, [0, 10, 20], a, b);
  }

  lemma OneStepCompletes(db: Db, next: Db, given: seq<U64>, a: U64, b: U64)
    requires MergesAlong(db, {7}, a, b, 20) && next == AfterMerge(db, a, b) && b in given
    requires forall p: U64, t: U64 :: !CanMerge(next.blocks, p, t, 20)
    ensures Completes([db, next], db, {7}, given, 20)
  {
    assert PassStep(db, next, {7}, given, 20);
  }

  /** Three adjacent blocks and a limit of two of them: the pass can end with the first two or with the last two merged. */
  lemma LimitBinds() returns (first: Db, last: Db)
    ensures Completes([ThreeBlocks(), first], ThreeBlocks(), {7}, [0, 10, 20], 20) && first.blocks.Keys == {0, 20}
    ensures Completes([ThreeBlocks(), last], ThreeBlocks(), {7}, [0, 10, 20], 20) && last.blocks.Keys == {0, 10}
  {
    ThreeStep(0, 10);
    ThreeStep(10, 20);
    first, last := BothMerges(ThreeBlocks());
  }

  lemma BothMerges(db: Db) returns (first: Db, last: Db)
    requires db.blocks.Keys == {0, 10, 20} && (forall c :: c in db.blocks ==> db.blocks[c].size == 10)
    requires MergesAlong(db, {7}, 0, 10, 20) && MergesAlong(db, {7}, 10, 20, 20)
    ensures Completes([db, first], db, {7}, [0, 10, 20], 20) && first.blocks.Keys == {0, 20}
    ensures Completes([db, last], db, {7}, [0, 10, 20], 20) && last.blocks.Keys == {0, 10}
  {
    first, last := AfterMerge(db, 0, 10), AfterMerge(db, 10, 20);
    ThreeCompletes(db, 0, 10);
    ThreeCompletes(db, 10, 20);
  }
}
