/** Whole runs of the merge pass: every order of the given blocks makes one, and every run can be completed. */
module MergeRuns {
  import opened Machine
  import opened Blocks
  import opened Store
  import opened MergePass
  import opened MergeOrder

  /** A run from `db` that has nothing left to merge. */
  ghost predicate Completes(states: seq<Db>, db: Db, fs: set<FcnId>, given: seq<U64>, maxSize: nat) {
    && PassRun(states, fs, given, maxSize) && states[0] == db
    && Complete(states[|states| - 1], fs, Members(given), maxSize)
  }

  /** All given blocks in some order. */
  ghost predicate IsOrder(order: seq<U64>, given: seq<U64>) {
    Distinct(order) && forall t :: t in order <==> t in given
  }

  /** The given blocks that are not among the first. */
  function Others(given: seq<U64>, first: seq<U64>): (r: seq<U64>)
    ensures forall t :: t in r <==> t in given && t !in first
    ensures Distinct(given) ==> Distinct(r)
  {
    if given == [] then []
    else
      var rest := Others(given[1..], first);
      assert forall t :: t in given <==> t == given[0] || t in given[1..];
      assert Distinct(given) ==> Distinct(given[1..]) && given[0] !in given[1..];
      if given[0] in first then rest else [given[0]] + rest
  }

  lemma FirstThenOthers(given: seq<U64>, first: seq<U64>)
    requires Distinct(given) && Distinct(first) && forall t :: t in first ==> t in given
    ensures IsOrder(first + Others(given, first), given)
  {
    var order := first + Others(given, first);
    forall i, j | 0 <= i < j < |order| ensures order[i] != order[j] {
      if i < |first| <= j {
        assert order[j] in Others(given, first) && order[i] in first;
      }
    }
  }

  lemma {:induction false} ByOrderConcat(db: Db, fs: set<FcnId>, x: seq<U64>, y: seq<U64>, maxSize: nat)
    ensures ByOrder(db, fs, x + y, maxSize) == ByOrder(ByOrder(db, fs, x, maxSize), fs, y, maxSize)
    decreases |x|
  {
    if x == [] {
      assert x + y == y;
    } else {
      ByOrderConcat(TurnOf(db, fs, x[0], maxSize), fs, x[1..], y, maxSize);
      assert (x + y)[0] == x[0] && (x + y)[1..] == x[1..] + y;
    }
  }

  // ----- every order is a run

  /** The stores a pass in the given order goes through. */
  ghost function RunOf(db: Db, fs: set<FcnId>, order: seq<U64>, maxSize: nat): (r: seq<Db>)
    ensures r != [] && r[0] == db && r[|r| - 1] == ByOrder(db, fs, order, maxSize)
    decreases |order|
  {
    if order == [] then [db]
    else
      var rest := RunOf(TurnOf(db, fs, order[0], maxSize), fs, order[1..], maxSize);
      if IsAbsorbed(db, fs, order[0], maxSize) then [db] + rest else rest
  }

  lemma TurnStep(db: Db, fs: set<FcnId>, given: seq<U64>, t: U64, maxSize: nat)
    requires IsAbsorbed(db, fs, t, maxSize) && t in given
    ensures PassStep(db, TurnOf(db, fs, t, maxSize), fs, given, maxSize)
  {
    var p: U64 :| MergesAlong(db, fs, p, t, maxSize);
    TurnIs(db, fs, p, t, maxSize);
  }

  lemma {:induction false} RunOfIsRun(db: Db, fs: set<FcnId>, given: seq<U64>, order: seq<U64>, maxSize: nat)
    requires forall t :: t in order ==> t in given
    ensures PassRun(RunOf(db, fs, order, maxSize), fs, given, maxSize)
    decreases |order|
  {
    if order != [] {
      var next := TurnOf(db, fs, order[0], maxSize);
      RunOfIsRun(next, fs, given, order[1..], maxSize);
      if IsAbsorbed(db, fs, order[0], maxSize) {
        TurnStep(db, fs, given, order[0], maxSize);
        PassRunCons(db, RunOf(next, fs, order[1..], maxSize), fs, given, maxSize);
      }
    }
  }

  lemma PassRunCons(db: Db, states: seq<Db>, fs: set<FcnId>, given: seq<U64>, maxSize: nat)
    requires PassRun(states, fs, given, maxSize) && PassStep(db, states[0], fs, given, maxSize)
    ensures PassRun([db] + states, fs, given, maxSize)
  {
    var r := [db] + states;
    forall i | 0 <= i < |r| - 1 ensures PassStep(r[i], r[i + 1], fs, given, maxSize) {
      assert i > 0 ==> PassStep(states[i - 1], states[i - 1 + 1], fs, given, maxSize);
    }
  }

  lemma PassRunTail(states: seq<Db>, fs: set<FcnId>, given: seq<U64>, maxSize: nat)
    requires PassRun(states, fs, given, maxSize) && |states| > 1
    ensures PassRun(states[1..], fs, given, maxSize)
  {
    var rest := states[1..];
    forall i | 0 <= i < |rest| - 1 ensures PassStep(rest[i], rest[i + 1], fs, given, maxSize) {
      assert PassStep(states[i + 1], states[i + 1 + 1], fs, given, maxSize);
    }
  }

  lemma PassRunConcat(x: seq<Db>, y: seq<Db>, fs: set<FcnId>, given: seq<U64>, maxSize: nat)
    requires PassRun(x, fs, given, maxSize) && PassRun(y, fs, given, maxSize) && x[|x| - 1] == y[0]
    ensures PassRun(x + y[1..], fs, given, maxSize)
  {
    var r := x + y[1..];
    forall i | 0 <= i < |r| - 1 ensures PassStep(r[i], r[i + 1], fs, given, maxSize) {
      if i < |x| - 1 {
        assert PassStep(x[i], x[i + 1], fs, given, maxSize);
      } else {
        assert PassStep(y[i + 1 - |x|], y[i + 1 - |x| + 1], fs, given, maxSize);
      }
    }
  }

  // ----- a pass over all given blocks is complete

  /** No block of `done` that is left could be merged. */
  ghost predicate Stuck(db: Db, fs: set<FcnId>, done: set<U64>, maxSize: nat) {
    forall t :: t in done && t in db.blocks ==> !Mergeable(db.blocks, FlowOf(db.blocks, Scope(db, fs)), maxSize, t)
  }

  lemma NotAbsorbed(db: Db, fs: set<FcnId>, given: seq<U64>, t: U64, maxSize: nat)
    requires NoSelfMerge(db, fs, given) && Linked(db) && t in given && !IsAbsorbed(db, fs, t, maxSize)
    ensures !Mergeable(db.blocks, FlowOf(db.blocks, Scope(db, fs)), maxSize, t)
  {
    var g := FlowOf(db.blocks, Scope(db, fs));
    forall p | Sole(g, p, t) && |g[p]| == 1 ensures !CanMerge(db.blocks, p, t, maxSize) {
      assert t in g[p];
      if CanMerge(db.blocks, p, t, maxSize) {
        assert p != t;
        assert MergesAlong(db, fs, p, t, maxSize);
      }
    }
  }

  lemma TurnStuck(db: Db, fs: set<FcnId>, given: seq<U64>, done: set<U64>, t: U64, maxSize: nat)
    requires Linked(db) && NoSelfMerge(db, fs, given) && t in given && Stuck(db, fs, done, maxSize)
    ensures var r := TurnOf(db, fs, t, maxSize);
            Linked(r) && NoSelfMerge(r, fs, given) && Stuck(r, fs, done + {t}, maxSize)
  {
    if IsAbsorbed(db, fs, t, maxSize) {
      var p :| MergesAlong(db, fs, p, t, maxSize);
      TurnIs(db, fs, p, t, maxSize);
      MergeLinked(db, p, t, maxSize);
      MergeNoSelf(db, fs, given, p, t, maxSize);
      MergedScope(db, fs, p, t, maxSize);
      forall u | u in done + {t} && u in AfterMerge(db, p, t).blocks
        ensures !Mergeable(AfterMerge(db, p, t).blocks, Fused(FlowOf(db.blocks, Scope(db, fs)), p, t), maxSize, u)
      {
        UnmergeableAfterFuse(db, fs, p, t, maxSize, u);
      }
    } else {
      NotAbsorbed(db, fs, given, t, maxSize);
    }
  }

  lemma {:induction false} OrderStuck(db: Db, fs: set<FcnId>, given: seq<U64>, done: set<U64>, order: seq<U64>, maxSize: nat)
    requires Linked(db) && NoSelfMerge(db, fs, given) && Stuck(db, fs, done, maxSize)
    requires forall t :: t in order ==> t in given
    ensures Stuck(ByOrder(db, fs, order, maxSize), fs, done + Members(order), maxSize)
    decreases |order|
  {
    if order == [] {
      assert done + Members(order) == done;
    } else {
      TurnStuck(db, fs, given, done, order[0], maxSize);
      OrderStuck(TurnOf(db, fs, order[0], maxSize), fs, given, done + {order[0]}, order[1..], maxSize);
      assert done + Members(order) == done + {order[0]} + Members(order[1..]);
    }
  }

  // ----- main results

  /** A pass over all given blocks, in any order, leaves nothing to merge. */
  lemma OrderCompletes(db: Db, fs: set<FcnId>, given: seq<U64>, order: seq<U64>, maxSize: nat)
    requires Linked(db) && NoSelfMerge(db, fs, given) && forall t :: t in order <==> t in given
    ensures Completes(RunOf(db, fs, order, maxSize), db, fs, given, maxSize)
  {
    RunOfIsRun(db, fs, given, order, maxSize);
    OrderStuck(db, fs, given, {}, order, maxSize);
    assert {} + Members(order) == Members(given);
  }

  lemma {:induction false} RunKeeps(states: seq<Db>, fs: set<FcnId>, given: seq<U64>, maxSize: nat)
    requires PassRun(states, fs, given, maxSize) && Linked(states[0]) && NoSelfMerge(states[0], fs, given)
    ensures Linked(states[|states| - 1]) && NoSelfMerge(states[|states| - 1], fs, given)
    decreases |states|
  {
    if |states| > 1 {
      assert PassStep(states[0], states[0 + 1], fs, given, maxSize);
      var a, b :| MergesAlong(states[0], fs, a, b, maxSize) && b in given && states[1] == AfterMerge(states[0], a, b);
      MergeLinked(states[0], a, b, maxSize);
      MergeNoSelf(states[0], fs, given, a, b, maxSize);
      PassRunTail(states, fs, given, maxSize);
      RunKeeps(states[1..], fs, given, maxSize);
    }
  }

  /** However far a pass got and however it proceeded, it can be completed. */
  lemma CompleteRun(states: seq<Db>, fs: set<FcnId>, given: seq<U64>, maxSize: nat) returns (more: seq<Db>)
    requires PassRun(states, fs, given, maxSize) && Linked(states[0]) && NoSelfMerge(states[0], fs, given)
    ensures Completes(states + more, states[0], fs, given, maxSize)
  {
    var mid := states[|states| - 1];
    RunKeeps(states, fs, given, maxSize);
    OrderCompletes(mid, fs, given, given, maxSize);
    var rest := RunOf(mid, fs, given, maxSize);
    PassRunConcat(states, rest, fs, given, maxSize);
    more := rest[1..];
    assert (states + more)[|states + more| - 1] == rest[|rest| - 1];
  }
}
