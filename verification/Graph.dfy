/** Reachability and shortest paths over the block graph. */
module Graph {
  import opened Machine
  import opened Blocks

  // ----- paths

  /** A walk along successor addresses that all have a block. */
  ghost predicate IsPath(g: Adjacency, p: seq<U64>) {
    && p != []
    && (forall i :: 0 <= i < |p| ==> p[i] in g)
    && (forall i :: 0 <= i < |p| - 1 ==> p[i + 1] in g[p[i]])
  }

  /** A path of the block graph goes from block to block along the targets they name. */
  lemma PathOfBlocks(blocks: BlockMap, p: seq<U64>)
    ensures IsPath(GraphOf(blocks), p) <==>
            && p != [] && (forall i :: 0 <= i < |p| ==> p[i] in blocks)
            && forall i :: 0 <= i < |p| - 1 ==> Names(blocks, p[i], p[i + 1])
  {
    forall i | 0 <= i < |p| - 1 && p[i] in blocks
      ensures p[i + 1] in GraphOf(blocks)[p[i]] <==> Names(blocks, p[i], p[i + 1])
    {
      GraphEdge(blocks, p[i], p[i + 1]);
    }
  }

  ghost predicate PathBetween(g: Adjacency, p: seq<U64>, src: U64, dst: U64) {
    IsPath(g, p) && p[0] == src && p[|p| - 1] == dst
  }

  ghost predicate Reachable(g: Adjacency, src: U64, dst: U64) {
    exists p :: PathBetween(g, p, src, dst)
  }

  lemma ReachableRefl(g: Adjacency, a: U64)
    requires a in g
    ensures Reachable(g, a, a)
  {
    assert PathBetween(g, [a], a, a);
  }

  lemma ReachableStep(g: Adjacency, src: U64, a: U64, b: U64)
    requires Reachable(g, src, a) && b in g && b in g[a]
    ensures Reachable(g, src, b)
  {
    var p :| PathBetween(g, p, src, a);
    var q := p + [b];
    assert forall i :: 0 <= i < |q| - 1 ==> q[i + 1] in g[q[i]];
    assert PathBetween(g, q, src, b);
  }

  /** A set of blocks holding the source and closed under existing successors holds every reachable block. */
  lemma {:induction false} ClosedHoldsPath(g: Adjacency, s: set<U64>, p: seq<U64>)
    requires IsPath(g, p) && p[0] in s
    requires forall a, b :: a in s && a in g && b in g && b in g[a] ==> b in s
    ensures p[|p| - 1] in s
  {
    if |p| > 1 {
      var q := p[..|p| - 1];
      ClosedHoldsPath(g, s, q);
      assert p[|p| - 2 + 1] in g[p[|p| - 2]];
    }
  }

  // ----- rz_analysis_block_recurse

  /** One block's successors: marks each new address visited and pushes it when it has a block. */
  method PushSuccessors(g: Adjacency, succs: seq<U64>, seen: set<U64>, stack: seq<U64>)
    returns (seen': set<U64>, stack': seq<U64>)
    requires Distinct(stack) && forall a :: a in stack ==> a in seen
    ensures seen' == seen + set a | a in succs
    ensures stack <= stack' && Distinct(stack')
    ensures forall a :: a in stack' <==> a in stack || (a in succs && a in g && a !in seen)
  {
    seen', stack' := seen, stack;
    for k := 0 to |succs|
      invariant seen' == seen + set a | a in succs[..k]
      invariant stack <= stack' && Distinct(stack') && forall a :: a in stack' ==> a in seen'
      invariant forall a :: a in stack' <==> a in stack || (a in succs[..k] && a in g && a !in seen)
    {
      assert succs[..k + 1] == succs[..k] + [succs[k]];
      if succs[k] !in seen' {
        seen' := seen' + {succs[k]};
        if succs[k] in g {
          stack' := stack' + [succs[k]];
        }
      }
    }
    assert succs[..|succs|] == succs;
  }

  /**
   * Visits blocks until the callback refuses one. `order` lists the visited blocks; a run that no callback stopped
   * has visited exactly the reachable blocks, each once.
   */
  method BlockRecurse(g: Adjacency, start: U64, cb: U64 -> bool) returns (completed: bool, order: seq<U64>)
    requires start in g
    ensures Distinct(order) && order != [] && order[0] == start
    ensures forall a :: a in order ==> Reachable(g, start, a)
    ensures completed ==> forall a :: a in order <==> Reachable(g, start, a)
    ensures forall i :: 0 <= i < |order| ==> (cb(order[i]) <==> completed || i < |order| - 1)
  {
    var seen, stack := {start}, [start];
    completed, order := true, [];
    ReachableRefl(g, start);
    while stack != []
      invariant completed && Distinct(order) && Distinct(stack)
      invariant order == [] ==> stack == [start]
      invariant order != [] ==> order[0] == start
      invariant forall a :: a in stack ==> a !in order
      invariant forall a :: a in seen && a in g <==> a in order || a in stack
      invariant forall a :: a in order || a in stack ==> Reachable(g, start, a)
      invariant forall a, b :: a in order && b in g[a] ==> b in seen
      invariant forall a :: a in order ==> cb(a)
      invariant start in seen
      decreases g.Keys - set a | a in order
    {
      var cur := stack[|stack| - 1];
      ghost var before := order;
      var rest := stack[..|stack| - 1];
      assert forall a :: a in stack <==> a in rest || a == cur;
      assert cur !in rest;
      order := order + [cur];
      assert cur in g && cur !in before;
      assert cur in (g.Keys - set a | a in before) && cur !in (g.Keys - set a | a in order);
      if !cb(cur) {
        completed := false;
        break;
      }
      seen, stack := PushSuccessors(g, g[cur], seen, rest);
      forall a | a in stack && a !in rest ensures Reachable(g, start, a) {
        ReachableStep(g, start, cur, a);
      }
    }
    if completed {
      forall a | Reachable(g, start, a) ensures a in order {
        var p :| PathBetween(g, p, start, a);
        ClosedHoldsPath(g, (set b | b in order), p);
      }
    }
  }

  /** `rz_analysis_block_recurse_list`: the callback never stops, so the list is exactly the reachable blocks. */
  method BlockRecurseList(g: Adjacency, start: U64) returns (order: seq<U64>)
    requires start in g
    ensures Distinct(order) && order != [] && order[0] == start
    ensures forall a :: a in order <==> Reachable(g, start, a)
  {
    var goOn: U64 -> bool := _ => true;
    var completed;
    completed, order := BlockRecurse(g, start, goOn);
    assert goOn(order[|order| - 1]);
  }

  // ----- rz_analysis_block_shortest_path

  type Parents = map<U64, Option<U64>>

  /** `x` was discovered from a block one edge nearer to the start. */
  ghost predicate ChildOf(g: Adjacency, visited: Parents, dist: map<U64, nat>, x: U64)
    requires x in visited && visited.Keys == dist.Keys
  {
    && visited[x].Some?
    && var p := visited[x].value; p in g && p in dist && x in g[p] && dist[x] == dist[p] + 1
  }

  /** `visited` maps each discovered address to the block it was discovered from; `dist` counts the edges. */
  ghost predicate SearchTree(g: Adjacency, start: U64, visited: Parents, dist: map<U64, nat>) {
    && visited.Keys == dist.Keys
    && start in dist && visited[start].None? && dist[start] == 0
    && forall x {:trigger ChildOf(g, visited, dist, x)} :: x in visited && x != start ==> ChildOf(g, visited, dist, x)
  }

  lemma ExtendTree(g: Adjacency, start: U64, visited: Parents, dist: map<U64, nat>, cur: U64, a: U64)
    requires SearchTree(g, start, visited, dist)
    requires cur in g && cur in dist && a in g[cur] && a !in visited
    ensures SearchTree(g, start, visited[a := Some(cur)], dist[a := dist[cur] + 1])
  {
    var visited', dist' := visited[a := Some(cur)], dist[a := dist[cur] + 1];
    forall x | x in visited' && x != start ensures ChildOf(g, visited', dist', x) {
      assert x != a ==> ChildOf(g, visited, dist, x);
    }
  }

  /** `x` has been expanded: all its successors are discovered, at most one edge further. */
  ghost predicate Expanded(g: Adjacency, dist: map<U64, nat>, x: U64) {
    x in g && x in dist && forall y :: y in g[x] ==> y in dist && dist[y] <= dist[x] + 1
  }

  ghost predicate ExpandedBelow(g: Adjacency, dist: map<U64, nat>, d: nat) {
    forall x {:trigger Expanded(g, dist, x)} :: x in dist && x in g && dist[x] < d ==> Expanded(g, dist, x)
  }

  /** With every block nearer than the path's length expanded, the path cannot outrun the discovered distances. */
  lemma {:induction false} DistBoundsPath(g: Adjacency, start: U64, dist: map<U64, nat>, p: seq<U64>)
    requires IsPath(g, p) && p[0] == start
    requires start in dist && dist[start] == 0
    requires ExpandedBelow(g, dist, |p| - 1)
    ensures p[|p| - 1] in dist && dist[p[|p| - 1]] <= |p| - 1
  {
    if |p| > 1 {
      var q := p[..|p| - 1];
      DistBoundsPath(g, start, dist, q);
      assert p[|p| - 2 + 1] in g[p[|p| - 2]];
      assert Expanded(g, dist, p[|p| - 2]);
    }
  }

  ghost predicate NoShorterPath(g: Adjacency, start: U64, dst: U64, edges: nat) {
    forall p :: PathBetween(g, p, start, dst) ==> |p| - 1 >= edges
  }

  /** An address still undiscovered when level `d` is being expanded is more than `d` edges away. */
  lemma UndiscoveredIsFar(g: Adjacency, start: U64, dst: U64, dist: map<U64, nat>, d: nat)
    requires start in dist && dist[start] == 0 && dst !in dist
    requires ExpandedBelow(g, dist, d)
    ensures NoShorterPath(g, start, dst, d + 1)
  {
    forall p | PathBetween(g, p, start, dst) ensures |p| - 1 >= d + 1 {
      if |p| - 1 <= d {
        DistBoundsPath(g, start, dist, p);
      }
    }
  }

  /** `dist'` adds to `dist` only addresses at distance `d`. */
  ghost predicate Grows(dist: map<U64, nat>, dist': map<U64, nat>, d: nat) {
    && (forall x :: x in dist ==> x in dist' && dist'[x] == dist[x])
    && (forall x :: x in dist' && x !in dist ==> dist'[x] == d)
  }

  /** `next'` is `next` with the newly discovered addresses that have a block. */
  ghost predicate Queued(g: Adjacency, next: seq<U64>, next': seq<U64>, dist: map<U64, nat>, dist': map<U64, nat>) {
    forall x :: x in next' <==> x in next || (x in g && x in dist' && x !in dist)
  }

  /** One block's successors: the callback stops the enumeration right after discovering `dst`. */
  method DiscoverSuccessors(g: Adjacency, start: U64, dst: U64, cur: U64, next: seq<U64>,
                            visited: Parents, ghost dist: map<U64, nat>)
    returns (visited': Parents, next': seq<U64>, ghost dist': map<U64, nat>)
    requires SearchTree(g, start, visited, dist) && cur in g && cur in dist
    ensures SearchTree(g, start, visited', dist')
    ensures Grows(dist, dist', dist[cur] + 1) && Queued(g, next, next', dist, dist')
    ensures dst in dist || dst !in dist' ==> forall x :: x in g[cur] ==> x in dist'
  {
    visited', next', dist' := visited, next, dist;
    var succs := g[cur];
    for k := 0 to |succs|
      invariant SearchTree(g, start, visited', dist')
      invariant Grows(dist, dist', dist[cur] + 1) && Queued(g, next, next', dist, dist')
      invariant forall i :: 0 <= i < k ==> succs[i] in dist'
      invariant dst in dist || dst !in dist'
    {
      var a := succs[k];
      if a !in visited' {
        ExtendTree(g, start, visited', dist', cur, a);
        visited' := visited'[a := Some(cur)];
        dist' := dist'[a := dist'[cur] + 1];
        if a in g {
          next' := next' + [a];
        }
        if a == dst {
          break;
        }
      }
    }
  }

  /** What holds of the search while `dst` is undiscovered: levels below `d` and the blocks in `done` are expanded,
      the other discovered blocks wait in `cur` or `next`. */
  ghost predicate Frontier(g: Adjacency, dist: map<U64, nat>, d: nat, done: seq<U64>, cur: seq<U64>, next: seq<U64>) {
    && ExpandedBelow(g, dist, d)
    && (forall x :: x in done ==> Expanded(g, dist, x))
    && (forall x :: x in dist && x in g ==> dist[x] < d || x in cur || x in next)
  }

  lemma FrontierStep(g: Adjacency, dist: map<U64, nat>, dist': map<U64, nat>, d: nat,
                     done: seq<U64>, x: U64, cur: seq<U64>, next: seq<U64>, next': seq<U64>)
    requires Frontier(g, dist, d, done, cur, next)
    requires x in g && x in dist && dist[x] == d && forall y :: y in g[x] ==> y in dist'
    requires Grows(dist, dist', d + 1) && Queued(g, next, next', dist, dist')
    requires forall y :: y in dist ==> dist[y] <= d + 1
    ensures Frontier(g, dist', d, done + [x], cur, next')
  {
    forall y | (y in dist' && y in g && dist'[y] < d) || y in done ensures Expanded(g, dist', y) {
      assert Expanded(g, dist, y);
    }
    assert Expanded(g, dist', x);
  }

  ghost predicate AtLevel(g: Adjacency, dist: map<U64, nat>, level: seq<U64>, d: nat) {
    forall x :: x in level ==> x in g && x in dist && dist[x] == d
  }

  ghost predicate Within(dist: map<U64, nat>, d: nat) {
    forall x :: x in dist ==> dist[x] <= d
  }

  /** Once discovered, `dst` is at its true distance. */
  ghost predicate Settled(g: Adjacency, start: U64, dst: U64, dist: map<U64, nat>) {
    dst != start && dst in dist ==> NoShorterPath(g, start, dst, dist[dst])
  }

  /** In the middle of a level: `k` of its blocks are expanded. */
  ghost predicate Expanding(g: Adjacency, start: U64, dst: U64, cur: seq<U64>, k: nat, next: seq<U64>, visited: Parents,
                            dist0: map<U64, nat>, dist: map<U64, nat>, d: nat)
    requires k <= |cur|
  {
    && SearchTree(g, start, visited, dist) && Grows(dist0, dist, d + 1) && AtLevel(g, dist0, cur, d) && Within(dist0, d)
    && AtLevel(g, dist, next, d + 1) && Settled(g, start, dst, dist)
    && (dst !in dist ==> Frontier(g, dist, d, cur[..k], cur, next))
  }

  method ExpandOne(g: Adjacency, start: U64, dst: U64, cur: seq<U64>, k: nat, next: seq<U64>, visited: Parents,
                   ghost dist0: map<U64, nat>, ghost dist: map<U64, nat>, ghost d: nat)
    returns (visited': Parents, next': seq<U64>, ghost dist': map<U64, nat>)
    requires k < |cur| && Expanding(g, start, dst, cur, k, next, visited, dist0, dist, d)
    ensures Expanding(g, start, dst, cur, k + 1, next', visited', dist0, dist', d)
  {
    if dst !in dist {
      UndiscoveredIsFar(g, start, dst, dist, d);
    }
    visited', next', dist' := DiscoverSuccessors(g, start, dst, cur[k], next, visited, dist);
    if dst !in dist' {
      FrontierStep(g, dist, dist', d, cur[..k], cur[k], cur, next, next');
      assert cur[..k + 1] == cur[..k] + [cur[k]];
    }
  }

  /** Expands one whole level `cur`, collecting the next one. */
  method ExpandLevel(g: Adjacency, start: U64, dst: U64, cur: seq<U64>, visited: Parents,
                     ghost dist: map<U64, nat>, ghost d: nat)
    returns (visited': Parents, next: seq<U64>, ghost dist': map<U64, nat>)
    requires SearchTree(g, start, visited, dist)
    requires AtLevel(g, dist, cur, d) && Within(dist, d) && Settled(g, start, dst, dist)
    requires dst !in dist ==> Frontier(g, dist, d, [], cur, [])
    ensures SearchTree(g, start, visited', dist')
    ensures Grows(dist, dist', d + 1) && AtLevel(g, dist', next, d + 1) && Settled(g, start, dst, dist')
    ensures dst !in dist' ==> Frontier(g, dist', d, cur, cur, next)
  {
    visited', next, dist' := visited, [], dist;
    for k := 0 to |cur|
      invariant Expanding(g, start, dst, cur, k, next, visited', dist, dist', d)
    {
      visited', next, dist' := ExpandOne(g, start, dst, cur, k, next, visited', dist, dist', d);
    }
    assert cur[..|cur|] == cur;
  }

  lemma NextLevel(g: Adjacency, dist: map<U64, nat>, d: nat, cur: seq<U64>, next: seq<U64>)
    requires Frontier(g, dist, d, cur, cur, next) && AtLevel(g, dist, cur, d) && AtLevel(g, dist, next, d + 1)
    ensures Frontier(g, dist, d + 1, [], next, [])
  {
    forall x | x in dist && x in g && dist[x] < d + 1 ensures Expanded(g, dist, x) {
      assert x !in next;
    }
  }

  /** Follows the parent links back from `dst`. */
  method ReadBack(g: Adjacency, start: U64, dst: U64, visited: Parents, ghost dist: map<U64, nat>)
    returns (path: seq<U64>)
    requires SearchTree(g, start, visited, dist) && dst in dist && dst in g
    ensures PathBetween(g, path, start, dst) && |path| - 1 == dist[dst]
  {
    path := [dst];
    var prev := visited[dst];
    while prev.Some?
      invariant IsPath(g, path) && path[|path| - 1] == dst
      invariant path[0] in visited && prev == visited[path[0]]
      invariant |path| - 1 + dist[path[0]] == dist[dst]
      decreases dist[path[0]]
    {
      assert ChildOf(g, visited, dist, path[0]);
      path := [prev.value] + path;
      prev := visited[prev.value];
    }
    assert path[0] != start ==> ChildOf(g, visited, dist, path[0]);
  }

  /**
   * NULL exactly when `dst` has no block or cannot be reached; otherwise a real successor path with the fewest edges.
   * The breadth-first search stops enumerating one block's successors when it meets `dst`, and then goes on.
   */
  method ShortestPath(g: Adjacency, start: U64, dst: U64) returns (path: Option<seq<U64>>)
    requires start in g
    ensures path.Some? <==> dst in g && Reachable(g, start, dst)
    ensures path.Some? ==> PathBetween(g, path.value, start, dst)
    ensures path.Some? ==> forall p :: PathBetween(g, p, start, dst) ==> |path.value| <= |p|
  {
    var visited: Parents := map[start := None];
    ghost var dist: map<U64, nat> := map[start := 0];
    var cur := [start];
    ghost var d: nat := 0;
    ghost var unexpanded := g.Keys;
    while cur != []
      invariant SearchTree(g, start, visited, dist)
      invariant AtLevel(g, dist, cur, d) && Within(dist, d) && Settled(g, start, dst, dist)
      invariant dst !in dist ==> Frontier(g, dist, d, [], cur, [])
      invariant forall x :: x in g && x in dist && dist[x] == d ==> x in unexpanded
      invariant forall x :: x in g && x !in dist ==> x in unexpanded
      decreases unexpanded
    {
      var next;
      ghost var dist0 := dist;
      visited, next, dist := ExpandLevel(g, start, dst, cur, visited, dist, d);
      if dst !in dist {
        NextLevel(g, dist, d, cur, next);
      }
      unexpanded := unexpanded - set x | x in cur;
      assert cur[0] in dist0;
      cur := next;
      d := d + 1;
    }
    if dst in visited && dst in g {
      var p := ReadBack(g, start, dst, visited, dist);
      path := Some(p);
    } else {
      path := None;
      if dst in g {
        forall p ensures !PathBetween(g, p, start, dst) {
          if PathBetween(g, p, start, dst) {
            assert ExpandedBelow(g, dist, |p| - 1);
            DistBoundsPath(g, start, dist, p);
          }
        }
      }
    }
  }
}
