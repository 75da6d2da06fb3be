/** Basic blocks as values. A block's identity is its start address, which is the key of the map that holds it. */
module Blocks {
  import opened Machine

  type FcnId = nat

  /** Compact instruction data: `opPos[i-1]` is the offset of instruction i > 0, `spDelta[i]` the stack delta after i. */
  datatype Code = Code(ninstr: nat, opPos: seq<U16>, spEntry: int, spDelta: seq<S16>)

  datatype Block = Block(
    size: nat,
    jump: U64,
    fail: U64,
    cases: Option<seq<U64>>,
    code: Code,
    refs: nat,
    fcns: seq<FcnId>)

  type BlockMap = map<U64, Block>

  /** Skips the "no address" marker. */
  function Targets(addrs: seq<U64>): (r: seq<U64>)
    ensures UT64_MAX !in r
    ensures forall a :: a in addrs && a != UT64_MAX ==> a in r
    ensures forall a :: a in r ==> a in addrs
  {
    if addrs == [] then []
    else if addrs[0] == UT64_MAX then Targets(addrs[1..])
    else [addrs[0]] + Targets(addrs[1..])
  }

  /** The addresses handed to the successor callback, in order and with repetitions. */
  function Successors(b: Block): (r: seq<U64>) {
    Targets([b.jump, b.fail] + if b.cases.Some? then b.cases.value else [])
  }

  // ----- which addresses these are

  /** How often a block names `t` as its jump, its fail address or a case of its switch. */
  function Times(b: Block, t: U64): nat {
    (if b.jump == t then 1 else 0) + (if b.fail == t then 1 else 0) + if b.cases.Some? then multiset(b.cases.value)[t] else 0
  }

  lemma {:induction false} TargetsCount(addrs: seq<U64>, t: U64)
    ensures multiset(Targets(addrs))[t] == if t == UT64_MAX then 0 else multiset(addrs)[t]
  {
    if addrs != [] {
      TargetsCount(addrs[1..], t);
      assert addrs == [addrs[0]] + addrs[1..];
      assert multiset(addrs) == multiset{addrs[0]} + multiset(addrs[1..]);
    }
  }

  lemma {:induction false} TargetsConcat(a: seq<U64>, b: seq<U64>)
    ensures Targets(a + b) == Targets(a) + Targets(b)
  {
    if a == [] {
      assert a + b == b;
    } else {
      TargetsConcat(a[1..], b);
      TargetsCons(a[0], a[1..]);
      TargetsCons(a[0], a[1..] + b);
      assert a == [a[0]] + a[1..] && a + b == [a[0]] + (a[1..] + b);
      var first := if a[0] == UT64_MAX then [] else [a[0]];
      assert first + (Targets(a[1..]) + Targets(b)) == (first + Targets(a[1..])) + Targets(b);
    }
  }

  lemma TargetsCons(a: U64, rest: seq<U64>)
    ensures Targets([a] + rest) == (if a == UT64_MAX then [] else [a]) + Targets(rest)
  {
    assert ([a] + rest)[1..] == rest;
  }

  /** A block has each address as often as it names it, but never the marker. */
  lemma SuccessorsExact(b: Block, t: U64)
    ensures multiset(Successors(b))[t] == if t == UT64_MAX then 0 else Times(b, t)
    ensures t in Successors(b) <==>
            t != UT64_MAX && (t == b.jump || t == b.fail || (b.cases.Some? && t in b.cases.value))
  {
    var cases := if b.cases.Some? then b.cases.value else [];
    TargetsCount([b.jump, b.fail] + cases, t);
    assert multiset([b.jump, b.fail] + cases) == multiset{b.jump, b.fail} + multiset(cases);
    assert t in Successors(b) <==> multiset(Successors(b))[t] > 0;
  }

  lemma TargetsOne(a: U64)
    ensures Targets([a]) == if a == UT64_MAX then [] else [a]
  {
    assert [a][1..] == [] && Targets([]) == [];
  }

  /** The jump comes first, then the fail address, then the cases in their order. */
  lemma SuccessorsInOrder(b: Block)
    ensures Successors(b) == (if b.jump == UT64_MAX then [] else [b.jump]) + (if b.fail == UT64_MAX then [] else [b.fail])
                             + Targets(if b.cases.Some? then b.cases.value else [])
  {
    TargetsConcat([b.jump, b.fail], if b.cases.Some? then b.cases.value else []);
    assert [b.jump, b.fail] == [b.jump] + [b.fail];
    TargetsConcat([b.jump], [b.fail]);
    TargetsOne(b.jump);
    TargetsOne(b.fail);
  }

  /** The block graph: the successor addresses of every block. */
  type Adjacency = map<U64, seq<U64>>

  function GraphOf(blocks: BlockMap): (g: Adjacency)
  {
    map a | a in blocks :: Successors(blocks[a])
  }

  /** The block at `a` names `t` as a target. */
  ghost predicate Names(blocks: BlockMap, a: U64, t: U64) {
    a in blocks && t != UT64_MAX
    && (t == blocks[a].jump || t == blocks[a].fail || (blocks[a].cases.Some? && t in blocks[a].cases.value))
  }

  lemma GraphEdge(blocks: BlockMap, a: U64, t: U64)
    ensures a in GraphOf(blocks) <==> a in blocks
    ensures a in blocks ==> (t in GraphOf(blocks)[a] <==> Names(blocks, a, t))
    ensures a in blocks ==> multiset(GraphOf(blocks)[a])[t] == if t == UT64_MAX then 0 else Times(blocks[a], t)
  {
    if a in blocks {
      SuccessorsExact(blocks[a], t);
    }
  }
}
