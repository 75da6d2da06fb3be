/** What each call on the store changes, field by field, and what it leaves alone. */
module StoreEffects {
  import opened Machine
  import opened Blocks
  import opened BlockCode
  import opened Store
  import opened Ranges
  import opened Runs

  /** Same flow and instructions. */
  ghost predicate SameContent(b: Block, c: Block) {
    c.jump == b.jump && c.fail == b.fail && c.cases == b.cases && c.code == b.code
  }

  /** Same functions and references. */
  ghost predicate SameHold(b: Block, c: Block) {
    c.fcns == b.fcns && c.refs == b.refs
  }

  /** Blocks that do not start at one of `at` are as they were. */
  ghost predicate OthersStay(db: Db, r: Db, at: set<U64>) {
    forall c :: c !in at ==> (c in r.blocks <==> c in db.blocks) && (c in db.blocks && c in r.blocks ==> r.blocks[c] == db.blocks[c])
  }

  /** The functions are the same, at the same addresses, and those that do not hold block `a` are untouched. */
  ghost predicate FcnsStay(db: Db, r: Db, a: U64)
    requires a in db.blocks
  {
    && r.fcns.Keys == db.fcns.Keys
    && forall f :: f in db.fcns && f in r.fcns ==>
         r.fcns[f].addr == db.fcns[f].addr && (f !in db.blocks[a].fcns ==> r.fcns[f] == db.fcns[f])
  }

  lemma CreatedEffect(db: Db, a: U64, size: nat)
    requires a !in db.blocks
    ensures var r := CreatedBlock(db, a, size);
            && r.fcns == db.fcns && OthersStay(db, r, {a}) && a in r.blocks
            && r.blocks[a].size == size && r.blocks[a].jump == UT64_MAX && r.blocks[a].fail == UT64_MAX
            && r.blocks[a].cases == None && r.blocks[a].code.ninstr == 0 && r.blocks[a].code.spEntry == STACK_ADDR_INVALID
            && r.blocks[a].refs == 1 && r.blocks[a].fcns == []
  {
  }

  lemma AddedEffect(db: Db, f: FcnId, a: U64)
    requires a in db.blocks && f in db.fcns
    ensures f in db.blocks[a].fcns ==> AddedBlock(db, f, a) == db
    ensures f !in db.blocks[a].fcns ==>
              var b, r := db.blocks[a], AddedBlock(db, f, a);
              && OthersStay(db, r, {a}) && a in r.blocks && SameContent(b, r.blocks[a]) && r.blocks[a].size == b.size
              && r.blocks[a].fcns == b.fcns + [f] && r.blocks[a].refs == b.refs + 1
              && r.fcns.Keys == db.fcns.Keys && (forall g :: g in db.fcns && g != f ==> r.fcns[g] == db.fcns[g])
              && r.fcns[f].addr == db.fcns[f].addr && r.fcns[f].bbs == db.fcns[f].bbs + [a]
  {
  }

  lemma RemovedEffect(db: Db, f: FcnId, a: U64)
    requires Linked(db) && a in db.blocks && f in db.blocks[a].fcns
    ensures f in db.fcns && db.blocks[a].refs > 0
    ensures var b, r := db.blocks[a], RemovedBlock(db, f, a);
            && OthersStay(db, r, {a}) && (a in r.blocks <==> b.refs > 1)
            && (a in r.blocks ==> SameContent(b, r.blocks[a]) && r.blocks[a].size == b.size && r.blocks[a].refs == b.refs - 1
                                  && forall g :: g in r.blocks[a].fcns <==> g in b.fcns && g != f)
            && r.fcns.Keys == db.fcns.Keys && (forall g :: g in db.fcns && g != f ==> r.fcns[g] == db.fcns[g])
            && r.fcns[f].addr == db.fcns[f].addr && forall c :: c in r.fcns[f].bbs <==> c in db.fcns[f].bbs && c != a
  {
    assert BlockLinked(db, a) && FcnLinked(db, f);
    WithoutDistinct(db.blocks[a].fcns, f);
    WithoutDistinct(db.fcns[f].bbs, a);
  }

  lemma ReffedEffect(db: Db, a: U64)
    requires a in db.blocks
    ensures var b, r := db.blocks[a], Reffed(db, a);
            && r.fcns == db.fcns && OthersStay(db, r, {a}) && a in r.blocks && SameContent(b, r.blocks[a])
            && r.blocks[a].size == b.size && r.blocks[a].fcns == b.fcns && r.blocks[a].refs == b.refs + 1
  {
  }

  lemma UnreffedEffect(db: Db, a: U64)
    requires Linked(db) && a in db.blocks && db.blocks[a].refs > |db.blocks[a].fcns|
    ensures var b, r := db.blocks[a], Unreffed(db, a);
            && r.fcns == db.fcns && OthersStay(db, r, {a}) && (a in r.blocks <==> b.refs > 1)
            && (a in r.blocks ==> SameContent(b, r.blocks[a]) && r.blocks[a].size == b.size
                                  && r.blocks[a].fcns == b.fcns && r.blocks[a].refs == b.refs - 1)
  {
  }

  lemma DeletedEffect(db: Db, a: U64)
    requires Linked(db) && a in db.blocks
    ensures var b, r := db.blocks[a], DeletedBlock(db, a);
            && FcnsStay(db, r, a) && OthersStay(db, r, {a}) && (a in r.blocks <==> b.refs > |b.fcns|)
            && (a in r.blocks ==> SameContent(b, r.blocks[a]) && r.blocks[a].size == b.size
                                  && r.blocks[a].fcns == [] && r.blocks[a].refs == b.refs - |b.fcns|)
            && forall f, c :: f in db.fcns ==> (c in r.fcns[f].bbs <==> c in db.fcns[f].bbs && c != a)
  {
    assert BlockLinked(db, a);
    forall f, c | f in db.fcns ensures c in DeletedBlock(db, a).fcns[f].bbs <==> c in db.fcns[f].bbs && c != a {
      assert FcnLinked(db, f);
      WithoutDistinct(db.fcns[f].bbs, a);
    }
  }

  lemma FreedEffect(db: Db, f: FcnId)
    requires Linked(db) && f in db.fcns
    ensures var r := FreedFcn(db, f);
            && r.fcns == db.fcns - {f}
            && (forall a :: a in r.blocks <==> a in db.blocks && !(f in db.blocks[a].fcns && db.blocks[a].refs == 1))
            && (forall a :: a in r.blocks && f !in db.blocks[a].fcns ==> r.blocks[a] == db.blocks[a])
            && forall a :: a in r.blocks && f in db.blocks[a].fcns ==>
                 SameContent(db.blocks[a], r.blocks[a]) && r.blocks[a].size == db.blocks[a].size
                 && r.blocks[a].refs == db.blocks[a].refs - 1
                 && forall g :: g in r.blocks[a].fcns <==> g in db.blocks[a].fcns && g != f
  {
    var r := FreedFcn(db, f);
    forall a | a in db.blocks ensures 0 < db.blocks[a].refs && f !in Without(db.blocks[a].fcns, f) {
      assert BlockLinked(db, a);
      WithoutDistinct(db.blocks[a].fcns, f);
    }
  }

  lemma SetSizedEffect(db: Db, a: U64, size: nat)
    requires a in db.blocks
    ensures var r := SetSized(db, a, size);
            && FcnsStay(db, r, a) && OthersStay(db, r, {a}) && a in r.blocks
            && r.blocks[a].size == size && SameContent(db.blocks[a], r.blocks[a]) && SameHold(db.blocks[a], r.blocks[a])
            && forall f :: f in db.fcns ==> r.fcns[f].bbs == db.fcns[f].bbs
  {
  }

  /** A moved block has the new size and nothing else about it has changed. */
  lemma RelocatedEffect(db: Db, a: U64, to: U64, size: nat)
    requires a in db.blocks
    ensures to != a && to in db.blocks ==> Relocated(db, a, to, size) == db
    ensures to == a || to !in db.blocks ==>
              var r := Relocated(db, a, to, size);
              && FcnsStay(db, r, a) && OthersStay(db, r, {a, to}) && to in r.blocks && (to != a ==> a !in r.blocks)
              && r.blocks[to].size == size && SameContent(db.blocks[a], r.blocks[to]) && SameHold(db.blocks[a], r.blocks[to])
              && (forall f :: f in db.fcns ==> |r.fcns[f].bbs| == |db.fcns[f].bbs|)
              && forall f, i :: f in db.fcns && 0 <= i < |db.fcns[f].bbs| && i < |r.fcns[f].bbs| ==>
                   r.fcns[f].bbs[i] == if f in db.blocks[a].fcns && db.fcns[f].bbs[i] == a then to else db.fcns[f].bbs[i]
  {
  }

  lemma SplitEffect(db: Db, a: U64, at: U64, head: Code, tail: Code)
    requires CanSplit(db, a, at)
    ensures var b, r := db.blocks[a], SplitDb(db, a, at, head, tail);
            && FcnsStay(db, r, a) && OthersStay(db, r, {a, at}) && a in r.blocks && at in r.blocks
            && r.blocks[a].size == at - a && r.blocks[a].code == head && SameHold(b, r.blocks[a])
            && r.blocks[a].jump == at && r.blocks[a].fail == UT64_MAX && r.blocks[a].cases == None
            && r.blocks[at].size == a + b.size - at && r.blocks[at].code == tail && r.blocks[at].fcns == b.fcns
            && r.blocks[at].jump == b.jump && r.blocks[at].fail == b.fail && r.blocks[at].cases == b.cases
            && r.blocks[at].refs == |b.fcns| + 1
            && forall f :: f in db.fcns && f in b.fcns ==> r.fcns[f].bbs == db.fcns[f].bbs + [at]
  {
  }

  lemma MergedEffect(db: Db, a: U64, b: U64, code: Code)
    requires Linked(db) && a in db.blocks && b in db.blocks && a != b
    ensures var A, B, r := db.blocks[a], db.blocks[b], MergedDb(db, a, b, code);
            && FcnsStay(db, r, b) && OthersStay(db, r, {a, b}) && a in r.blocks && b !in r.blocks
            && r.blocks[a].size == A.size + B.size && r.blocks[a].code == code && SameHold(A, r.blocks[a])
            && r.blocks[a].jump == B.jump && r.blocks[a].fail == B.fail && r.blocks[a].cases == B.cases
            && forall f :: f in db.fcns && f in B.fcns ==>
                 r.fcns[f].min == UT64_MAX && forall c :: c in r.fcns[f].bbs <==> c in db.fcns[f].bbs && c != b
  {
    var r := MergedDb(db, a, b, code);
    forall f | f in db.fcns && f in db.blocks[b].fcns
      ensures forall c :: c in r.fcns[f].bbs <==> c in db.fcns[f].bbs && c != b
    {
      assert FcnLinked(db, f);
      WithoutDistinct(db.fcns[f].bbs, b);
    }
  }

  // ----- over a run

  /** Each call does what it is named after. */
  lemma ExecDoes(db: Db, call: Call)
    requires Linked(db) && Allowed(db, call)
    ensures var r := Exec(db, call);
            && (call.CreateBlock? ==> call.a in r.blocks)
            && (call.NewFunction? ==> call.f in r.fcns && r.fcns[call.f].addr == call.addr && r.fcns[call.f].bbs == [])
            && (call.FreeFunction? ==> call.f !in r.fcns)
            && (call.AddBlock? ==> call.a in r.blocks && call.f in r.blocks[call.a].fcns)
            && (call.RemoveBlock? ==> call.a !in r.blocks || call.f !in r.blocks[call.a].fcns)
            && (call.DeleteBlock? ==> call.a !in r.blocks || r.blocks[call.a].fcns == [])
            && (call.SetSize? ==> call.a in r.blocks && r.blocks[call.a].size == call.size)
            && (call.Relocate? && (call.to == call.a || call.to !in db.blocks) ==>
                  call.to in r.blocks && r.blocks[call.to].size == call.size)
            && (call.Split? ==> call.a in r.blocks && call.at in r.blocks && r.blocks[call.a].size == call.at - call.a)
            && (call.Merge? ==> call.b !in r.blocks && call.a in r.blocks
                                && r.blocks[call.a].size == db.blocks[call.a].size + db.blocks[call.b].size)
            && (call.Recompute? ==> call.f in r.fcns && r.fcns[call.f].min == call.min && r.fcns[call.f].max == call.max)
  {
    match call {
      case RemoveBlock(f, a) => RemovedEffect(db, f, a);
      case _ =>
    }
  }

  function Given(call: Call, a: U64): int {
    match call
    case Ref(c) => if c == a then 1 else 0
    case Unref(c) => if c == a then -1 else 0
    case _ => 0
  }

  /** Only taking and giving up a reference changes how many of them belong to others than the functions. */
  lemma SpareKept(db: Db, call: Call, a: U64)
    requires Linked(db) && Allowed(db, call) && a in db.blocks && a in Exec(db, call).blocks
    ensures Spare(Exec(db, call).blocks[a]) == Spare(db.blocks[a]) + Given(call, a)
  {
    assert BlockLinked(db, a);
    match call {
      case RemoveBlock(f, c) => RemovedEffect(db, f, c);
      case FreeFunction(f) => FreedEffect(db, f);
      case _ =>
    }
  }

  ghost predicate StaysIn(db: Db, calls: seq<Call>, a: U64)
    requires AllAllowed(db, calls)
    decreases |calls|
  {
    a in db.blocks && (calls != [] ==> StaysIn(Exec(db, calls[0]), calls[1..], a))
  }

  function AllGiven(calls: seq<Call>, a: U64): int {
    if calls == [] then 0 else Given(calls[0], a) + AllGiven(calls[1..], a)
  }

  /** As long as a block stays in the store, these are the ones it had, and those taken less those given up. */
  lemma {:induction false} RunSpare(db: Db, calls: seq<Call>, a: U64)
    requires Linked(db) && AllAllowed(db, calls) && StaysIn(db, calls, a)
    ensures a in ExecAll(db, calls).blocks
    ensures Spare(ExecAll(db, calls).blocks[a]) == Spare(db.blocks[a]) + AllGiven(calls, a)
    decreases |calls|
  {
    if calls != [] {
      SpareKept(db, calls[0], a);
      ExecLinked(db, calls[0]);
      RunSpare(Exec(db, calls[0]), calls[1..], a);
    }
  }
}
