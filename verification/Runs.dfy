/** Arbitrary sequences of API calls on the store. */
module Runs {
  import opened Machine
  import opened Blocks
  import opened BlockCode
  import opened Store
  import opened Ranges

  /** One API call. Split and merge carry the instruction data they compute, a recomputation the range it finds. */
  datatype Call =
    | CreateBlock(a: U64, size: nat)
    | Ref(a: U64)
    | Unref(a: U64)
    | NewFunction(f: FcnId, addr: U64)
    | FreeFunction(f: FcnId)
    | AddBlock(f: FcnId, a: U64)
    | RemoveBlock(f: FcnId, a: U64)
    | DeleteBlock(a: U64)
    | SetSize(a: U64, size: nat)
    | Relocate(a: U64, to: U64, size: nat)
    | Split(a: U64, at: U64, head: Code, tail: Code)
    | Merge(a: U64, b: U64, code: Code, maxSize: nat)
    | Recompute(f: FcnId, min: nat, max: nat)

  /** What a caller has to guarantee: the arguments are live, and a reference given up is the caller's own. */
  ghost predicate Allowed(db: Db, call: Call) {
    match call
    case CreateBlock(_, _) => true
    case Ref(a) => a in db.blocks
    case Unref(a) => a in db.blocks && db.blocks[a].refs > |db.blocks[a].fcns|
    case NewFunction(f, _) => f !in db.fcns
    case FreeFunction(f) => f in db.fcns
    case AddBlock(f, a) => f in db.fcns && a in db.blocks
    case RemoveBlock(f, a) => a in db.blocks && f in db.blocks[a].fcns && f in db.fcns && db.blocks[a].refs > 0
    case DeleteBlock(a) => a in db.blocks
    case SetSize(a, _) => a in db.blocks
    case Relocate(a, _, _) => a in db.blocks
    case Split(a, at, _, _) => CanSplit(db, a, at)
    case Merge(a, b, _, maxSize) => CanMerge(db.blocks, a, b, maxSize) && a != b
    case Recompute(f, min, max) =>
      f in db.fcns && RangeOk(db.blocks, db.fcns[f].(min := min, max := max))
  }

  ghost function Exec(db: Db, call: Call): Db
    requires Allowed(db, call)
  {
    match call
    case CreateBlock(a, size) => CreatedBlock(db, a, size)
    case Ref(a) => Reffed(db, a)
    case Unref(a) => Unreffed(db, a)
    case NewFunction(f, addr) => db.(fcns := db.fcns[f := NewFcn(addr)])
    case FreeFunction(f) => FreedFcn(db, f)
    case AddBlock(f, a) => AddedBlock(db, f, a)
    case RemoveBlock(f, a) => RemovedBlock(db, f, a)
    case DeleteBlock(a) => DeletedBlock(db, a)
    case SetSize(a, size) => SetSized(db, a, size)
    case Relocate(a, to, size) => Relocated(db, a, to, size)
    case Split(a, at, head, tail) => SplitDb(db, a, at, head, tail)
    case Merge(a, b, code, _) => MergedDb(db, a, b, code)
    case Recompute(f, min, max) => db.(fcns := db.fcns[f := db.fcns[f].(min := min, max := max)])
  }

  /** Every prefix of the run satisfies `Allowed` for the next call. */
  ghost predicate AllAllowed(db: Db, calls: seq<Call>)
    decreases |calls|
  {
    calls != [] ==> Allowed(db, calls[0]) && AllAllowed(Exec(db, calls[0]), calls[1..])
  }

  ghost function ExecAll(db: Db, calls: seq<Call>): Db
    requires AllAllowed(db, calls)
    decreases |calls|
  {
    if calls == [] then db else ExecAll(Exec(db, calls[0]), calls[1..])
  }

  const EMPTY := Db(map[], map[])

  // ----- membership and references

  /** Changing only address and range of functions, or adding one without blocks, keeps the link. */
  lemma FcnsLinked(db: Db, fcns: map<FcnId, Fcn>)
    requires Linked(db) && db.fcns.Keys <= fcns.Keys
    requires forall f :: f in fcns ==> fcns[f].bbs == if f in db.fcns then db.fcns[f].bbs else []
    ensures Linked(db.(fcns := fcns))
  {
    var r := db.(fcns := fcns);
    forall c | c in r.blocks ensures BlockLinked(r, c) { assert BlockLinked(db, c); }
    forall g | g in r.fcns ensures FcnLinked(r, g) { assert g in db.fcns ==> FcnLinked(db, g); }
  }

  lemma ExecLinked(db: Db, call: Call)
    requires Linked(db) && Allowed(db, call)
    ensures Linked(Exec(db, call))
  {
    match call
    case CreateBlock(a, size) => CreatedBlockLinked(db, a, size);
    case Ref(a) => ReffedLinked(db, a);
    case Unref(a) => UnreffedLinked(db, a);
    case NewFunction(f, addr) => FcnsLinked(db, db.fcns[f := NewFcn(addr)]);
    case FreeFunction(f) => FreedFcnLinked(db, f);
    case AddBlock(f, a) => AddedBlockLinked(db, f, a);
    case RemoveBlock(f, a) => RemovedBlockLinked(db, f, a);
    case DeleteBlock(a) => DeletedBlockLinked(db, a);
    case SetSize(a, size) => SetSizedLinked(db, a, size);
    case Relocate(a, to, size) => RelocatedLinked(db, a, to, size);
    case Split(a, at, head, tail) => SplitLinked(db, a, at, head, tail);
    case Merge(a, b, code, maxSize) => MergedLinked(db, a, b, code, maxSize);
    case Recompute(f, min, max) => FcnsLinked(db, db.fcns[f := db.fcns[f].(min := min, max := max)]);
  }

  /** In every state of every run, functions and blocks list each other exactly once and each block's count covers
      its functions. */
  lemma {:induction false} RunLinked(db: Db, calls: seq<Call>)
    requires Linked(db) && AllAllowed(db, calls)
    ensures Linked(ExecAll(db, calls))
    decreases |calls|
  {
    if calls != [] {
      ExecLinked(db, calls[0]);
      RunLinked(Exec(db, calls[0]), calls[1..]);
    }
  }

  /** Number of references a call takes away from block `a`. */
  ghost function RefsTaken(db: Db, call: Call, a: U64): nat
    requires a in db.blocks
  {
    match call
    case Unref(c) => if c == a then 1 else 0
    case RemoveBlock(_, c) => if c == a then 1 else 0
    case DeleteBlock(c) => if c == a then |db.blocks[a].fcns| else 0
    case FreeFunction(f) => if f in db.blocks[a].fcns then 1 else 0
    case _ => 0
  }

  /** Outside merge and relocation a block leaves the store exactly when the call takes its last reference, and then
      no function lists it any more. */
  lemma LeavesAtZero(db: Db, call: Call, a: U64)
    requires Linked(db) && Allowed(db, call) && a in db.blocks && !call.Merge? && !call.Relocate?
    ensures a !in Exec(db, call).blocks <==> RefsTaken(db, call, a) == db.blocks[a].refs
    ensures a !in Exec(db, call).blocks ==> forall f :: f in Exec(db, call).fcns ==> a !in Exec(db, call).fcns[f].bbs
  {
    assert BlockLinked(db, a);
    var r := Exec(db, call);
    ExecLinked(db, call);
    match call {
      case Unref(c) => UnreffedLinked(db, c);
      case RemoveBlock(f, c) => RemovedBlockLinked(db, f, c);
      case DeleteBlock(c) => DeletedBlockLinked(db, c);
      case FreeFunction(f) => FreedFcnLinked(db, f);
      case _ =>
    }
    forall f | f in r.fcns ensures a !in r.blocks ==> a !in r.fcns[f].bbs {
      assert FcnLinked(r, f);
    }
  }

  // ----- cached ranges

  ghost predicate ResizesTracked(db: Db, a: U64, size: nat)
    requires a in db.blocks
  {
    forall f {:trigger db.fcns[f]} :: f in db.blocks[a].fcns && f in db.fcns && db.fcns[f].min != UT64_MAX ==>
      ResizeTracked(db.blocks, db.fcns[f], a, size)
  }

  ghost predicate MovesTracked(db: Db, a: U64, to: U64, size: nat)
    requires a in db.blocks
  {
    forall f {:trigger db.fcns[f]} :: f in db.blocks[a].fcns && f in db.fcns && db.fcns[f].min != UT64_MAX ==>
      MoveTracked(db.fcns[f], a, db.blocks[a].size, to, size)
  }

  /** The exact condition under which a call keeps every cached range exact. */
  ghost predicate RangeSafe(db: Db, call: Call)
    requires Allowed(db, call)
  {
    match call
    case SetSize(a, size) => ResizesTracked(db, a, size)
    case Relocate(a, to, size) =>
      if to == a then ResizesTracked(db, a, size) else to in db.blocks || MovesTracked(db, a, to, size)
    case _ => true
  }

  lemma SetSizeRanged(db: Db, a: U64, size: nat)
    requires Linked(db) && Ranged(db) && a in db.blocks
    ensures Ranged(SetSized(db, a, size)) <==> ResizesTracked(db, a, size)
  {
    var r := SetSized(db, a, size);
    assert BlockLinked(db, a) && r.fcns.Keys == db.fcns.Keys;
    forall f | f in db.fcns
      ensures RangeOk(r.blocks, r.fcns[f]) <==>
              (db.fcns[f].min == UT64_MAX || f !in db.blocks[a].fcns || ResizeTracked(db.blocks, db.fcns[f], a, size))
    {
      assert RangeOk(db.blocks, db.fcns[f]);
      SetSizedRange(db, a, size, f);
    }
    if Ranged(r) {
      forall f | f in db.blocks[a].fcns && db.fcns[f].min != UT64_MAX
        ensures ResizeTracked(db.blocks, db.fcns[f], a, size)
      {
        assert RangeOk(r.blocks, r.fcns[f]);
      }
    }
  }

  lemma RelocateRanged(db: Db, a: U64, to: U64, size: nat)
    requires Linked(db) && Ranged(db) && a in db.blocks && to !in db.blocks
    ensures Ranged(Relocated(db, a, to, size)) <==> MovesTracked(db, a, to, size)
  {
    var r := Relocated(db, a, to, size);
    assert BlockLinked(db, a) && r.fcns.Keys == db.fcns.Keys;
    forall f | f in db.fcns
      ensures RangeOk(r.blocks, r.fcns[f]) <==>
              (db.fcns[f].min == UT64_MAX || f !in db.blocks[a].fcns
               || MoveTracked(db.fcns[f], a, db.blocks[a].size, to, size))
    {
      assert RangeOk(db.blocks, db.fcns[f]);
      RelocatedRange(db, a, to, size, f);
    }
    if Ranged(r) {
      forall f | f in db.blocks[a].fcns && db.fcns[f].min != UT64_MAX
        ensures MoveTracked(db.fcns[f], a, db.blocks[a].size, to, size)
      {
        assert RangeOk(r.blocks, r.fcns[f]);
      }
    }
  }

  /** Extents unchanged: every exact range stays exact. */
  lemma SameExtentsRanged(db: Db, r: Db)
    requires Linked(db) && Ranged(db)
    requires forall a :: a in db.blocks ==> a in r.blocks && r.blocks[a].size == db.blocks[a].size
    requires forall f :: f in r.fcns ==> (f in db.fcns && r.fcns[f] == db.fcns[f]) || RangeOk(r.blocks, r.fcns[f])
    ensures Ranged(r)
  {
    forall f | f in r.fcns ensures RangeOk(r.blocks, r.fcns[f]) {
      if f in db.fcns && r.fcns[f] == db.fcns[f] && r.fcns[f].min != UT64_MAX {
        assert RangeOk(db.blocks, db.fcns[f]);
        RangeFrame(db.blocks, r.blocks, r.fcns[f].bbs, r.fcns[f].min, r.fcns[f].max);
      }
    }
  }

  /** A call keeps all caches exact if and only if it is range safe: only a resize or a relocation can break them. */
  lemma ExecRanged(db: Db, call: Call)
    requires Linked(db) && Ranged(db) && Allowed(db, call)
    ensures Ranged(Exec(db, call)) <==> RangeSafe(db, call)
  {
    match call
    case CreateBlock(a, size) => CreatedBlockRanged(db, a, size);
    case Ref(a) => SameExtentsRanged(db, Reffed(db, a));
    case Unref(a) => UnreffedRanged(db, a);
    case NewFunction(f, addr) => SameExtentsRanged(db, Exec(db, call));
    case FreeFunction(f) => FreedFcnRanged(db, f);
    case AddBlock(f, a) => AddedBlockRanged(db, f, a);
    case RemoveBlock(f, a) => RemovedBlockRanged(db, f, a);
    case DeleteBlock(a) => DeletedBlockRanged(db, a);
    case SetSize(a, size) => SetSizeRanged(db, a, size);
    case Relocate(a, to, size) =>
      if to == a {
        SetSizeRanged(db, a, size);
      } else if to !in db.blocks {
        RelocateRanged(db, a, to, size);
      }
    case Split(a, at, head, tail) => SplitRanged(db, a, at, head, tail);
    case Merge(a, b, code, maxSize) => MergedRanged(db, a, b, code, maxSize);
    case Recompute(f, min, max) => SameExtentsRanged(db, Exec(db, call));
  }

  ghost predicate AllRangeSafe(db: Db, calls: seq<Call>)
    requires AllAllowed(db, calls)
    decreases |calls|
  {
    calls != [] ==> RangeSafe(db, calls[0]) && AllRangeSafe(Exec(db, calls[0]), calls[1..])
  }

  lemma {:induction false} RunRanged(db: Db, calls: seq<Call>)
    requires Linked(db) && Ranged(db) && AllAllowed(db, calls) && AllRangeSafe(db, calls)
    ensures Ranged(ExecAll(db, calls))
    decreases |calls|
  {
    if calls != [] {
      ExecLinked(db, calls[0]);
      ExecRanged(db, calls[0]);
      RunRanged(Exec(db, calls[0]), calls[1..]);
    }
  }

  /** From the empty store. */
  lemma EveryRunIsConsistent(calls: seq<Call>)
    requires AllAllowed(EMPTY, calls)
    ensures Linked(ExecAll(EMPTY, calls))
    ensures AllRangeSafe(EMPTY, calls) ==> Ranged(ExecAll(EMPTY, calls))
  {
    RunLinked(EMPTY, calls);
    if AllRangeSafe(EMPTY, calls) {
      RunRanged(EMPTY, calls);
    }
  }
}
