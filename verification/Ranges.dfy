/** The cached address range of a function: when it is exact, and what keeps it so. */
module Ranges {
  import opened Machine
  import opened Blocks
  import opened BlockCode
  import opened Store

  ghost predicate EndsAt(blocks: BlockMap, bbs: seq<U64>, end: nat) {
    exists a :: a in bbs && a in blocks && a + blocks[a].size == end
  }

  lemma EndsAtGrows(blocks: BlockMap, bbs: seq<U64>, a: U64, end: nat)
    requires a in blocks && a + blocks[a].size <= end && (EndsAt(blocks, bbs, end) || end == 0)
    ensures EndsAt(blocks, bbs + [a], end)
  {
    var w :| w in bbs + [a] && w in blocks && w + blocks[w].size == end;
  }

  ghost predicate Encloses(blocks: BlockMap, bbs: seq<U64>, min: nat, max: nat) {
    forall a :: a in bbs ==> min <= a && a in blocks && a + blocks[a].size <= max
  }

  /** `min` is the least start and `max` the greatest end over the listed blocks. */
  ghost predicate IsRange(blocks: BlockMap, bbs: seq<U64>, min: nat, max: nat) {
    min in bbs && EndsAt(blocks, bbs, max) && Encloses(blocks, bbs, min, max)
  }

  /** The cache is either marked unknown or exact. */
  ghost predicate RangeOk(blocks: BlockMap, fn: Fcn) {
    fn.min == UT64_MAX || IsRange(blocks, fn.bbs, fn.min, fn.max)
  }

  ghost predicate Ranged(db: Db) {
    forall f {:trigger RangeOk(db.blocks, db.fcns[f])} :: f in db.fcns ==> RangeOk(db.blocks, db.fcns[f])
  }

  /** Nothing about the listed blocks' extents changed. */
  lemma RangeFrame(blocks: BlockMap, blocks': BlockMap, bbs: seq<U64>, min: nat, max: nat)
    requires IsRange(blocks, bbs, min, max)
    requires forall a :: a in bbs && a in blocks ==> a in blocks' && blocks'[a].size == blocks[a].size
    ensures IsRange(blocks', bbs, min, max)
  {
    var e :| e in bbs && e in blocks && e + blocks[e].size == max;
    assert e in bbs && e in blocks' && e + blocks'[e].size == max;
  }

  // ----- add, remove, delete, free

  lemma AddedRange(blocks: BlockMap, blocks': BlockMap, fn: Fcn, a: U64)
    requires RangeOk(blocks, fn) && a in blocks
    requires forall c :: c in blocks ==> c in blocks' && blocks'[c].size == blocks[c].size
    ensures RangeOk(blocks', RangeWith(fn, a, blocks[a].size).(bbs := fn.bbs + [a]))
  {
    if fn.min != UT64_MAX {
      RangeFrame(blocks, blocks', fn.bbs, fn.min, fn.max);
      var e :| e in fn.bbs && e in blocks' && e + blocks'[e].size == fn.max;
      var bbs := fn.bbs + [a];
      assert fn.min in bbs && e in bbs && a in bbs;
    }
  }

  /** Dropping a block that is neither first nor last leaves the range as it is. */
  lemma InnerDrop(blocks: BlockMap, blocks': BlockMap, bbs: seq<U64>, rest: seq<U64>, a: U64, min: nat, max: nat)
    requires IsRange(blocks, bbs, min, max) && a in blocks && a != min && a + blocks[a].size != max
    requires forall c :: c in rest <==> c in bbs && c != a
    requires forall c :: c in blocks && c != a ==> c in blocks' && blocks'[c].size == blocks[c].size
    ensures IsRange(blocks', rest, min, max)
  {
    var e :| e in bbs && e in blocks && e + blocks[e].size == max;
    assert e in rest && e in blocks' && e + blocks'[e].size == max;
  }

  lemma DroppedRange(blocks: BlockMap, blocks': BlockMap, fn: Fcn, a: U64)
    requires RangeOk(blocks, fn) && Distinct(fn.bbs) && a in blocks
    requires forall c :: c in blocks && c != a ==> c in blocks' && blocks'[c].size == blocks[c].size
    ensures RangeOk(blocks', Dropped(fn, a, blocks[a].size))
  {
    WithoutDistinct(fn.bbs, a);
    var rest := Without(fn.bbs, a);
    if fn.min != UT64_MAX && fn.min != a && fn.max != a + blocks[a].size {
      InnerDrop(blocks, blocks', fn.bbs, rest, a, fn.min, fn.max);
    }
  }

  lemma AddedBlockRanged(db: Db, f: FcnId, a: U64)
    requires Ranged(db) && a in db.blocks && f in db.fcns
    ensures Ranged(AddedBlock(db, f, a))
  {
    var r := AddedBlock(db, f, a);
    forall g | g in r.fcns ensures RangeOk(r.blocks, r.fcns[g]) {
      assert RangeOk(db.blocks, db.fcns[g]);
      if g == f && f !in db.blocks[a].fcns {
        AddedRange(db.blocks, r.blocks, db.fcns[f], a);
      } else if db.fcns[g].min != UT64_MAX {
        RangeFrame(db.blocks, r.blocks, db.fcns[g].bbs, db.fcns[g].min, db.fcns[g].max);
      }
    }
  }

  lemma RemovedBlockRanged(db: Db, f: FcnId, a: U64)
    requires Linked(db) && Ranged(db) && a in db.blocks && f in db.blocks[a].fcns
    ensures f in db.fcns && db.blocks[a].refs > 0 && Ranged(RemovedBlock(db, f, a))
    ensures var fn, r := db.fcns[f], RemovedBlock(db, f, a).fcns[f];
            if fn.min == a || fn.max == a + db.blocks[a].size then r.min == UT64_MAX else r.min == fn.min && r.max == fn.max
  {
    RemovedBlockLinked(db, f, a);
    var r := RemovedBlock(db, f, a);
    forall g | g in r.fcns ensures RangeOk(r.blocks, r.fcns[g]) {
      assert RangeOk(db.blocks, db.fcns[g]) && FcnLinked(db, g) && FcnLinked(r, g);
      if g == f {
        DroppedRange(db.blocks, r.blocks, db.fcns[f], a);
      } else if db.fcns[g].min != UT64_MAX {
        RangeFrame(db.blocks, r.blocks, db.fcns[g].bbs, db.fcns[g].min, db.fcns[g].max);
      }
    }
  }

  lemma UnreffedRanged(db: Db, a: U64)
    requires Linked(db) && Ranged(db) && a in db.blocks && db.blocks[a].refs > |db.blocks[a].fcns|
    ensures Ranged(Unreffed(db, a))
  {
    UnreffedLinked(db, a);
    var r := Unreffed(db, a);
    forall g | g in r.fcns ensures RangeOk(r.blocks, r.fcns[g]) {
      assert RangeOk(db.blocks, db.fcns[g]) && FcnLinked(r, g);
      if db.fcns[g].min != UT64_MAX {
        RangeFrame(db.blocks, r.blocks, db.fcns[g].bbs, db.fcns[g].min, db.fcns[g].max);
      }
    }
  }

  lemma DeletedBlockRanged(db: Db, a: U64)
    requires Linked(db) && Ranged(db) && a in db.blocks
    ensures Ranged(DeletedBlock(db, a))
  {
    DeletedBlockLinked(db, a);
    var r := DeletedBlock(db, a);
    forall g | g in r.fcns ensures RangeOk(r.blocks, r.fcns[g]) {
      assert RangeOk(db.blocks, db.fcns[g]) && FcnLinked(db, g) && FcnLinked(r, g);
      if g in db.blocks[a].fcns {
        DroppedRange(db.blocks, r.blocks, db.fcns[g], a);
      } else if db.fcns[g].min != UT64_MAX {
        RangeFrame(db.blocks, r.blocks, db.fcns[g].bbs, db.fcns[g].min, db.fcns[g].max);
      }
    }
  }

  lemma CreatedBlockRanged(db: Db, a: U64, size: nat)
    requires Ranged(db)
    ensures Ranged(CreatedBlock(db, a, size))
  {
    var r := CreatedBlock(db, a, size);
    forall g | g in r.fcns ensures RangeOk(r.blocks, r.fcns[g]) {
      assert RangeOk(db.blocks, db.fcns[g]);
      if db.fcns[g].min != UT64_MAX {
        RangeFrame(db.blocks, r.blocks, db.fcns[g].bbs, db.fcns[g].min, db.fcns[g].max);
      }
    }
  }

  lemma FreedFcnRanged(db: Db, f: FcnId)
    requires Linked(db) && Ranged(db) && f in db.fcns
    ensures Ranged(FreedFcn(db, f))
  {
    FreedFcnLinked(db, f);
    var r := FreedFcn(db, f);
    forall g | g in r.fcns ensures RangeOk(r.blocks, r.fcns[g]) {
      assert RangeOk(db.blocks, db.fcns[g]) && FcnLinked(r, g);
      if db.fcns[g].min != UT64_MAX {
        RangeFrame(db.blocks, r.blocks, db.fcns[g].bbs, db.fcns[g].min, db.fcns[g].max);
      }
    }
  }

  // ----- split, merge

  lemma SplitRanged(db: Db, a: U64, at: U64, head: Code, tail: Code)
    requires Linked(db) && Ranged(db) && CanSplit(db, a, at)
    ensures Ranged(SplitDb(db, a, at, head, tail))
  {
    var r := SplitDb(db, a, at, head, tail);
    forall g | g in r.fcns ensures RangeOk(r.blocks, r.fcns[g]) {
      assert RangeOk(db.blocks, db.fcns[g]) && FcnLinked(db, g) && BlockLinked(db, a);
      if db.fcns[g].min != UT64_MAX {
        if g in db.blocks[a].fcns {
          SplitFcnRange(db, a, at, head, tail, g);
        } else {
          RangeFrame(db.blocks, r.blocks, db.fcns[g].bbs, db.fcns[g].min, db.fcns[g].max);
        }
      }
    }
  }

  /** The resize may leave a wrong maximum behind; adding the second half puts it right. */
  lemma SplitFcnRange(db: Db, a: U64, at: U64, head: Code, tail: Code, g: FcnId)
    requires CanSplit(db, a, at) && g in db.fcns && g in db.blocks[a].fcns && a in db.fcns[g].bbs
    requires at !in db.fcns[g].bbs
    requires IsRange(db.blocks, db.fcns[g].bbs, db.fcns[g].min, db.fcns[g].max)
    ensures var r := SplitDb(db, a, at, head, tail);
            IsRange(r.blocks, r.fcns[g].bbs, db.fcns[g].min, db.fcns[g].max)
            && r.fcns[g].min == db.fcns[g].min && r.fcns[g].max == db.fcns[g].max
  {
    var r, fn := SplitDb(db, a, at, head, tail), db.fcns[g];
    var bbs := r.fcns[g].bbs;
    var e :| e in fn.bbs && e in db.blocks && e + db.blocks[e].size == fn.max;
    assert fn.min in bbs && e in bbs && at in bbs;
    assert EndsAt(r.blocks, bbs, fn.max) by {
      var w := if e == a then at else e;
      assert w in bbs && w in r.blocks && w + r.blocks[w].size == fn.max;
    }
    assert Encloses(r.blocks, bbs, fn.min, fn.max) by {
      assert at + r.blocks[at].size == a + db.blocks[a].size;
    }
  }

  lemma MergedRanged(db: Db, a: U64, b: U64, code: Code, maxSize: nat)
    requires Linked(db) && Ranged(db) && CanMerge(db.blocks, a, b, maxSize) && a != b
    ensures Ranged(MergedDb(db, a, b, code))
    ensures forall f :: f in db.fcns ==>
              if f in db.blocks[a].fcns then MergedDb(db, a, b, code).fcns[f].min == UT64_MAX
              else MergedDb(db, a, b, code).fcns[f] == db.fcns[f]
  {
    MergedLinked(db, a, b, code, maxSize);
    var r := MergedDb(db, a, b, code);
    forall g | g in r.fcns ensures RangeOk(r.blocks, r.fcns[g]) {
      assert RangeOk(db.blocks, db.fcns[g]) && FcnLinked(db, g) && FcnLinked(r, g);
      if r.fcns[g].min != UT64_MAX {
        RangeFrame(db.blocks, r.blocks, db.fcns[g].bbs, db.fcns[g].min, db.fcns[g].max);
      }
    }
  }

  // ----- resize: exact condition

  /** The other blocks of the list end at or before `end`. */
  ghost predicate OthersWithin(blocks: BlockMap, bbs: seq<U64>, a: U64, end: nat) {
    forall c :: c in bbs && c in blocks && c != a ==> c + blocks[c].size <= end
  }

  /** Resizing is tracked iff the block either was last and stays last, or was not last and does not become so. */
  ghost predicate ResizeTracked(blocks: BlockMap, fn: Fcn, a: U64, size: nat)
    requires a in blocks
  {
    if fn.max == a + blocks[a].size then OthersWithin(blocks, fn.bbs, a, a + size) else a + size <= fn.max
  }

  lemma SetSizedRange(db: Db, a: U64, size: nat, f: FcnId)
    requires Linked(db) && a in db.blocks && f in db.fcns && RangeOk(db.blocks, db.fcns[f])
    ensures RangeOk(SetSized(db, a, size).blocks, SetSized(db, a, size).fcns[f]) <==>
            (db.fcns[f].min == UT64_MAX || f !in db.blocks[a].fcns || ResizeTracked(db.blocks, db.fcns[f], a, size))
  {
    var r, fn := SetSized(db, a, size), db.fcns[f];
    assert FcnLinked(db, f) && BlockLinked(db, a);
    if fn.min != UT64_MAX {
      var e :| e in fn.bbs && e in db.blocks && e + db.blocks[e].size == fn.max;
      assert e in r.blocks && (e != a ==> e + r.blocks[e].size == fn.max);
      if f !in db.blocks[a].fcns {
        RangeFrame(db.blocks, r.blocks, fn.bbs, fn.min, fn.max);
      } else {
        assert a in fn.bbs && a + r.blocks[a].size == a + size;
        if ResizeTracked(db.blocks, fn, a, size) {
          assert Encloses(r.blocks, fn.bbs, fn.min, r.fcns[f].max);
        }
      }
    }
  }

  ghost predicate Overlap(a: U64, aSize: nat, b: U64, bSize: nat) {
    a < b + bSize && b < a + aSize
  }

  /** Pairwise disjoint blocks, before and after, with the others non-empty, are always tracked. */
  lemma DisjointIsTracked(blocks: BlockMap, fn: Fcn, a: U64, size: nat)
    requires a in fn.bbs && a in blocks && IsRange(blocks, fn.bbs, fn.min, fn.max)
    requires forall c :: c in fn.bbs && c in blocks && c != a ==>
               && blocks[c].size > 0
               && !Overlap(a, blocks[a].size, c, blocks[c].size) && !Overlap(a, size, c, blocks[c].size)
    ensures ResizeTracked(blocks, fn, a, size)
  {
    var e :| e in fn.bbs && e in blocks && e + blocks[e].size == fn.max;
    if fn.max == a + blocks[a].size {
      forall c | c in fn.bbs && c in blocks && c != a ensures c + blocks[c].size <= a + size {
        assert !Overlap(a, blocks[a].size, c, blocks[c].size);
      }
    } else {
      assert !Overlap(a, size, e, blocks[e].size);
      assert !Overlap(a, blocks[a].size, e, blocks[e].size);
    }
  }

  /** A block that is not last may outgrow the cached maximum unnoticed. */
  lemma ResizeMissed() returns (db: Db)
    ensures Linked(db) && Ranged(db) && 0 in db.blocks && !Ranged(SetSized(db, 0, 100))
  {
    var blk := Block(4, UT64_MAX, UT64_MAX, None, NewCode(), 1, [7]);
    db := Db(map[0 := blk, 4 := blk], map[7 := Fcn(0, [0, 4], 0, 8)]);
    assert db.fcns[7].bbs[0] == 0 && db.fcns[7].bbs[1] == 4;
    assert forall a :: a in db.fcns[7].bbs ==> a == 0 || a == 4;
    assert Linked(db) by {
      forall a | a in db.blocks ensures BlockLinked(db, a) {}
      forall f | f in db.fcns ensures FcnLinked(db, f) {}
    }
    assert EndsAt(db.blocks, [0, 4], 8) by { assert 4 in [0, 4] && 4 in db.blocks && 4 + db.blocks[4].size == 8; }
    assert Ranged(db) by {
      forall f | f in db.fcns ensures RangeOk(db.blocks, db.fcns[f]) {}
    }
    SetSizedRange(db, 0, 100, 7);
    assert !RangeOk(SetSized(db, 0, 100).blocks, SetSized(db, 0, 100).fcns[7]);
  }

  // ----- relocate: exact condition

  /** The move marks the range unknown, or the block lands at or above the cached minimum. */
  ghost predicate MoveTracked(fn: Fcn, a: U64, oldSize: nat, to: U64, size: nat) {
    a == fn.min || (a + oldSize == fn.max && to + size < fn.max) || to >= fn.min
  }

  lemma RelocatedRange(db: Db, a: U64, to: U64, size: nat, f: FcnId)
    requires Linked(db) && a in db.blocks && to !in db.blocks && f in db.fcns && RangeOk(db.blocks, db.fcns[f])
    ensures var r := Relocated(db, a, to, size);
            f in r.fcns &&
            (RangeOk(r.blocks, r.fcns[f]) <==>
             db.fcns[f].min == UT64_MAX || f !in db.blocks[a].fcns
             || MoveTracked(db.fcns[f], a, db.blocks[a].size, to, size))
  {
    var r, fn, b := Relocated(db, a, to, size), db.fcns[f], db.blocks[a];
    assert FcnLinked(db, f) && BlockLinked(db, a);
    if fn.min != UT64_MAX {
      if f !in b.fcns {
        assert a !in fn.bbs;
        RangeFrame(db.blocks, r.blocks, fn.bbs, fn.min, fn.max);
      } else if r.fcns[f].min != UT64_MAX {
        RelocatedMember(db, a, to, size, f);
      }
    }
  }

  lemma RelocatedMember(db: Db, a: U64, to: U64, size: nat, f: FcnId)
    requires a in db.blocks && to !in db.blocks && f in db.fcns && f in db.blocks[a].fcns
    requires a in db.fcns[f].bbs && IsRange(db.blocks, db.fcns[f].bbs, db.fcns[f].min, db.fcns[f].max)
    requires Relocated(db, a, to, size).fcns[f].min != UT64_MAX
    ensures var r := Relocated(db, a, to, size);
            IsRange(r.blocks, r.fcns[f].bbs, r.fcns[f].min, r.fcns[f].max) <==>
            MoveTracked(db.fcns[f], a, db.blocks[a].size, to, size)
  {
    var r, fn := Relocated(db, a, to, size), db.fcns[f];
    var bbs, max := r.fcns[f].bbs, r.fcns[f].max;
    var e :| e in fn.bbs && e in db.blocks && e + db.blocks[e].size == fn.max;
    assert to in bbs && to + r.blocks[to].size == to + size;
    assert r.fcns[f].min == fn.min && fn.min in bbs;
    assert EndsAt(r.blocks, bbs, max) by {
      var w := if e == a || max != fn.max then to else e;
      assert w in bbs && w in r.blocks && w + r.blocks[w].size == max;
    }
    assert to >= fn.min ==> Encloses(r.blocks, bbs, fn.min, max);
  }

  /** A block that is not first may move below the cached minimum unnoticed. */
  lemma RelocateMissed() returns (db: Db)
    ensures Linked(db) && Ranged(db) && 16 in db.blocks && 4 !in db.blocks && !Ranged(Relocated(db, 16, 4, 16))
  {
    var blk := Block(4, UT64_MAX, UT64_MAX, None, NewCode(), 1, [7]);
    db := Db(map[8 := blk, 16 := blk], map[7 := Fcn(8, [8, 16], 8, 20)]);
    assert db.fcns[7].bbs[0] == 8 && db.fcns[7].bbs[1] == 16;
    assert forall a :: a in db.fcns[7].bbs ==> a == 8 || a == 16;
    assert Linked(db) by {
      forall a | a in db.blocks ensures BlockLinked(db, a) {}
      forall f | f in db.fcns ensures FcnLinked(db, f) {}
    }
    assert EndsAt(db.blocks, [8, 16], 20) by { assert 16 in [8, 16] && 16 in db.blocks && 16 + db.blocks[16].size == 20; }
    assert Ranged(db) by {
      forall f | f in db.fcns ensures RangeOk(db.blocks, db.fcns[f]) {}
    }
    RelocatedRange(db, 16, 4, 16, 7);
    assert !RangeOk(Relocated(db, 16, 4, 16).blocks, Relocated(db, 16, 4, 16).fcns[7]);
  }

  lemma RelocateUpRanged(db: Db, a: U64, to: U64, size: nat)
    requires Linked(db) && Ranged(db) && a in db.blocks && a < to
    ensures Ranged(Relocated(db, a, to, size))
  {
    var r := Relocated(db, a, to, size);
    if to !in db.blocks {
      forall f | f in r.fcns ensures RangeOk(r.blocks, r.fcns[f]) {
        assert RangeOk(db.blocks, db.fcns[f]) && FcnLinked(db, f) && BlockLinked(db, a);
        RelocatedRange(db, a, to, size, f);
      }
    }
  }
}
