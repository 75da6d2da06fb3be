/** Blocks, functions and the many-to-many link between them, as values; every API call is a function on the store. */
module Store {
  import opened Machine
  import opened Blocks
  import opened BlockCode

  /** `min == UT64_MAX` means that the cached range has to be recomputed. */
  datatype Fcn = Fcn(addr: U64, bbs: seq<U64>, min: nat, max: nat)

  datatype Db = Db(blocks: BlockMap, fcns: map<FcnId, Fcn>)

  /** `rz_list_delete_val`, `rz_pvector_remove_data`: drops the first occurrence. */
  function Without<T(==, !new)>(s: seq<T>, x: T): (r: seq<T>)
    ensures x in s ==> |r| == |s| - 1
    ensures x !in s ==> r == s
    ensures forall y :: y != x ==> (y in r <==> y in s)
    ensures x in r ==> x in s
  {
    if s == [] then [] else if s[0] == x then s[1..] else [s[0]] + Without(s[1..], x)
  }

  lemma {:induction false} WithoutDistinct<T(!new)>(s: seq<T>, x: T)
    requires Distinct(s)
    ensures Distinct(Without(s, x)) && x !in Without(s, x)
  {
    if s != [] {
      assert Distinct(s[1..]) && s[0] !in s[1..];
      if s[0] != x {
        WithoutDistinct(s[1..], x);
      }
    }
  }

  // ----- invariants

  /** The functions of block `a` know it, each is listed once and holds a reference. */
  ghost predicate BlockLinked(db: Db, a: U64)
    requires a in db.blocks
  {
    var b := db.blocks[a];
    && Distinct(b.fcns) && 0 < b.refs && |b.fcns| <= b.refs
    && forall f :: f in b.fcns ==> f in db.fcns && a in db.fcns[f].bbs
  }

  /** References held by others than the functions. */
  function Spare(b: Block): int {
    b.refs - |b.fcns|
  }

  ghost predicate FcnLinked(db: Db, f: FcnId)
    requires f in db.fcns
  {
    && Distinct(db.fcns[f].bbs)
    && forall a :: a in db.fcns[f].bbs ==> a in db.blocks && f in db.blocks[a].fcns
  }

  ghost predicate Linked(db: Db) {
    && (forall a {:trigger BlockLinked(db, a)} :: a in db.blocks ==> BlockLinked(db, a))
    && (forall f {:trigger FcnLinked(db, f)} :: f in db.fcns ==> FcnLinked(db, f))
  }

  // ----- function membership and references

  function Unreffed(db: Db, a: U64): (r: Db)
    requires a in db.blocks && db.blocks[a].refs > 0
  {
    var b := db.blocks[a];
    var n := b.refs - 1;
    if n >= |b.fcns| && n < 1 then db.(blocks := db.blocks - {a})
    else db.(blocks := db.blocks[a := b.(refs := n)])
  }

  function Reffed(db: Db, a: U64): (r: Db)
    requires a in db.blocks
  {
    db.(blocks := db.blocks[a := db.blocks[a].(refs := db.blocks[a].refs + 1)])
  }

  function RangeWith(fn: Fcn, a: U64, size: nat): Fcn {
    if fn.min == UT64_MAX then fn
    else fn.(max := if a + size > fn.max then a + size else fn.max, min := if a < fn.min then a else fn.min)
  }

  function AddedBlock(db: Db, f: FcnId, a: U64): (r: Db)
    requires a in db.blocks && f in db.fcns
  {
    var b, fn := db.blocks[a], db.fcns[f];
    if f in b.fcns then db
    else Db(db.blocks[a := b.(fcns := b.fcns + [f], refs := b.refs + 1)],
            db.fcns[f := RangeWith(fn, a, b.size).(bbs := fn.bbs + [a])])
  }

  function RangeWithout(fn: Fcn, a: U64, size: nat): Fcn {
    if fn.min != UT64_MAX && (fn.min == a || fn.max == a + size) then fn.(min := UT64_MAX) else fn
  }

  function Dropped(fn: Fcn, a: U64, size: nat): Fcn {
    RangeWithout(fn, a, size).(bbs := Without(fn.bbs, a))
  }

  function RemovedBlock(db: Db, f: FcnId, a: U64): (r: Db)
    requires a in db.blocks && f in db.fcns && db.blocks[a].refs > 0
  {
    var b := db.blocks[a];
    var db1 := Db(db.blocks[a := b.(fcns := Without(b.fcns, f))], db.fcns[f := Dropped(db.fcns[f], a, b.size)]);
    Unreffed(db1, a)
  }

  /** `delete_block` at once: every function lets go of the block, and it goes if nobody else holds it. */
  function DeletedBlock(db: Db, a: U64): (r: Db)
    requires a in db.blocks
  {
    var b := db.blocks[a];
    Db(if b.refs <= |b.fcns| then db.blocks - {a} else db.blocks[a := b.(fcns := [], refs := b.refs - |b.fcns|)],
       map f | f in db.fcns :: if f in b.fcns then Dropped(db.fcns[f], a, b.size) else db.fcns[f])
  }

  function CreatedBlock(db: Db, a: U64, size: nat): (r: Db) {
    if a in db.blocks then db
    else db.(blocks := db.blocks[a := Block(size, UT64_MAX, UT64_MAX, None, NewCode(), 1, [])])
  }

  function NewFcn(addr: U64): Fcn {
    Fcn(addr, [], UT64_MAX, 0)
  }

  /** What freeing a function leaves of its blocks. */
  function FreedFcn(db: Db, f: FcnId): (r: Db)
    requires f in db.fcns
  {
    Db(map a | a in db.blocks && !(f in db.blocks[a].fcns && db.blocks[a].refs <= 1) ::
         var b := db.blocks[a];
         if f in b.fcns then b.(fcns := Without(b.fcns, f), refs := b.refs - 1) else b,
       db.fcns - {f})
  }

  lemma {:induction false} AddedBlockLinked(db: Db, f: FcnId, a: U64)
    requires Linked(db) && a in db.blocks && f in db.fcns
    ensures Linked(AddedBlock(db, f, a))
  {
    var r := AddedBlock(db, f, a);
    assert BlockLinked(db, a) && FcnLinked(db, f);
    if f !in db.blocks[a].fcns {
      assert a !in db.fcns[f].bbs;
      forall c | c in r.blocks ensures BlockLinked(r, c) { assert BlockLinked(db, c); }
      forall g | g in r.fcns ensures FcnLinked(r, g) { assert FcnLinked(db, g); }
    }
  }

  /** Removing a member keeps the link; the block disappears exactly when its last reference goes, and then no
      function lists it. */
  lemma RemovedBlockLinked(db: Db, f: FcnId, a: U64)
    requires Linked(db) && a in db.blocks && f in db.blocks[a].fcns
    ensures f in db.fcns && db.blocks[a].refs > 0
    ensures Linked(RemovedBlock(db, f, a))
    ensures a !in RemovedBlock(db, f, a).blocks <==> db.blocks[a].refs == 1
    ensures forall g :: g in db.fcns ==>
              (a in RemovedBlock(db, f, a).fcns[g].bbs <==> a in db.fcns[g].bbs && g != f)
    ensures forall g :: g in db.fcns && g != f ==> RemovedBlock(db, f, a).fcns[g] == db.fcns[g]
    ensures forall c :: c in db.blocks && c != a ==> c in RemovedBlock(db, f, a).blocks && RemovedBlock(db, f, a).blocks[c] == db.blocks[c]
  {
    assert BlockLinked(db, a) && FcnLinked(db, f);
    var r := RemovedBlock(db, f, a);
    WithoutDistinct(db.blocks[a].fcns, f);
    WithoutDistinct(db.fcns[f].bbs, a);
    forall c | c in r.blocks ensures BlockLinked(r, c) { assert BlockLinked(db, c); }
    forall g | g in r.fcns ensures FcnLinked(r, g) { assert FcnLinked(db, g); }
    forall g | g in db.fcns && g != f ensures a in db.fcns[g].bbs ==> db.blocks[a].refs != 1 {
      assert FcnLinked(db, g);
      if db.blocks[a].refs == 1 && g in db.blocks[a].fcns {
        TwoMembers(db.blocks[a].fcns, f, g);
      }
    }
  }

  lemma TwoMembers<T>(s: seq<T>, x: T, y: T)
    requires x in s && y in s && x != y
    ensures |s| >= 2
  {
  }

  /** A caller that owns a reference of its own may give it up. */
  lemma UnreffedLinked(db: Db, a: U64)
    requires Linked(db) && a in db.blocks && db.blocks[a].refs > |db.blocks[a].fcns|
    ensures Linked(Unreffed(db, a))
    ensures a !in Unreffed(db, a).blocks <==> db.blocks[a].refs == 1
    ensures db.blocks[a].refs == 1 ==> forall f :: f in db.fcns ==> a !in db.fcns[f].bbs
  {
    assert BlockLinked(db, a);
    var r := Unreffed(db, a);
    forall c | c in r.blocks ensures BlockLinked(r, c) { assert BlockLinked(db, c); }
    forall g | g in r.fcns ensures FcnLinked(r, g) { assert FcnLinked(db, g); }
    forall f | f in db.fcns ensures db.blocks[a].refs == 1 ==> a !in db.fcns[f].bbs { assert FcnLinked(db, f); }
  }

  lemma ReffedLinked(db: Db, a: U64)
    requires Linked(db) && a in db.blocks
    ensures Linked(Reffed(db, a))
  {
    var r := Reffed(db, a);
    forall c | c in r.blocks ensures BlockLinked(r, c) { assert BlockLinked(db, c); }
    forall g | g in r.fcns ensures FcnLinked(r, g) { assert FcnLinked(db, g); }
  }

  lemma DeletedBlockLinked(db: Db, a: U64)
    requires Linked(db) && a in db.blocks
    ensures Linked(DeletedBlock(db, a))
    ensures a in DeletedBlock(db, a).blocks <==> db.blocks[a].refs > |db.blocks[a].fcns|
    ensures forall f :: f in db.fcns ==> a !in DeletedBlock(db, a).fcns[f].bbs
  {
    assert BlockLinked(db, a);
    var r := DeletedBlock(db, a);
    forall g | g in r.fcns ensures Distinct(r.fcns[g].bbs) && a !in r.fcns[g].bbs {
      assert FcnLinked(db, g);
      WithoutDistinct(db.fcns[g].bbs, a);
    }
    forall c | c in r.blocks ensures BlockLinked(r, c) { assert BlockLinked(db, c); }
    forall g | g in r.fcns ensures FcnLinked(r, g) { assert FcnLinked(db, g); }
  }

  lemma CreatedBlockLinked(db: Db, a: U64, size: nat)
    requires Linked(db)
    ensures Linked(CreatedBlock(db, a, size))
    ensures a in db.blocks ==> CreatedBlock(db, a, size) == db
    ensures a !in db.blocks ==> var r := CreatedBlock(db, a, size);
                                && r.blocks.Keys == db.blocks.Keys + {a} && r.blocks[a].refs == 1 && r.blocks[a].fcns == []
                                && r.blocks[a].size == size && (forall c :: c in db.blocks ==> r.blocks[c] == db.blocks[c])
  {
    var r := CreatedBlock(db, a, size);
    forall c | c in r.blocks ensures BlockLinked(r, c) { assert c in db.blocks ==> BlockLinked(db, c); }
    forall g | g in r.fcns ensures FcnLinked(r, g) { assert FcnLinked(db, g); }
  }

  lemma FreedFcnLinked(db: Db, f: FcnId)
    requires Linked(db) && f in db.fcns
    ensures Linked(FreedFcn(db, f))
    ensures forall a :: a in db.blocks ==>
              (a !in FreedFcn(db, f).blocks <==> f in db.blocks[a].fcns && db.blocks[a].refs == 1)
  {
    var r := FreedFcn(db, f);
    forall c | c in db.blocks ensures c in r.blocks ==> BlockLinked(r, c)
      ensures c !in r.blocks <==> f in db.blocks[c].fcns && db.blocks[c].refs == 1
    {
      assert BlockLinked(db, c);
      WithoutDistinct(db.blocks[c].fcns, f);
    }
    forall g | g in r.fcns ensures FcnLinked(r, g) {
      assert FcnLinked(db, g);
      forall a | a in r.fcns[g].bbs ensures a in r.blocks && g in r.blocks[a].fcns {
        assert BlockLinked(db, a);
        if f in db.blocks[a].fcns {
          TwoMembers(db.blocks[a].fcns, f, g);
        }
      }
    }
  }

  // ----- resize, relocate, split, merge

  function Resized(fn: Fcn, a: U64, oldSize: nat, size: nat): Fcn {
    if fn.min != UT64_MAX && fn.max == a + oldSize then fn.(max := a + size) else fn
  }

  function SetSized(db: Db, a: U64, size: nat): (r: Db)
    requires a in db.blocks
  {
    var b := db.blocks[a];
    if b.size == size then db
    else Db(db.blocks[a := b.(size := size)],
            map f | f in db.fcns :: if f in b.fcns then Resized(db.fcns[f], a, b.size, size) else db.fcns[f])
  }

  /** The lower end after a move compares the block's old address, not its new one. */
  function MovedMin(fn: Fcn, a: U64, to: U64): Fcn {
    if a < fn.min then fn.(min := to)
    else if a == fn.min && to != a then fn.(min := UT64_MAX)
    else fn
  }

  function MovedRange(fn: Fcn, a: U64, oldSize: nat, to: U64, size: nat): Fcn {
    if fn.min == UT64_MAX then fn
    else if to + size > fn.max then MovedMin(fn.(max := to + size), a, to)
    else if a + oldSize == fn.max && to + size != a + oldSize then fn.(min := UT64_MAX)
    else MovedMin(fn, a, to)
  }

  function Renamed(s: seq<U64>, a: U64, to: U64): (r: seq<U64>)
    ensures |r| == |s|
    ensures forall x :: x in r <==> (x in s && x != a) || (x == to && a in s)
  {
    var r := seq(|s|, i requires 0 <= i < |s| => if s[i] == a then to else s[i]);
    assert forall i :: 0 <= i < |s| ==> r[i] == if s[i] == a then to else s[i];
    r
  }

  /** The block keeps its identity in the functions' lists, so its address there is renamed. */
  function Relocated(db: Db, a: U64, to: U64, size: nat): (r: Db)
    requires a in db.blocks
  {
    var b := db.blocks[a];
    if to == a then SetSized(db, a, size)
    else if to in db.blocks then db
    else Db((db.blocks - {a})[to := b.(size := size)],
            map f | f in db.fcns :: if f in b.fcns
                                    then MovedRange(db.fcns[f], a, b.size, to, size).(bbs := Renamed(db.fcns[f].bbs, a, to))
                                    else db.fcns[f])
  }

  predicate CanSplit(db: Db, a: U64, at: U64) {
    a in db.blocks && a < at < a + db.blocks[a].size && at !in db.blocks
  }

  function SplitRange(fn: Fcn, a: U64, size: nat, at: U64): Fcn
    requires a < at < a + size
  {
    RangeWith(Resized(fn, a, size, at - a), at, a + size - at)
  }

  function SplitDb(db: Db, a: U64, at: U64, head: Code, tail: Code): (r: Db)
    requires CanSplit(db, a, at)
  {
    var b := db.blocks[a];
    Db(db.blocks[a := b.(size := at - a, jump := at, fail := UT64_MAX, cases := None, code := head)]
                [at := Block(a + b.size - at, b.jump, b.fail, b.cases, tail, 1 + |b.fcns|, b.fcns)],
       map f | f in db.fcns :: if f in b.fcns
                               then SplitRange(db.fcns[f], a, b.size, at).(bbs := db.fcns[f].bbs + [at])
                               else db.fcns[f])
  }

  predicate CanMerge(blocks: BlockMap, a: U64, b: U64, maxSize: nat) {
    && a in blocks && b in blocks && a + blocks[a].size == b
    && |blocks[a].fcns| == |blocks[b].fcns| && (forall f :: f in blocks[a].fcns ==> f in blocks[b].fcns)
    && blocks[a].size + blocks[b].size <= maxSize
  }

  function MergedBlock(a: Block, b: Block, code: Code): Block {
    a.(size := a.size + b.size, jump := b.jump, fail := b.fail, cases := b.cases, code := code)
  }

  function MergedDb(db: Db, a: U64, b: U64, code: Code): (r: Db)
    requires a in db.blocks && b in db.blocks && a != b
  {
    var A, B := db.blocks[a], db.blocks[b];
    Db((db.blocks - {b})[a := MergedBlock(A, B, code)],
       map f | f in db.fcns :: if f in B.fcns then db.fcns[f].(bbs := Without(db.fcns[f].bbs, b), min := UT64_MAX)
                               else db.fcns[f])
  }

  lemma SetSizedLinked(db: Db, a: U64, size: nat)
    requires Linked(db) && a in db.blocks
    ensures Linked(SetSized(db, a, size))
  {
    var r := SetSized(db, a, size);
    forall c | c in r.blocks ensures BlockLinked(r, c) { assert BlockLinked(db, c); }
    forall g | g in r.fcns ensures FcnLinked(r, g) { assert FcnLinked(db, g); }
  }

  lemma RenamedDistinct(s: seq<U64>, a: U64, to: U64)
    requires Distinct(s) && to !in s
    ensures Distinct(Renamed(s, a, to))
  {
  }

  lemma RelocatedLinked(db: Db, a: U64, to: U64, size: nat)
    requires Linked(db) && a in db.blocks
    ensures Linked(Relocated(db, a, to, size))
  {
    var r := Relocated(db, a, to, size);
    if to == a {
      SetSizedLinked(db, a, size);
    } else if to !in db.blocks {
      forall c | c in r.blocks ensures BlockLinked(r, c) { RelocatedBlockLinked(db, a, to, size, c); }
      forall g | g in r.fcns ensures FcnLinked(r, g) {
        assert FcnLinked(db, g);
        RenamedDistinct(db.fcns[g].bbs, a, to);
      }
    }
  }

  lemma RelocatedBlockLinked(db: Db, a: U64, to: U64, size: nat, c: U64)
    requires Linked(db) && a in db.blocks && to !in db.blocks && c in Relocated(db, a, to, size).blocks
    ensures BlockLinked(Relocated(db, a, to, size), c)
  {
    var r, was := Relocated(db, a, to, size), if c == to then a else c;
    assert BlockLinked(db, was);
    forall f | f in r.blocks[c].fcns ensures f in r.fcns && c in r.fcns[f].bbs {
      assert f in db.fcns && was in db.fcns[f].bbs;
    }
  }

  lemma SplitLinked(db: Db, a: U64, at: U64, head: Code, tail: Code)
    requires Linked(db) && CanSplit(db, a, at)
    ensures Linked(SplitDb(db, a, at, head, tail))
    ensures var r := SplitDb(db, a, at, head, tail);
            forall f :: f in db.fcns ==> (at in r.fcns[f].bbs <==> a in db.fcns[f].bbs) && (a in r.fcns[f].bbs <==> a in db.fcns[f].bbs)
  {
    var r := SplitDb(db, a, at, head, tail);
    assert BlockLinked(db, a);
    forall c | c in r.blocks ensures BlockLinked(r, c) { assert c != at ==> BlockLinked(db, c); }
    forall g | g in r.fcns ensures FcnLinked(r, g) { assert FcnLinked(db, g); }
    forall f | f in db.fcns
      ensures (at in r.fcns[f].bbs <==> a in db.fcns[f].bbs) && (a in r.fcns[f].bbs <==> a in db.fcns[f].bbs)
    {
      assert FcnLinked(db, f);
    }
  }

  lemma MergedLinked(db: Db, a: U64, b: U64, code: Code, maxSize: nat)
    requires Linked(db) && CanMerge(db.blocks, a, b, maxSize) && a != b
    ensures Linked(MergedDb(db, a, b, code))
    ensures forall f :: f in db.blocks[a].fcns <==> f in db.blocks[b].fcns
  {
    var r := MergedDb(db, a, b, code);
    assert BlockLinked(db, a) && BlockLinked(db, b);
    SameMembers(db.blocks[a].fcns, db.blocks[b].fcns);
    forall g | g in r.fcns ensures Distinct(r.fcns[g].bbs) && b !in r.fcns[g].bbs {
      assert FcnLinked(db, g);
      WithoutDistinct(db.fcns[g].bbs, b);
    }
    forall c | c in r.blocks ensures BlockLinked(r, c) { assert BlockLinked(db, c); }
    forall g | g in r.fcns ensures FcnLinked(r, g) { assert FcnLinked(db, g); }
  }

  /** The comparison of the function lists in `merge`: equal lengths and one inclusion give equal sets. */
  lemma SameMembers(s: seq<FcnId>, t: seq<FcnId>)
    requires Distinct(s) && Distinct(t) && |s| == |t| && forall x :: x in s ==> x in t
    ensures forall x :: x in t ==> x in s
  {
    var S, T := set x | x in s, set x | x in t;
    DistinctCount(s, S);
    DistinctCount(t, T);
    assert S <= T;
    if S != T {
      assert |T - S| == |T| - |S|;
    }
  }

  /** And the other way round. */
  lemma SameLength(x: seq<FcnId>, y: seq<FcnId>)
    requires Distinct(x) && Distinct(y) && forall f :: f in x <==> f in y
    ensures |x| == |y|
  {
    var X := set f | f in x;
    DistinctCount(x, X);
    DistinctCount(y, X);
  }

  lemma SameFunctionLists(db: Db, a: U64, b: U64)
    requires Linked(db) && a in db.blocks && b in db.blocks
    ensures |db.blocks[a].fcns| == |db.blocks[b].fcns| && (forall f :: f in db.blocks[a].fcns ==> f in db.blocks[b].fcns) <==>
            forall f :: f in db.blocks[a].fcns <==> f in db.blocks[b].fcns
  {
    assert BlockLinked(db, a) && BlockLinked(db, b);
    var x, y := db.blocks[a].fcns, db.blocks[b].fcns;
    if |x| == |y| && forall f :: f in x ==> f in y {
      SameMembers(x, y);
    } else if forall f :: f in x <==> f in y {
      SameLength(x, y);
    }
  }

  lemma {:induction false} DistinctCount(s: seq<FcnId>, S: set<FcnId>)
    requires Distinct(s) && forall x :: x in S <==> x in s
    ensures |S| == |s|
  {
    if s != [] {
      var n := |s| - 1;
      assert s == s[..n] + [s[n]];
      DistinctCount(s[..n], S - {s[n]});
    }
  }

  lemma {:induction false} WithoutLast<T(!new)>(s: seq<T>, x: T)
    requires x !in s
    ensures Without(s + [x], x) == s
  {
    if s != [] {
      WithoutLast(s[1..], x);
      assert (s + [x])[1..] == s[1..] + [x] && (s + [x])[0] == s[0] && s[0] in s;
    }
  }

  /** Splitting a block and merging the halves restores every block, but for the code the merge computes, and every
      function's list; the ranges of the functions concerned are left to be recomputed. */
  lemma SplitThenMerge(db: Db, a: U64, at: U64, head: Code, tail: Code, code: Code, maxSize: nat)
    requires Linked(db) && CanSplit(db, a, at)
    ensures CanMerge(SplitDb(db, a, at, head, tail).blocks, a, at, maxSize) <==> db.blocks[a].size <= maxSize
    ensures var r := MergedDb(SplitDb(db, a, at, head, tail), a, at, code);
            && r.blocks == db.blocks[a := db.blocks[a].(code := code)]
            && r.fcns.Keys == db.fcns.Keys
            && forall f :: f in db.fcns ==> Restored(db.fcns[f], r.fcns[f], f in db.blocks[a].fcns)
  {
    var s := SplitDb(db, a, at, head, tail);
    var r := MergedDb(s, a, at, code);
    assert BlockLinked(db, a);
    assert r.blocks[a] == db.blocks[a].(code := code);
    assert r.blocks == db.blocks[a := db.blocks[a].(code := code)];
    forall f | f in db.fcns ensures Restored(db.fcns[f], r.fcns[f], f in db.blocks[a].fcns) {
      assert FcnLinked(db, f);
      WithoutLast(db.fcns[f].bbs, at);
    }
  }

  ghost predicate Restored(f: Fcn, g: Fcn, holder: bool) {
    if holder then g.addr == f.addr && g.bbs == f.bbs && g.min == UT64_MAX else g == f
  }
}
