/** The store as the C code updates it, call by call; each method is tied to the store function of the same meaning. */
module Analysis {
  import opened Machine
  import opened Blocks
  import opened BlockCode
  import opened Store
  import opened Ranges

  class Analysis {
    var blocks: BlockMap
    var fcns: map<FcnId, Fcn>
    const bbMaxSize: nat

    ghost function State(): Db
      reads this
    {
      Db(blocks, fcns)
    }

    constructor (maxSize: nat)
      requires maxSize <= UT16_MAX
      ensures State() == Db(map[], map[]) && bbMaxSize == maxSize
    {
      blocks, fcns, bbMaxSize := map[], map[], maxSize;
    }

    method CreateBlock(a: U64, size: nat) returns (ok: bool)
      modifies this
      ensures State() == CreatedBlock(old(State()), a, size) && ok == (a !in old(blocks))
    {
      ok := a !in blocks;
      if ok {
        blocks := blocks[a := Block(size, UT64_MAX, UT64_MAX, None, NewCode(), 1, [])];
      }
    }

    method RefBlock(a: U64)
      requires a in blocks
      modifies this`blocks
      ensures State() == Reffed(old(State()), a)
    {
      blocks := blocks[a := blocks[a].(refs := blocks[a].refs + 1)];
    }

    method UnrefBlock(a: U64)
      requires a in blocks && blocks[a].refs > 0
      modifies this`blocks
      ensures State() == Unreffed(old(State()), a)
    {
      var b := blocks[a];
      blocks := blocks[a := b.(refs := b.refs - 1)];
      if b.refs - 1 >= |b.fcns| && b.refs - 1 < 1 {
        blocks := blocks - {a};
        assert blocks == old(blocks) - {a};
      }
    }

    method AddBlock(f: FcnId, a: U64)
      requires a in blocks && f in fcns
      modifies this
      ensures State() == AddedBlock(old(State()), f, a)
    {
      var b, fn := blocks[a], fcns[f];
      if f in b.fcns {
        return;
      }
      blocks := blocks[a := b.(fcns := b.fcns + [f], refs := b.refs + 1)];
      fcns := fcns[f := RangeWith(fn, a, b.size).(bbs := fn.bbs + [a])];
    }

    method RemoveBlock(f: FcnId, a: U64)
      requires a in blocks && f in fcns && blocks[a].refs > 0
      modifies this
      ensures State() == RemovedBlock(old(State()), f, a)
    {
      var b := blocks[a];
      blocks := blocks[a := b.(fcns := Without(b.fcns, f))];
      fcns := fcns[f := Dropped(fcns[f], a, b.size)];
      UnrefBlock(a);
    }

    /** The loop shared by `delete_block` and `merge`: as long as a function lists the block, take it out there. */
    method Detach(a: U64)
      requires Linked(State()) && a in blocks && blocks[a].refs > |blocks[a].fcns|
      modifies this
      ensures blocks == old(blocks)[a := old(blocks[a]).(fcns := [], refs := old(blocks[a].refs) - old(|blocks[a].fcns|))]
      ensures fcns == map f | f in old(fcns) :: if f in old(blocks[a].fcns) then Dropped(old(fcns)[f], a, old(blocks[a].size))
                                                else old(fcns)[f]
    {
      var b := blocks[a];
      ghost var k := 0;
      assert BlockLinked(State(), a);
      while blocks[a].fcns != []
        invariant 0 <= k <= |b.fcns| && a in blocks
        invariant blocks == old(blocks)[a := b.(fcns := b.fcns[k..], refs := b.refs - k)]
        invariant fcns.Keys == old(fcns.Keys)
        invariant forall f :: f in fcns ==>
                    fcns[f] == if f in b.fcns[..k] then Dropped(old(fcns)[f], a, b.size) else old(fcns)[f]
        decreases |b.fcns| - k
      {
        var f := blocks[a].fcns[0];
        assert f == b.fcns[k] && f !in b.fcns[..k] && f in old(fcns);
        RemoveBlock(f, a);
        assert b.fcns[k..][1..] == b.fcns[k + 1..];
        assert b.fcns[..k + 1] == b.fcns[..k] + [f];
        k := k + 1;
      }
      assert b.fcns[..k] == b.fcns;
    }

    method DeleteBlock(a: U64)
      requires Linked(State()) && a in blocks
      modifies this
      ensures State() == DeletedBlock(old(State()), a)
    {
      assert BlockLinked(State(), a);
      RefBlock(a);
      ReffedLinked(old(State()), a);
      Detach(a);
      UnrefBlock(a);
    }

    /** One block of a freed function. */
    method Release(a: U64, f: FcnId)
      requires a in blocks && blocks[a].refs > 0 && |blocks[a].fcns| <= blocks[a].refs && f in blocks[a].fcns
      modifies this`blocks
      ensures old(blocks[a].refs) == 1 ==> blocks == old(blocks) - {a}
      ensures old(blocks[a].refs) > 1 ==>
                blocks == old(blocks)[a := old(blocks[a]).(fcns := Without(old(blocks[a].fcns), f), refs := old(blocks[a].refs) - 1)]
    {
      blocks := blocks[a := blocks[a].(fcns := Without(blocks[a].fcns, f))];
      UnrefBlock(a);
    }

    method FreeFunction(f: FcnId)
      requires Linked(State()) && f in fcns
      modifies this
      ensures State() == FreedFcn(old(State()), f)
    {
      var bbs := fcns[f].bbs;
      assert FcnLinked(State(), f);
      for k := 0 to |bbs|
        invariant fcns == old(fcns)
        invariant forall a :: a in blocks ==> a in old(blocks)
        invariant forall a :: a in old(blocks) ==>
                    if a !in bbs[..k] then a in blocks && blocks[a] == old(blocks)[a]
                    else if old(blocks)[a].refs <= 1 then a !in blocks
                    else a in blocks && blocks[a] == FreedFcn(old(State()), f).blocks[a]
      {
        var a := bbs[k];
        assert BlockLinked(old(State()), a) && a !in bbs[..k];
        assert bbs[..k + 1] == bbs[..k] + [a];
        Release(a, f);
      }
      assert bbs[..|bbs|] == bbs;
      fcns := fcns - {f};
      forall a | a in old(blocks) ensures f in old(blocks)[a].fcns <==> a in bbs { assert BlockLinked(old(State()), a); }
      assert blocks == FreedFcn(old(State()), f).blocks;
    }

    method SetSize(a: U64, size: nat)
      requires Linked(State()) && a in blocks
      modifies this
      ensures State() == SetSized(old(State()), a, size)
    {
      var b := blocks[a];
      if b.size == size {
        return;
      }
      assert BlockLinked(State(), a);
      for k := 0 to |b.fcns|
        invariant blocks == old(blocks) && fcns.Keys == old(fcns.Keys)
        invariant forall f :: f in fcns ==>
                    fcns[f] == if f in b.fcns[..k] then Resized(old(fcns)[f], a, b.size, size) else old(fcns)[f]
      {
        var f := b.fcns[k];
        assert f in fcns && f !in b.fcns[..k];
        assert b.fcns[..k + 1] == b.fcns[..k] + [f];
        if fcns[f].min != UT64_MAX && fcns[f].max == a + b.size {
          fcns := fcns[f := fcns[f].(max := a + size)];
        }
      }
      assert b.fcns[..|b.fcns|] == b.fcns;
      blocks := blocks[a := b.(size := size)];
    }

    method Relocate(a: U64, to: U64, size: nat) returns (ok: bool)
      requires Linked(State()) && a in blocks
      modifies this
      ensures State() == Relocated(old(State()), a, to, size) && (ok <==> to == a || to !in old(blocks))
    {
      if to == a {
        SetSize(a, size);
        return true;
      }
      if to in blocks {
        return false;
      }
      var b := blocks[a];
      assert BlockLinked(State(), a);
      for k := 0 to |b.fcns|
        invariant blocks == old(blocks) && fcns.Keys == old(fcns.Keys)
        invariant forall f :: f in fcns ==>
                    fcns[f] == if f in b.fcns[..k]
                               then MovedRange(old(fcns)[f], a, b.size, to, size).(bbs := Renamed(old(fcns)[f].bbs, a, to))
                               else old(fcns)[f]
      {
        var f := b.fcns[k];
        assert f in fcns && f !in b.fcns[..k];
        assert b.fcns[..k + 1] == b.fcns[..k] + [f];
        var fn := fcns[f].(bbs := Renamed(fcns[f].bbs, a, to));
        fcns := fcns[f := fn];
        if fn.min != UT64_MAX {
          if to + size > fn.max {
            fn := fn.(max := to + size);
          } else if a + b.size == fn.max && to + size != a + b.size {
            fcns := fcns[f := fn.(min := UT64_MAX)];
            continue;
          }
          if a < fn.min {
            fn := fn.(min := to);
          } else if a == fn.min && to != a {
            fn := fn.(min := UT64_MAX);
          }
          fcns := fcns[f := fn];
        }
      }
      assert b.fcns[..|b.fcns|] == b.fcns;
      blocks := (blocks - {a})[to := b.(size := size)];
      ok := true;
    }

    /** The loop of `split` that puts the second half into all functions of the first. */
    method AddToAll(a: U64, fs: seq<FcnId>)
      requires a in blocks && blocks[a].fcns == [] && Distinct(fs) && forall f :: f in fs ==> f in fcns
      modifies this
      ensures blocks == old(blocks)[a := old(blocks)[a].(fcns := fs, refs := old(blocks)[a].refs + |fs|)]
      ensures fcns == map f | f in old(fcns) ::
                        if f in fs then RangeWith(old(fcns)[f], a, old(blocks)[a].size).(bbs := old(fcns)[f].bbs + [a])
                        else old(fcns)[f]
    {
      var b := blocks[a];
      for k := 0 to |fs|
        invariant blocks == old(blocks)[a := b.(fcns := fs[..k], refs := b.refs + k)] && fcns.Keys == old(fcns.Keys)
        invariant forall f :: f in fcns ==>
                    fcns[f] == if f in fs[..k] then RangeWith(old(fcns)[f], a, b.size).(bbs := old(fcns)[f].bbs + [a])
                               else old(fcns)[f]
      {
        var f := fs[k];
        assert f in fcns && f !in fs[..k];
        assert fs[..k + 1] == fs[..k] + [f];
        AddBlock(f, a);
      }
      assert fs[..|fs|] == fs;
    }

    /** None when another block already starts at `at`. */
    method Split(a: U64, at: U64) returns (second: Option<U64>, ghost head: Code, ghost tail: Code)
      requires Linked(State()) && a in blocks && a <= at < a + blocks[a].size
      modifies this
      ensures at == a ==> second == Some(a) && State() == Reffed(old(State()), a)
      ensures at != a && at in old(blocks) ==> second == None && State() == old(State())
      ensures at != a && at !in old(blocks) ==>
                && second == Some(at)
                && (Increasing(old(blocks)[a].code) ==> IsSplit(old(blocks)[a].code, old(blocks)[a].size, at - a, head, tail))
                && State() == SplitDb(old(State()), a, at, head, tail)
    {
      var b := blocks[a];
      head, tail := b.code, b.code;
      if at == a {
        RefBlock(a);
        return Some(a), head, tail;
      }
      if at in blocks {
        return None, head, tail;
      }
      assert BlockLinked(State(), a) && CanSplit(State(), a, at);
      var code, code' := SplitCode(b.code, b.size, at - a);
      head, tail := code, code';
      var rest := Block(a + b.size - at, b.jump, b.fail, b.cases, code', 1, []);
      SetSize(a, at - a);
      blocks := blocks[a := blocks[a].(jump := at, fail := UT64_MAX, cases := None, code := code)];
      blocks := blocks[at := rest];
      AddToAll(at, b.fcns);
      second := Some(at);
      assert fcns == SplitDb(old(State()), a, at, head, tail).fcns;
    }

    /** The comparison of function lists in `merge`. */
    method SameFunctions(s: seq<FcnId>, t: seq<FcnId>) returns (same: bool)
      ensures same <==> |s| == |t| && forall f :: f in s ==> f in t
    {
      if |s| != |t| {
        return false;
      }
      for k := 0 to |s|
        invariant forall f :: f in s[..k] ==> f in t
      {
        if s[k] !in t {
          return false;
        }
      }
      assert s[..|s|] == s;
      same := true;
    }

    method ForgetRanges(fs: seq<FcnId>)
      requires forall f :: f in fs ==> f in fcns
      modifies this`fcns
      ensures fcns == map f | f in old(fcns) :: if f in fs then old(fcns)[f].(min := UT64_MAX) else old(fcns)[f]
    {
      for k := 0 to |fs|
        invariant fcns.Keys == old(fcns.Keys)
        invariant forall f :: f in fcns ==>
                    fcns[f] == if f in fs[..k] then old(fcns)[f].(min := UT64_MAX) else old(fcns)[f]
      {
        assert fs[..k + 1] == fs[..k] + [fs[k]];
        fcns := fcns[fs[k] := fcns[fs[k]].(min := UT64_MAX)];
      }
      assert fs[..|fs|] == fs;
    }

    method Merge(a: U64, b: U64) returns (ok: bool, ghost code: Code)
      requires Linked(State()) && a in blocks && b in blocks && (a == b ==> blocks[a].size > 0)
      modifies this
      ensures ok == CanMerge(old(blocks), a, b, bbMaxSize)
      ensures ok <==> a + old(blocks)[a].size == b && (forall f :: f in old(blocks)[a].fcns <==> f in old(blocks)[b].fcns)
                      && old(blocks)[a].size + old(blocks)[b].size <= bbMaxSize
      ensures !ok ==> State() == old(State())
      ensures ok ==>
                && code == MergedCode(old(blocks)[a].code, old(blocks)[a].size, old(blocks)[b].code)
                && State() == MergedDb(old(State()), a, b, code)
    {
      code := blocks[a].code;
      var A, B := blocks[a], blocks[b];
      SameFunctionLists(State(), a, b);
      if a + A.size != b {
        return false, code;
      }
      var same := SameFunctions(A.fcns, B.fcns);
      if !same {
        return false, code;
      }
      if A.size + B.size > bbMaxSize {
        return false, code;
      }
      code := Absorb(a, b);
      ok := true;
    }

    /** Detaches `b` from its functions, appends it to `a` and takes it out of the store. */
    method Absorb(a: U64, b: U64) returns (code: Code)
      requires Linked(State()) && CanMerge(blocks, a, b, bbMaxSize) && a != b
      modifies this
      ensures code == MergedCode(old(blocks)[a].code, old(blocks)[a].size, old(blocks)[b].code)
      ensures State() == MergedDb(old(State()), a, b, code)
    {
      var A, B := blocks[a], blocks[b];
      MergedLinked(State(), a, b, A.code, bbMaxSize);
      assert BlockLinked(State(), a) && BlockLinked(State(), b);
      RefBlock(b);
      ReffedLinked(old(State()), b);
      Detach(b);
      code := MergeCode(A.code, A.size, B.code);
      blocks := blocks[a := MergedBlock(A, B, code)];
      blocks := blocks - {b};
      ForgetRanges(A.fcns);
      assert fcns == MergedDb(old(State()), a, b, code).fcns;
      assert blocks == MergedDb(old(State()), a, b, code).blocks;
    }

    /** The scan of `ensure_fcn_range`: the exact range, or the marker if no block starts below it. */
    static method ScanRange(blocks: BlockMap, bbs: seq<U64>) returns (min: nat, max: nat)
      requires forall a :: a in bbs ==> a in blocks
      ensures min <= UT64_MAX && (min == UT64_MAX <==> forall a :: a in bbs ==> a == UT64_MAX)
      ensures min == UT64_MAX ==> max == UT64_MAX
      ensures min != UT64_MAX ==> IsRange(blocks, bbs, min, max)
    {
      var minval: nat, maxval: nat := UT64_MAX, 0;
      for k := 0 to |bbs|
        invariant minval <= UT64_MAX && Encloses(blocks, bbs[..k], minval, maxval)
        invariant minval == UT64_MAX || minval in bbs[..k]
        invariant EndsAt(blocks, bbs[..k], maxval) || (k == 0 && maxval == 0)
      {
        var a := bbs[k];
        assert bbs[..k + 1] == bbs[..k] + [a];
        if a < minval {
          minval := a;
        }
        if a + blocks[a].size > maxval {
          maxval := a + blocks[a].size;
          assert a in bbs[..k + 1] && a in blocks;
        } else {
          EndsAtGrows(blocks, bbs[..k], a, maxval);
        }
      }
      assert bbs[..|bbs|] == bbs;
      min, max := minval, if minval == UT64_MAX then UT64_MAX else maxval;
    }

    /** Recomputes an unknown range; afterwards it is exact unless no block starts below the marker. */
    method EnsureRange(f: FcnId)
      requires Linked(State()) && f in fcns && RangeOk(blocks, fcns[f])
      modifies this`fcns
      ensures f in fcns && fcns == old(fcns)[f := old(fcns)[f].(min := fcns[f].min, max := fcns[f].max)]
      ensures old(fcns)[f].min != UT64_MAX ==> fcns[f] == old(fcns)[f]
      ensures RangeOk(blocks, fcns[f])
      ensures (exists a :: a in fcns[f].bbs && a != UT64_MAX) ==> fcns[f].min != UT64_MAX
    {
      assert FcnLinked(State(), f);
      if fcns[f].min == UT64_MAX {
        var min, max := ScanRange(blocks, fcns[f].bbs);
        fcns := fcns[f := fcns[f].(min := min, max := max)];
      }
    }
  }
}
