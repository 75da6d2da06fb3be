/** Instruction offsets and stack deltas of a block, and what split and merge do to them. */
module BlockCode {
  import opened Machine
  import opened Blocks

  const DEFAULT_OP_SLOTS: nat := 3

  function NewCode(): Code {
    Code(0, seq(DEFAULT_OP_SLOTS, _ => 0), STACK_ADDR_INVALID, [])
  }

  // ----- accessors

  function OpOffset(c: Code, i: nat): U16 {
    if i >= c.ninstr then UT16_MAX
    else if 0 < i <= |c.opPos| then c.opPos[i - 1]
    else 0
  }

  /** Offset 0 of instruction 0 is never stored; the array doubles when the index does not fit. */
  function SetOpOffset(c: Code, i: nat, v: U16): (r: Code)
    ensures r.ninstr == c.ninstr && r.spDelta == c.spDelta && r.spEntry == c.spEntry
    ensures i > 0 && v > 0 && i < c.ninstr ==> OpOffset(r, i) == v
    ensures forall j :: 0 <= j < c.ninstr && (j != i || v == 0) ==> OpOffset(r, j) == OpOffset(c, j)
  {
    if i > 0 && v > 0 then
      var pos := if i >= |c.opPos| then c.opPos + seq(i * 2 - |c.opPos|, _ => 0) else c.opPos;
      c.(opPos := pos[i - 1 := v])
    else c
  }

  function OpSpDelta(c: Code, i: nat): S16 {
    if i >= c.ninstr || i >= |c.spDelta| then ST16_MAX else c.spDelta[i]
  }

  function SetOpSpDelta(c: Code, i: nat, delta: S16): (r: Code)
    ensures r.ninstr == c.ninstr && r.opPos == c.opPos && r.spEntry == c.spEntry
    ensures i < c.ninstr ==> OpSpDelta(r, i) == delta
    ensures forall j :: 0 <= j && j != i ==> OpSpDelta(r, j) == OpSpDelta(c, j)
    ensures forall j :: 0 <= j ==> OpOffset(r, j) == OpOffset(c, j)
    ensures |c.spDelta| <= c.ninstr ==> |r.spDelta| <= c.ninstr
  {
    if i >= c.ninstr then c
    else
      var s := if |c.spDelta| <= i then c.spDelta + seq(c.ninstr - |c.spDelta|, _ => ST16_MAX) else c.spDelta;
      c.(spDelta := s[i := delta])
  }

  /** Size of the i-th instruction in a block of the given size. */
  function OpSize(c: Code, size: nat, i: nat): int {
    if i >= c.ninstr then UT64_MAX
    else if OpOffset(c, i + 1) != UT16_MAX then OpOffset(c, i + 1) - OpOffset(c, i)
    else size - OpOffset(c, i)
  }

  /** The loop of `get_op_index_in`: one before the first instruction from `i` on that starts after `off`. */
  function OpIndexFrom(c: Code, off: nat, i: nat): (r: int)
    requires i <= c.ninstr
    ensures i - 1 <= r < c.ninstr
    decreases c.ninstr - i
  {
    if i == c.ninstr || OpOffset(c, i) > off then i - 1 else OpIndexFrom(c, off, i + 1)
  }

  function OpIndexIn(c: Code, size: nat, off: nat): int {
    if off >= size then -1 else OpIndexFrom(c, off % (UT16_MAX + 1), 0)
  }

  function SpDeltaAt(c: Code, size: nat, off: nat): S16 {
    var idx := OpIndexIn(c, size, off);
    if idx == 0 || off == 0 then 0
    else if idx < 0 then ST16_MAX
    else OpSpDelta(c, idx - 1)
  }

  /** Absolute stack pointer before executing at `off`. */
  function SpAt(c: Code, size: nat, off: nat): int {
    if c.spEntry == STACK_ADDR_INVALID || SpDeltaAt(c, size, off) == ST16_MAX then STACK_ADDR_INVALID
    else c.spEntry + SpDeltaAt(c, size, off)
  }

  /** Absolute stack pointer after the i-th instruction. */
  function SpAfter(c: Code, i: nat): int {
    if c.spEntry == STACK_ADDR_INVALID || OpSpDelta(c, i) == ST16_MAX then STACK_ADDR_INVALID
    else c.spEntry + OpSpDelta(c, i)
  }

  /** Offsets strictly increase and stay below the block size and the 16-bit marker. */
  ghost predicate WellFormed(c: Code, size: nat) {
    && (forall i, j :: 0 <= i < j < c.ninstr ==> OpOffset(c, i) < OpOffset(c, j))
    && (forall i :: 0 <= i < c.ninstr ==> OpOffset(c, i) < size && OpOffset(c, i) < UT16_MAX)
  }

  /** Some instruction starts exactly at `off`. */
  ghost predicate OnBoundary(c: Code, off: nat) {
    exists i :: 0 <= i < c.ninstr && OpOffset(c, i) == off
  }

  lemma {:induction false} IndexFromAt(c: Code, size: nat, i: nat, k: nat)
    requires WellFormed(c, size) && i <= k < c.ninstr
    ensures OpIndexFrom(c, OpOffset(c, k), i) == k
    decreases k - i
  {
    if i < k {
      IndexFromAt(c, size, i + 1, k);
    } else if k + 1 < c.ninstr {
      assert OpOffset(c, k) < OpOffset(c, k + 1);
    }
  }

  /** Instructions follow one another without a gap, and the last one ends with the block. */
  lemma OpSizeTiles(c: Code, size: nat, i: nat)
    requires WellFormed(c, size) && i < c.ninstr
    ensures OpSize(c, size, i) > 0
    ensures OpOffset(c, i) + OpSize(c, size, i) == if i + 1 < c.ninstr then OpOffset(c, i + 1) else size
  {
    assert i + 1 < c.ninstr ==> OpOffset(c, i) < OpOffset(c, i + 1);
  }

  lemma {:induction false} IndexFromExact(c: Code, size: nat, off: nat, i: nat)
    requires WellFormed(c, size) && i <= c.ninstr && forall j :: 0 <= j < i ==> OpOffset(c, j) <= off
    ensures var r := OpIndexFrom(c, off, i);
            && (forall j :: 0 <= j <= r ==> OpOffset(c, j) <= off) && (r + 1 < c.ninstr ==> OpOffset(c, r + 1) > off)
    decreases c.ninstr - i
  {
    if i < c.ninstr && OpOffset(c, i) <= off {
      IndexFromExact(c, size, off, i + 1);
    }
  }

  /** An offset inside the block belongs to the instruction that covers it. */
  lemma OpIndexExact(c: Code, size: nat, off: nat, i: nat)
    requires WellFormed(c, size) && off < size && off <= UT16_MAX && i < c.ninstr
    ensures OpIndexIn(c, size, off) == i <==> OpOffset(c, i) <= off < OpOffset(c, i) + OpSize(c, size, i)
  {
    IndexFromExact(c, size, off, 0);
    OpSizeTiles(c, size, i);
    var r := OpIndexIn(c, size, off);
    assert r + 1 < i ==> OpOffset(c, r + 1) < OpOffset(c, i);
  }

  /** The queries agree at an instruction's start: it occupies its own offset, and the pointer there is the one left
      by its predecessor. */
  lemma SpAtBoundary(c: Code, size: nat, k: nat)
    requires WellFormed(c, size) && 0 < k < c.ninstr
    ensures OpIndexIn(c, size, OpOffset(c, k)) == k
    ensures SpAt(c, size, OpOffset(c, k)) == SpAfter(c, k - 1)
  {
    IndexFromAt(c, size, 0, k);
    assert OpOffset(c, 0) < OpOffset(c, k);
  }

  /** Anywhere in an instruction the pointer is the one left by the instruction before it, or the entry one in the first. */
  lemma SpAtInside(c: Code, size: nat, off: nat, i: nat)
    requires WellFormed(c, size) && off < size && off <= UT16_MAX && i < c.ninstr
    requires OpOffset(c, i) <= off < OpOffset(c, i) + OpSize(c, size, i)
    ensures SpAt(c, size, off) == if i == 0 then c.spEntry else SpAfter(c, i - 1)
  {
    OpIndexExact(c, size, off, i);
    if i > 0 {
      assert OpOffset(c, 0) < OpOffset(c, i);
    }
  }

  // ----- split

  function Trunc16(x: int): S16 {
    (x - ST16_MIN) % 0x1_0000 + ST16_MIN
  }

  function Rebase(delta: S16, base: S16): S16 {
    if base == ST16_MAX || delta == ST16_MAX then ST16_MAX else Trunc16(delta - base)
  }

  /** A rebased delta differs from the exact difference by a multiple of 2^16. */
  lemma RebaseWraps(delta: S16, base: S16)
    ensures Rebase(delta, base) == ST16_MAX || (Rebase(delta, base) + base - delta) % 0x1_0000 == 0
    ensures base == ST16_MAX || delta == ST16_MAX ==> Rebase(delta, base) == ST16_MAX
    ensures base != ST16_MAX && delta != ST16_MAX && ST16_MIN <= delta - base <= ST16_MAX ==> Rebase(delta, base) == delta - base
  {
  }

  function SplitBase(c: Code, k: nat): S16 {
    if k > 0 then OpSpDelta(c, k - 1) else 0
  }

  function Trunc(x: int): U16 {
    x % (UT16_MAX + 1)
  }

  /** `head` keeps the instructions before `at` and both vectors; `tail` gets those inside the block behind it if one
      starts exactly at `at`. */
  ghost predicate IsSplit(c: Code, size: nat, at: nat, head: Code, tail: Code) {
    var k := head.ninstr;
    && k <= c.ninstr && head == c.(ninstr := k)
    && (forall i :: 0 <= i < k ==> OpOffset(c, i) < at)
    && (k < c.ninstr ==> OpOffset(c, k) >= at)
    && tail.spEntry == SpAt(c, size, at)
    && (if k < c.ninstr && OpOffset(c, k) == at
        then TailHolds(c, size, at, k, tail) else tail.ninstr == 0)
  }

  /** `tail` holds the instructions k..k+n of `c`, rebased to `at`. */
  ghost predicate HoldsFrom(c: Code, k: nat, at: nat, tail: Code, n: nat)
    requires k + n <= c.ninstr
  {
    && tail.ninstr == n && |tail.spDelta| <= n
    && (forall j :: 0 <= j < n ==> OpOffset(tail, j) == OpOffset(c, k + j) - at)
    && (forall j :: 0 <= j < n ==> OpSpDelta(tail, j) == Rebase(OpSpDelta(c, k + j), SplitBase(c, k)))
  }

  ghost predicate Increasing(c: Code) {
    forall i, j :: 0 <= i < j < c.ninstr ==> OpOffset(c, i) < OpOffset(c, j)
  }

  /** `r` holds the instructions from `k` on as far as they start inside the block. */
  ghost predicate TailHolds(c: Code, size: nat, at: nat, k: nat, r: Code) {
    && k + r.ninstr <= c.ninstr && HoldsFrom(c, k, at, r, r.ninstr)
    && (forall j :: k <= j < k + r.ninstr ==> OpOffset(c, j) < size)
    && (k + r.ninstr < c.ninstr ==> OpOffset(c, k + r.ninstr) >= size)
  }

  lemma HoldsNext(c: Code, k: nat, at: nat, tail: Code, n: nat, next: Code)
    requires Increasing(c) && k + n < c.ninstr && OpOffset(c, k) == at && HoldsFrom(c, k, at, tail, n)
    requires next == AppendOp(tail, Trunc(OpOffset(c, k + n) - at), Rebase(OpSpDelta(c, k + n), SplitBase(c, k)))
    ensures HoldsFrom(c, k, at, next, n + 1)
  {
    assert n > 0 ==> OpOffset(c, k) < OpOffset(c, k + n);
    assert Trunc(OpOffset(c, k + n) - at) == OpOffset(c, k + n) - at;
  }

  /** With increasing offsets the split is exact, also when some are stale because the block was shrunk. */
  method SplitCode(c: Code, size: nat, at: nat) returns (head: Code, tail: Code)
    requires 0 < at < size
    ensures Increasing(c) ==> IsSplit(c, size, at, head, tail)
  {
    tail := NewCode().(spEntry := SpAt(c, size, at));
    var k := 0;
    while k < c.ninstr && OpOffset(c, k) < at
      invariant k <= c.ninstr && forall i :: 0 <= i < k ==> OpOffset(c, i) < at
    {
      k := k + 1;
    }
    if at == OpOffset(c, k) {
      tail := AppendInside(c, size, at, k, tail);
    }
    head := c.(ninstr := k);
  }

  method AppendInside(c: Code, size: nat, at: nat, k: nat, tail0: Code) returns (tail: Code)
    requires k <= c.ninstr && OpOffset(c, k) == at && tail0.ninstr == 0 && tail0.spDelta == []
    ensures tail.spEntry == tail0.spEntry && (k == c.ninstr ==> tail == tail0)
    ensures Increasing(c) && k < c.ninstr ==> TailHolds(c, size, at, k, tail)
  {
    tail := tail0;
    var base, i := SplitBase(c, k), k;
    while i < c.ninstr
      invariant k <= i <= c.ninstr && tail.spEntry == tail0.spEntry && (i == k ==> tail == tail0)
      invariant forall j :: k <= j < i ==> OpOffset(c, j) < size
      invariant Increasing(c) ==> HoldsFrom(c, k, at, tail, i - k)
      decreases c.ninstr - i
    {
      var off := OpOffset(c, i);
      if off >= size {
        break;
      }
      var next := AppendOp(tail, Trunc(off - at), Rebase(OpSpDelta(c, i), base));
      if Increasing(c) {
        HoldsNext(c, k, at, tail, i - k, next);
      }
      tail := next;
      i := i + 1;
    }
  }

  /** One turn of the split loop: the tail grows by an instruction at `off` with stack delta `delta`. */
  function AppendOp(tail: Code, off: U16, delta: S16): (r: Code)
    ensures r.ninstr == tail.ninstr + 1 && r.spEntry == tail.spEntry
    ensures |tail.spDelta| <= tail.ninstr ==> |r.spDelta| <= r.ninstr && OpSpDelta(r, tail.ninstr) == delta
    ensures (off == 0 <==> tail.ninstr == 0) ==> OpOffset(r, tail.ninstr) == off
    ensures forall j :: 0 <= j < tail.ninstr ==> OpOffset(r, j) == OpOffset(tail, j)
    ensures forall j :: 0 <= j < tail.ninstr ==> OpSpDelta(r, j) == OpSpDelta(tail, j)
  {
    var n := tail.ninstr;
    var grown := tail.(ninstr := n + 1);
    assert forall j :: 0 <= j < n ==> OpOffset(grown, j) == OpOffset(tail, j);
    assert forall j :: 0 <= j < n ==> OpSpDelta(grown, j) == OpSpDelta(tail, j);
    var placed := SetOpOffset(grown, n, off);
    assert forall j :: 0 <= j < n ==> OpSpDelta(placed, j) == OpSpDelta(grown, j);
    if delta != ST16_MAX then SetOpSpDelta(placed, n, delta) else placed
  }

  /** Splitting where an instruction starts keeps every instruction's address and size, and loses none. */
  lemma SplitKeepsInstructions(c: Code, size: nat, at: nat, head: Code, tail: Code, i: nat)
    requires WellFormed(c, size) && 0 < at < size && OnBoundary(c, at) && IsSplit(c, size, at, head, tail)
    requires i < c.ninstr
    ensures head.ninstr + tail.ninstr == c.ninstr && head.ninstr > 0 && tail.ninstr > 0
    ensures i < head.ninstr ==> OpOffset(head, i) == OpOffset(c, i) && OpSize(head, at, i) == OpSize(c, size, i)
    ensures i >= head.ninstr ==>
              && at + OpOffset(tail, i - head.ninstr) == OpOffset(c, i)
              && OpSize(tail, size - at, i - head.ninstr) == OpSize(c, size, i)
  {
    var k := head.ninstr;
    var m :| 0 <= m < c.ninstr && OpOffset(c, m) == at;
    assert m >= k;
    assert OpOffset(c, 0) < at;
  }

  /** Both halves are again well formed, whether or not the split fell on an instruction. */
  lemma SplitWellFormed(c: Code, size: nat, at: nat, head: Code, tail: Code)
    requires WellFormed(c, size) && 0 < at < size && IsSplit(c, size, at, head, tail)
    ensures WellFormed(head, at) && WellFormed(tail, size - at)
  {
    var k := head.ninstr;
    forall i | 0 <= i < k ensures OpOffset(head, i) == OpOffset(c, i) {}
    forall i, j | 0 <= i < j < tail.ninstr ensures OpOffset(tail, i) < OpOffset(tail, j) {
      assert OpOffset(c, k + i) < OpOffset(c, k + j);
    }
  }

  /** No stack value of the block collides with the invalid marker. */
  ghost predicate ClearOfMarker(spEntry: int) {
    || spEntry == STACK_ADDR_INVALID
    || spEntry + ST16_MAX < STACK_ADDR_INVALID
    || STACK_ADDR_INVALID < spEntry + ST16_MIN
  }

  /** Rebasing `delta` on the stack delta just before the split loses nothing. */
  ghost predicate RebaseFits(delta: S16, base: S16) {
    base != ST16_MAX && ST16_MIN <= delta - base < ST16_MAX
  }

  /**
   * The absolute stack pointer after an instruction of the second half survives the split exactly when it was unknown
   * before, or the delta before the split is known and the rebased one fits in 16 bits below the marker.
   * In the first half it always survives.
   */
  lemma SplitStackPointer(c: Code, size: nat, at: nat, head: Code, tail: Code, i: nat)
    requires WellFormed(c, size) && 0 < at < size && OnBoundary(c, at) && IsSplit(c, size, at, head, tail)
    requires i < c.ninstr && ClearOfMarker(c.spEntry)
    ensures i < head.ninstr ==> SpAfter(head, i) == SpAfter(c, i)
    ensures i >= head.ninstr ==>
              (SpAfter(tail, i - head.ninstr) == SpAfter(c, i) <==>
               SpAfter(c, i) == STACK_ADDR_INVALID || RebaseFits(OpSpDelta(c, i), OpSpDelta(c, head.ninstr - 1)))
  {
    SplitKeepsInstructions(c, size, at, head, tail, i);
    var k := head.ninstr;
    SpAtBoundary(c, size, k);
    if i >= k {
      var delta: int, base: int := OpSpDelta(c, i), OpSpDelta(c, k - 1);
      assert OpSpDelta(tail, i - k) == Rebase(OpSpDelta(c, k + (i - k)), base);
      assert tail.spEntry == SpAfter(c, k - 1);
      var diff: int := delta - base;
      assert RebaseFits(delta, base) ==> Trunc16(diff) == diff;
      assert base != ST16_MAX && !RebaseFits(delta, base) ==> Trunc16(diff) != diff || Trunc16(diff) == ST16_MAX;
    }
  }

  /** A known stack pointer does get lost when the delta just before the split is unknown. */
  lemma SplitLosesStackPointer() returns (c: Code, head: Code, tail: Code)
    ensures WellFormed(c, 2) && OnBoundary(c, 1) && ClearOfMarker(c.spEntry) && IsSplit(c, 2, 1, head, tail)
    ensures SpAfter(c, 1) == 8 && SpAfter(tail, 0) == STACK_ADDR_INVALID
  {
    c := Code(2, [1], 0, [ST16_MAX, 8]);
    head := c.(ninstr := 1);
    tail := Code(1, [], STACK_ADDR_INVALID, []);
    assert OpOffset(c, 1) == 1;
    SpAtBoundary(c, 2, 1);
    assert HoldsFrom(c, 1, 1, tail, 1) by {
      assert forall j :: 0 <= j < 1 ==> OpOffset(tail, j) == OpOffset(c, 1 + j) - 1;
    }
  }

  // ----- merge

  /** `r` lists a's instructions, then b's behind a's bytes; stack data stays a's. The offset of instruction 0 is not stored. */
  ghost predicate IsMerge(a: Code, asize: nat, b: Code, r: Code) {
    MergedUpTo(a, asize, b, b.ninstr, r)
  }

  ghost predicate MergedUpTo(a: Code, asize: nat, b: Code, n: nat, r: Code) {
    && r.ninstr == a.ninstr + n && r.spEntry == a.spEntry && r.spDelta == a.spDelta
    && (forall i :: 0 <= i < a.ninstr ==> OpOffset(r, i) == OpOffset(a, i))
    && (forall i :: a.ninstr <= i < r.ninstr ==>
          OpOffset(r, i) == if i == 0 then 0 else asize + OpOffset(b, i - a.ninstr))
  }

  /** What a merge does to any instruction data: the first `n` instructions of `b` appended to `a`. */
  function MergedFrom(a: Code, asize: nat, b: Code, n: nat): Code
    requires n <= b.ninstr
  {
    if n == 0 then a
    else MergeOp(MergedFrom(a, asize, b, n - 1), Trunc(asize + OpOffset(b, n - 1)))
  }

  function MergedCode(a: Code, asize: nat, b: Code): Code {
    MergedFrom(a, asize, b, b.ninstr)
  }

  /** Behind `asize` bytes the offsets still fit in 16 bits. */
  ghost predicate Fits(asize: nat, b: Code) {
    forall i :: 0 <= i < b.ninstr ==> asize + OpOffset(b, i) <= UT16_MAX
  }

  /** If they do, nothing is truncated. */
  lemma {:induction false} MergeExact(a: Code, asize: nat, b: Code, n: nat)
    requires asize > 0 && Fits(asize, b) && n <= b.ninstr
    ensures MergedUpTo(a, asize, b, n, MergedFrom(a, asize, b, n))
  {
    if n > 0 {
      MergeExact(a, asize, b, n - 1);
      assert Trunc(asize + OpOffset(b, n - 1)) == asize + OpOffset(b, n - 1);
    }
  }

  /** In any case the i-th instruction that is appended gets its offset modulo 2^16, unless that is zero. */
  lemma {:induction false} MergeTruncates(a: Code, asize: nat, b: Code, n: nat, i: nat)
    requires i < n <= b.ninstr && a.ninstr + i > 0 && (asize + OpOffset(b, i)) % 0x1_0000 != 0
    ensures MergedFrom(a, asize, b, n).ninstr == a.ninstr + n
    ensures OpOffset(MergedFrom(a, asize, b, n), a.ninstr + i) == (asize + OpOffset(b, i)) % 0x1_0000
  {
    MergedLength(a, asize, b, n - 1);
    MergeOpAt(MergedFrom(a, asize, b, n - 1), Trunc(asize + OpOffset(b, n - 1)), a.ninstr + i);
    if i < n - 1 {
      MergeTruncates(a, asize, b, n - 1, i);
    }
  }

  lemma MergeOpAt(c: Code, v: U16, j: nat)
    requires j <= c.ninstr && (j == c.ninstr ==> j > 0 && v > 0)
    ensures MergeOp(c, v).ninstr == c.ninstr + 1
    ensures OpOffset(MergeOp(c, v), j) == if j < c.ninstr then OpOffset(c, j) else v
  {
  }

  lemma {:induction false} MergedLength(a: Code, asize: nat, b: Code, n: nat)
    requires n <= b.ninstr
    ensures MergedFrom(a, asize, b, n).ninstr == a.ninstr + n
    ensures forall j :: 0 <= j < a.ninstr ==> OpOffset(MergedFrom(a, asize, b, n), j) == OpOffset(a, j)
  {
    if n > 0 {
      MergedLength(a, asize, b, n - 1);
    }
  }

  method MergeCode(a: Code, asize: nat, b: Code) returns (r: Code)
    ensures r == MergedCode(a, asize, b)
    ensures asize > 0 && Fits(asize, b) ==> IsMerge(a, asize, b, r)
    ensures r.ninstr == a.ninstr + b.ninstr && forall j :: 0 <= j < a.ninstr ==> OpOffset(r, j) == OpOffset(a, j)
    ensures forall i :: 0 <= i < b.ninstr && a.ninstr + i > 0 && (asize + OpOffset(b, i)) % 0x1_0000 != 0 ==>
              OpOffset(r, a.ninstr + i) == (asize + OpOffset(b, i)) % 0x1_0000
  {
    r := a;
    for i := 0 to b.ninstr
      invariant r == MergedFrom(a, asize, b, i)
    {
      r := MergeOp(r, Trunc(asize + OpOffset(b, i)));
    }
    if asize > 0 && Fits(asize, b) {
      MergeExact(a, asize, b, b.ninstr);
    }
    MergedLength(a, asize, b, b.ninstr);
    forall i | 0 <= i < b.ninstr && a.ninstr + i > 0 && (asize + OpOffset(b, i)) % 0x1_0000 != 0
      ensures OpOffset(r, a.ninstr + i) == (asize + OpOffset(b, i)) % 0x1_0000
    {
      MergeTruncates(a, asize, b, b.ninstr, i);
    }
  }

  /** `set_op_offset(a, a->ninstr++, v)`. */
  function MergeOp(c: Code, v: U16): (r: Code)
    ensures r.ninstr == c.ninstr + 1 && r.spDelta == c.spDelta && r.spEntry == c.spEntry
    ensures c.ninstr > 0 && v > 0 ==> OpOffset(r, c.ninstr) == v
    ensures c.ninstr == 0 ==> OpOffset(r, 0) == 0
    ensures forall j :: 0 <= j < c.ninstr ==> OpOffset(r, j) == OpOffset(c, j)
  {
    var grown := c.(ninstr := c.ninstr + 1);
    assert forall j :: 0 <= j < c.ninstr ==> OpOffset(grown, j) == OpOffset(c, j);
    SetOpOffset(grown, c.ninstr, v)
  }

  /** With an instruction in the absorbing block the merged block is well formed and no instruction moves. */
  lemma MergeWellFormed(a: Code, asize: nat, b: Code, bsize: nat, r: Code)
    requires WellFormed(a, asize) && WellFormed(b, bsize) && asize + bsize <= UT16_MAX && IsMerge(a, asize, b, r)
    requires a.ninstr > 0
    ensures WellFormed(r, asize + bsize)
    ensures forall i :: a.ninstr <= i < r.ninstr ==> OpOffset(r, i) == asize + OpOffset(b, i - a.ninstr)
  {
    var n := a.ninstr;
    forall i, j | 0 <= i < j < r.ninstr ensures OpOffset(r, i) < OpOffset(r, j) {
      if i >= n {
        assert OpOffset(b, i - n) < OpOffset(b, j - n);
      }
    }
  }

  // ----- split, then merge

  ghost predicate SameCode(c: Code, d: Code) {
    && c.ninstr == d.ninstr && c.spEntry == d.spEntry
    && (forall i :: 0 <= i ==> OpOffset(c, i) == OpOffset(d, i))
    && (forall i :: 0 <= i ==> OpSpDelta(c, i) == OpSpDelta(d, i))
  }

  /** Merging the halves back restores every offset and stack delta exactly when the split fell on an instruction or
      behind the start of the last one. */
  lemma SplitMergeRestores(c: Code, size: nat, at: nat, head: Code, tail: Code, r: Code)
    requires WellFormed(c, size) && 0 < at < size <= UT16_MAX
    requires IsSplit(c, size, at, head, tail) && IsMerge(head, at, tail, r)
    ensures SameCode(r, c) <==> OnBoundary(c, at) || forall i :: 0 <= i < c.ninstr ==> OpOffset(c, i) < at
  {
    if OnBoundary(c, at) {
      SplitIsMergeBack(c, size, at, head, tail);
      SameMerge(head, at, tail, r, c);
    } else {
      assert tail.ninstr == 0 && r.ninstr == head.ninstr;
    }
  }

  /** A merge is determined as far as instructions can be read. */
  lemma SameMerge(a: Code, asize: nat, b: Code, r: Code, c: Code)
    requires IsMerge(a, asize, b, r) && IsMerge(a, asize, b, c)
    ensures SameCode(r, c)
  {
    forall i | 0 <= i ensures OpOffset(r, i) == OpOffset(c, i) {
      if a.ninstr <= i < r.ninstr {
        assert OpOffset(c, i) == if i == 0 then 0 else asize + OpOffset(b, i - a.ninstr);
      }
    }
  }

  /** A split on an instruction boundary is a merge read backwards. */
  lemma SplitIsMergeBack(c: Code, size: nat, at: nat, head: Code, tail: Code)
    requires WellFormed(c, size) && 0 < at < size && OnBoundary(c, at) && IsSplit(c, size, at, head, tail)
    ensures head.ninstr > 0 && tail.ninstr > 0 && IsMerge(head, at, tail, c)
  {
    SplitKeepsInstructions(c, size, at, head, tail, 0);
    forall i | head.ninstr <= i < c.ninstr ensures OpOffset(c, i) == at + OpOffset(tail, i - head.ninstr) {
      SplitKeepsInstructions(c, size, at, head, tail, i);
    }
  }
}
