/** Reference lines: sorting their end points and giving each line the lowest level that is free. */
module Reflines {
  import opened Machine

  // ----- which lines are open

  /** `refs` names the line of each end point, in order. Open before end point `i`: begun, and not yet ended. */
  ghost function Open(refs: seq<nat>, i: nat): set<nat>
    requires i <= |refs|
  {
    set r | r in refs[..i] && r in refs[i..]
  }

  ghost predicate At(refs: seq<nat>, r: nat, i: nat, j: nat) {
    i < j < |refs| && refs[i] == r && refs[j] == r && forall k :: 0 <= k < |refs| && refs[k] == r ==> k == i || k == j
  }

  /** Each of the lines 0 to n has exactly two end points. */
  ghost predicate Paired(refs: seq<nat>, n: nat) {
    && (forall k :: 0 <= k < |refs| ==> refs[k] < n)
    && (forall r :: 0 <= r < n ==> TwoEnds(refs, r))
  }

  ghost predicate TwoEnds(refs: seq<nat>, r: nat) {
    exists i, j :: At(refs, r, i, j)
  }

  lemma OpenBetween(refs: seq<nat>, r: nat, i: nat, j: nat, k: nat)
    requires At(refs, r, i, j) && k <= |refs|
    ensures r in Open(refs, k) <==> i < k <= j
    ensures r in refs[..k] <==> i < k
  {
    if i < k {
      assert refs[..k][i] == r;
    }
    if k <= j {
      assert refs[k..][j - k] == r;
    }
  }

  /** An end point opens its line when it is the first of the two, and closes it otherwise. */
  lemma OpenStep(refs: seq<nat>, n: nat, k: nat)
    requires Paired(refs, n) && k < |refs|
    ensures var r := refs[k];
            if r in refs[..k] then r in Open(refs, k) && Open(refs, k + 1) == Open(refs, k) - {r}
            else r !in Open(refs, k) && Open(refs, k + 1) == Open(refs, k) + {r}
  {
    var r := refs[k];
    assert TwoEnds(refs, r);
    var i, j :| At(refs, r, i, j);
    OpenBetween(refs, r, i, j, k);
    OpenBetween(refs, r, i, j, k + 1);
    forall s | s != r ensures s in Open(refs, k + 1) <==> s in Open(refs, k) {
      assert refs[..k + 1] == refs[..k] + [r] && refs[k..] == [r] + refs[k + 1..];
    }
  }

  // ----- counting

  lemma {:induction false} Pigeonhole(s: set<nat>, f: nat -> int, k: nat)
    requires forall r :: r in s ==> 1 <= f(r) <= k
    requires forall r, t :: r in s && t in s && r != t ==> f(r) != f(t)
    ensures |s| <= k
    decreases k
  {
    if s != {} {
      if r :| r in s && f(r) == k {
        Pigeonhole(s - {r}, f, k - 1);
      } else if k > 0 {
        Pigeonhole(s, f, k - 1);
      }
    }
  }

  ghost predicate Takes(s: set<nat>, f: nat -> int, l: int) {
    exists r :: r in s && f(r) == l
  }

  /** If each of the levels 1 to k is taken by some member, there are at least k members. */
  lemma {:induction false} AllTaken(s: set<nat>, f: nat -> int, k: nat)
    requires forall l :: 1 <= l <= k ==> Takes(s, f, l)
    ensures k <= |s|
    decreases k
  {
    if k > 0 {
      assert Takes(s, f, k);
      var r :| r in s && f(r) == k;
      forall l | 1 <= l <= k - 1 ensures Takes(s - {r}, f, l) {
        assert Takes(s, f, l);
        var t :| t in s && f(t) == l;
        assert t in s - {r};
      }
      AllTaken(s - {r}, f, k - 1);
    }
  }

  lemma {:induction false} BoundedSet(s: set<nat>, n: nat)
    requires forall r :: r in s ==> r < n
    ensures |s| <= n
  {
    Pigeonhole(s, r => r + 1, n);
  }

  // ----- the slots

  /** Slot l is taken exactly by an open line on level l + 1, and by only one. */
  ghost predicate Tracks(taken: seq<bool>, open: set<nat>, level: seq<int>) {
    && (forall r :: r in open ==> Seated(taken, level, r))
    && (forall l :: 0 <= l < |taken| && taken[l] ==> Holder(open, level, l))
    && Proper(open, level)
  }

  ghost predicate Seated(taken: seq<bool>, level: seq<int>, r: nat) {
    r < |level| && 1 <= level[r] <= |taken| && taken[level[r] - 1]
  }

  ghost predicate Holder(open: set<nat>, level: seq<int>, l: nat) {
    exists r :: r in open && r < |level| && level[r] == l + 1
  }

  /** Lines that are open together have different levels. */
  ghost predicate Proper(open: set<nat>, level: seq<int>) {
    forall r, s :: r in open && s in open && r != s && r < |level| && s < |level| ==> level[r] != level[s]
  }

  /** All slots before `min` are taken. */
  ghost predicate TakenBefore(taken: seq<bool>, min: nat) {
    min <= |taken| && forall l :: 0 <= l < min ==> taken[l]
  }

  ghost predicate LowestFree(taken: seq<bool>, min: nat) {
    TakenBefore(taken, min) && min < |taken| && !taken[min]
  }

  lemma TakenIsOpen(taken: seq<bool>, open: set<nat>, level: seq<int>, min: nat)
    requires Tracks(taken, open, level) && TakenBefore(taken, min)
    ensures min <= |open|
  {
    var f := (r: nat) => if r < |level| then level[r] else 0;
    forall l | 1 <= l <= min ensures Takes(open, f, l) {
      assert Holder(open, level, l - 1);
      var r :| r in open && r < |level| && level[r] == l - 1 + 1;
      assert f(r) == l;
    }
    AllTaken(open, f, min);
  }

  lemma TakeHeld(taken: seq<bool>, open: set<nat>, level: seq<int>, r: nat, min: nat, l: nat)
    requires Tracks(taken, open, level) && min < |taken| && r !in open && r < |level| && l < |taken|
    requires taken[min := true][l]
    ensures Holder(open + {r}, level[r := min + 1], l)
  {
    var level' := level[r := min + 1];
    if l == min {
      assert r in open + {r} && level'[r] == l + 1;
    } else {
      assert Holder(open, level, l);
      var s :| s in open && s < |level| && level[s] == l + 1;
      assert s in open + {r} && level'[s] == l + 1;
    }
  }

  lemma TakeProper(taken: seq<bool>, open: set<nat>, level: seq<int>, r: nat, min: nat)
    requires Tracks(taken, open, level) && min < |taken| && !taken[min] && r !in open && r < |level|
    ensures Proper(open + {r}, level[r := min + 1])
  {
    forall s | s in open ensures s < |level| && level[s] != min + 1 {
      assert Seated(taken, level, s);
    }
  }

  lemma TakeTracks(taken: seq<bool>, open: set<nat>, level: seq<int>, r: nat, min: nat)
    requires Tracks(taken, open, level) && min < |taken| && !taken[min] && r !in open && r < |level|
    ensures Tracks(taken[min := true], open + {r}, level[r := min + 1])
  {
    var taken', level' := taken[min := true], level[r := min + 1];
    forall l | 0 <= l < |taken'| && taken'[l] ensures Holder(open + {r}, level', l) {
      TakeHeld(taken, open, level, r, min, l);
    }
    forall s | s in open + {r} ensures Seated(taken', level', s) {
      if s != r {
        assert Seated(taken, level, s);
      }
    }
    TakeProper(taken, open, level, r, min);
  }

  lemma FreeHeld(taken: seq<bool>, open: set<nat>, level: seq<int>, r: nat, l: nat)
    requires Tracks(taken, open, level) && r in open && r < |level| && l < |taken| && l != level[r] - 1 && taken[l]
    ensures Holder(open - {r}, level, l)
  {
    assert Holder(open, level, l);
    var s :| s in open && s < |level| && level[s] == l + 1;
    assert s in open - {r};
  }

  lemma FreeTracks(taken: seq<bool>, open: set<nat>, level: seq<int>, r: nat)
    requires Tracks(taken, open, level) && r in open
    ensures Seated(taken, level, r) && Tracks(taken[level[r] - 1 := false], open - {r}, level)
  {
    assert Seated(taken, level, r);
    var taken' := taken[level[r] - 1 := false];
    forall l | 0 <= l < |taken'| && taken'[l] ensures Holder(open - {r}, level, l) {
      FreeHeld(taken, open, level, r, l);
    }
    forall s | s in open - {r} ensures Seated(taken', level, s) {
      assert Seated(taken, level, s);
    }
  }

  /** Takes the lowest free slot and moves on to the next one that is free. */
  method TakeSlot(taken: array<bool>, min: nat, ghost open: set<nat>, ghost level: seq<int>, ghost n: nat)
    returns (min': nat)
    requires taken.Length == n + 1 && LowestFree(taken[..], min)
    requires Tracks(taken[..][min := true], open, level) && |open| <= n
    modifies taken
    ensures taken[..] == old(taken[..])[min := true] && LowestFree(taken[..], min')
  {
    taken[min] := true;
    ghost var now := taken[..];
    assert now == old(taken[..])[min := true];
    TakenIsOpen(now, open, level, min + 1);
    min' := min + 1;
    while taken[min']
      invariant min' <= n && taken[..] == now && TakenBefore(now, min')
      decreases n - min'
    {
      TakenIsOpen(now, open, level, min' + 1);
      min' := min' + 1;
    }
  }

  method FreeSlot(taken: array<bool>, min: nat, slot: nat) returns (min': nat)
    requires LowestFree(taken[..], min) && slot < taken.Length && taken[slot]
    modifies taken
    ensures taken[..] == old(taken[..])[slot := false] && LowestFree(taken[..], min')
  {
    taken[slot] := false;
    min' := if min > slot then slot else min;
  }

  // ----- the loop

  /** Up to end point `k`, lines that were open together have different levels. */
  ghost predicate ProperUpTo(refs: seq<nat>, k: nat, level: seq<int>) {
    k <= |refs| && forall i :: 0 <= i <= k ==> Proper(Open(refs, i), level)
  }

  /** No more levels than there were lines open at some time. */
  ghost predicate Needed(refs: seq<nat>, k: nat, l: int) {
    exists i :: 0 <= i <= k <= |refs| && l <= |Open(refs, i)|
  }

  /** Which levels are set, and that each was needed. */
  ghost predicate LevelsUpTo(refs: seq<nat>, k: nat, level: seq<int>) {
    k <= |refs| && forall r :: 0 <= r < |level| ==>
                                 if r in refs[..k] then level[r] >= 1 && Needed(refs, k, level[r]) else level[r] == -1
  }

  lemma ProperNext(refs: seq<nat>, k: nat, level: seq<int>, r: nat, l: int)
    requires k < |refs| && ProperUpTo(refs, k, level) && r !in refs[..k] && r < |level|
    requires Proper(Open(refs, k + 1), level[r := l])
    ensures ProperUpTo(refs, k + 1, level[r := l])
  {
    forall i | 0 <= i <= k + 1 ensures Proper(Open(refs, i), level[r := l]) {
      if i <= k {
        assert Proper(Open(refs, i), level);
        assert refs[..i] == refs[..k][..i];
        assert r !in Open(refs, i);
      }
    }
  }

  lemma LevelsNext(refs: seq<nat>, k: nat, level: seq<int>, l: int)
    requires k < |refs| && LevelsUpTo(refs, k, level) && refs[k] < |level|
    requires if refs[k] in refs[..k] then l == level[refs[k]] else 1 <= l <= |Open(refs, k + 1)|
    ensures LevelsUpTo(refs, k + 1, level[refs[k] := l])
  {
    var level' := level[refs[k] := l];
    assert refs[..k + 1] == refs[..k] + [refs[k]];
    forall r | 0 <= r < |level'|
      ensures if r in refs[..k + 1] then level'[r] >= 1 && Needed(refs, k + 1, level'[r]) else level'[r] == -1
    {
      if r in refs[..k] {
        var i :| 0 <= i <= k && level[r] <= |Open(refs, i)|;
        assert level'[r] == level[r];
      }
    }
  }

  lemma OpenBounded(refs: seq<nat>, n: nat, k: nat)
    requires Paired(refs, n) && k <= |refs|
    ensures forall r :: r in Open(refs, k) ==> r < n
    ensures |Open(refs, k)| <= n
  {
    BoundedSet(Open(refs, k), n);
  }

  /** The state between two end points. */
  ghost predicate Inv(refs: seq<nat>, n: nat, k: nat, taken: seq<bool>, min: nat, level: seq<int>) {
    && k <= |refs| && |level| == n && |taken| == n + 1 && LowestFree(taken, min)
    && Tracks(taken, Open(refs, k), level) && ProperUpTo(refs, k, level) && LevelsUpTo(refs, k, level)
  }

  lemma Opens(refs: seq<nat>, n: nat, k: nat, taken: seq<bool>, min: nat, level: seq<int>)
    requires Paired(refs, n) && k < |refs| && Inv(refs, n, k, taken, min, level) && refs[k] !in refs[..k]
    ensures var r := refs[k]; r < n && var level' := level[r := min + 1];
                                       Tracks(taken[min := true], Open(refs, k + 1), level')
                                       && ProperUpTo(refs, k + 1, level') && LevelsUpTo(refs, k + 1, level')
                                       && |Open(refs, k + 1)| <= n
  {
    var r := refs[k];
    OpenStep(refs, n, k);
    TakeTracks(taken, Open(refs, k), level, r, min);
    ProperNext(refs, k, level, r, min + 1);
    TakenIsOpen(taken, Open(refs, k), level, min);
    LevelsNext(refs, k, level, min + 1);
    OpenBounded(refs, n, k + 1);
  }

  lemma ProperLess(refs: seq<nat>, k: nat, level: seq<int>, r: nat)
    requires k < |refs| && ProperUpTo(refs, k, level) && Open(refs, k + 1) == Open(refs, k) - {r}
    ensures ProperUpTo(refs, k + 1, level)
  {
    ProperSubset(Open(refs, k), Open(refs, k + 1), level);
  }

  lemma ProperSubset(open: set<nat>, less: set<nat>, level: seq<int>)
    requires Proper(open, level) && less <= open
    ensures Proper(less, level)
  {
  }

  lemma ClosesTracks(refs: seq<nat>, n: nat, k: nat, taken: seq<bool>, level: seq<int>)
    requires Paired(refs, n) && k < |refs| && Tracks(taken, Open(refs, k), level) && refs[k] in refs[..k]
    ensures Seated(taken, level, refs[k])
    ensures Tracks(taken[level[refs[k]] - 1 := false], Open(refs, k + 1), level)
  {
    OpenStep(refs, n, k);
    FreeTracks(taken, Open(refs, k), level, refs[k]);
  }

  lemma ClosesProper(refs: seq<nat>, n: nat, k: nat, level: seq<int>)
    requires Paired(refs, n) && k < |refs| && ProperUpTo(refs, k, level) && refs[k] in refs[..k]
    ensures ProperUpTo(refs, k + 1, level)
  {
    OpenStep(refs, n, k);
    ProperLess(refs, k, level, refs[k]);
  }

  lemma LevelsSame(refs: seq<nat>, k: nat, level: seq<int>)
    requires k < |refs| && LevelsUpTo(refs, k, level) && refs[k] < |level| && refs[k] in refs[..k]
    ensures LevelsUpTo(refs, k + 1, level)
  {
    LevelsNext(refs, k, level, level[refs[k]]);
    assert level[refs[k] := level[refs[k]]] == level;
  }

  /** One end point. */
  method Visit(refs: seq<nat>, n: nat, k: nat, taken: array<bool>, min: nat, level: array<int>) returns (min': nat)
    requires Paired(refs, n) && k < |refs| && Inv(refs, n, k, taken[..], min, level[..])
    modifies taken, level
    ensures Inv(refs, n, k + 1, taken[..], min', level[..])
  {
    var r := refs[k];
    ghost var was, lv := taken[..], level[..];
    assert r < n && lv[r] == level[r] && (r in refs[..k] <==> level[r] != -1);
    if level[r] == -1 {
      Opens(refs, n, k, was, min, lv);
      level[r] := min + 1;
      ghost var now := level[..];
      assert now == lv[r := min + 1];
      min' := TakeSlot(taken, min, Open(refs, k + 1), now, n);
      assert level[..] == now;
    } else {
      ClosesTracks(refs, n, k, was, lv);
      ClosesProper(refs, n, k, lv);
      LevelsSame(refs, k, lv);
      min' := FreeSlot(taken, min, level[r] - 1);
      assert level[..] == lv;
    }
  }

  /** Gives each of `n` lines a level. */
  method AssignLevels(refs: seq<nat>, n: nat) returns (level: array<int>)
    requires Paired(refs, n)
    ensures level.Length == n && ProperUpTo(refs, |refs|, level[..]) && LevelsUpTo(refs, |refs|, level[..])
  {
    level := new int[n](_ => -1);
    var taken := new bool[n + 1](_ => false);
    var min := 0;
    assert Open(refs, 0) == {};
    for k := 0 to |refs|
      invariant level.Length == n && taken.Length == n + 1 && Inv(refs, n, k, taken[..], min, level[..])
    {
      min := Visit(refs, n, k, taken, min, level);
    }
  }

  /** No other way of giving lines that are open together different levels gets by with a lower highest level. */
  lemma Optimal(refs: seq<nat>, n: nat, level: seq<int>, other: nat -> int, r: nat)
    requires Paired(refs, n) && |level| == n && LevelsUpTo(refs, |refs|, level) && r < n
    requires forall s :: 0 <= s < n ==> other(s) >= 1
    requires forall i, s, t :: 0 <= i <= |refs| && s in Open(refs, i) && t in Open(refs, i) && s != t ==> other(s) != other(t)
    ensures exists s :: 0 <= s < n && other(s) >= level[r]
  {
    assert TwoEnds(refs, r);
    var a: nat, b: nat :| At(refs, r, a, b);
    assert refs[..|refs|] == refs && refs[a] in refs;
    var i :| 0 <= i <= |refs| && level[r] <= |Open(refs, i)|;
    OpenBounded(refs, n, i);
    if forall s :: 0 <= s < n ==> other(s) < level[r] {
      Pigeonhole(Open(refs, i), other, level[r] - 1);
    }
  }

  // ----- the end points

  datatype Line = Line(from: U64, to: U64)

  /** An address that lost its upper half. */
  function Int32(x: U64): int {
    var w := x % 0x1_0000_0000; if w >= 0x8000_0000 then w - 0x1_0000_0000 else w
  }

  datatype End = End(val: int, isFrom: bool, r: nat)

  function EndOf(l: Line, isFrom: bool, r: nat): End {
    End(Int32(if isFrom then l.from else l.to), isFrom, r)
  }

  ghost predicate Sorted(sten: seq<End>) {
    forall i, j :: 0 <= i < j < |sten| ==> sten[i].val <= sten[j].val
  }

  /** The list holds the two ends of every line, once each. */
  ghost predicate Complete(sten: seq<End>, lines: seq<Line>) {
    Distinct(sten) && forall e :: e in sten <==> IsEnd(lines, e)
  }

  ghost predicate IsEnd(lines: seq<Line>, e: End) {
    e.r < |lines| && e == EndOf(lines[e.r], e.isFrom, e.r)
  }

  /** `rz_list_add_sorted`: in front of the first element that is not smaller. */
  method AddSorted(sten: seq<End>, e: End) returns (s: seq<End>)
    requires Sorted(sten) && Distinct(sten) && e !in sten
    ensures Sorted(s) && Distinct(s) && forall x :: x in s <==> x in sten || x == e
  {
    var k := 0;
    while k < |sten| && e.val > sten[k].val
      invariant k <= |sten| && forall i :: 0 <= i < k ==> sten[i].val < e.val
    {
      k := k + 1;
    }
    s := sten[..k] + [e] + sten[k..];
    InsertKeeps(sten, e, k);
  }

  lemma InsertKeeps(sten: seq<End>, e: End, k: nat)
    requires k <= |sten| && Sorted(sten) && Distinct(sten) && e !in sten
    requires forall i :: 0 <= i < k ==> sten[i].val < e.val
    requires k < |sten| ==> e.val <= sten[k].val
    ensures var s := sten[..k] + [e] + sten[k..]; Sorted(s) && Distinct(s) && forall x :: x in s <==> x in sten || x == e
  {
    var s := sten[..k] + [e] + sten[k..];
    assert sten == sten[..k] + sten[k..];
    InsertSorted(sten, e, k, s);
    InsertDistinct(sten, e, k, s);
  }

  lemma InsertSorted(sten: seq<End>, e: End, k: nat, s: seq<End>)
    requires k <= |sten| && Sorted(sten) && (forall i :: 0 <= i < k ==> sten[i].val < e.val)
    requires k < |sten| ==> e.val <= sten[k].val
    requires s == sten[..k] + [e] + sten[k..]
    ensures Sorted(s)
  {
    assert forall i :: k <= i < |sten| ==> e.val <= sten[i].val;
    forall i, j | 0 <= i < j < |s| ensures s[i].val <= s[j].val {
      assert s[i] == if i < k then sten[i] else if i == k then e else sten[i - 1];
      assert s[j] == if j < k then sten[j] else if j == k then e else sten[j - 1];
    }
  }

  lemma InsertDistinct(sten: seq<End>, e: End, k: nat, s: seq<End>)
    requires k <= |sten| && Distinct(sten) && e !in sten && s == sten[..k] + [e] + sten[k..]
    ensures Distinct(s)
  {
    forall i, j | 0 <= i < j < |s| ensures s[i] != s[j] {
      assert s[i] == if i < k then sten[i] else if i == k then e else sten[i - 1];
      assert s[j] == if j < k then sten[j] else if j == k then e else sten[j - 1];
    }
  }

  method AddRefline(lines: seq<Line>, sten: seq<End>, from: U64, to: U64) returns (lines': seq<Line>, sten': seq<End>)
    requires Sorted(sten) && Complete(sten, lines)
    ensures lines' == lines + [Line(from, to)] && Sorted(sten') && Complete(sten', lines')
  {
    var item := Line(from, to);
    lines' := lines + [item];
    sten' := AddSorted(sten, End(Int32(item.from), true, |lines|));
    sten' := AddSorted(sten', End(Int32(item.to), false, |lines|));
    assert forall e :: IsEnd(lines', e) <==> IsEnd(lines, e) || e == EndOf(item, e.isFrom, |lines|);
  }

  function Refs(sten: seq<End>): (r: seq<nat>)
    ensures |r| == |sten| && forall i :: 0 <= i < |sten| ==> r[i] == sten[i].r
  {
    seq(|sten|, i requires 0 <= i < |sten| => sten[i].r)
  }

  function Lo(l: Line): int {
    if Int32(l.from) <= Int32(l.to) then Int32(l.from) else Int32(l.to)
  }

  function Hi(l: Line): int {
    if Int32(l.from) <= Int32(l.to) then Int32(l.to) else Int32(l.from)
  }

  /** Where the two ends of a line stand. */
  lemma EndsAt(sten: seq<End>, lines: seq<Line>, r: nat) returns (i: nat, j: nat)
    requires Sorted(sten) && Complete(sten, lines) && r < |lines|
    ensures At(Refs(sten), r, i, j) && sten[i].val == Lo(lines[r]) && sten[j].val == Hi(lines[r])
  {
    var f, t := EndOf(lines[r], true, r), EndOf(lines[r], false, r);
    assert IsEnd(lines, f) && IsEnd(lines, t);
    i :| 0 <= i < |sten| && sten[i] == f;
    j :| 0 <= j < |sten| && sten[j] == t;
    forall k | 0 <= k < |sten| && sten[k].r == r ensures k == i || k == j {
      assert sten[k] in sten;
      assert IsEnd(lines, sten[k]);
    }
    if i > j {
      i, j := j, i;
    }
  }

  lemma CompleteIsPaired(sten: seq<End>, lines: seq<Line>)
    requires Sorted(sten) && Complete(sten, lines)
    ensures Paired(Refs(sten), |lines|)
  {
    forall r: nat | r < |lines| ensures TwoEnds(Refs(sten), r) {
      var i, j := EndsAt(sten, lines, r);
    }
    forall k | 0 <= k < |sten| ensures Refs(sten)[k] < |lines| {
      assert sten[k] in sten;
      assert IsEnd(lines, sten[k]);
    }
  }

  /** The lines share more than an end point. */
  ghost predicate Overlap(l: Line, m: Line) {
    Lo(l) < Hi(m) && Lo(m) < Hi(l)
  }

  /** The lines share at least a point. */
  ghost predicate Touch(l: Line, m: Line) {
    Lo(l) <= Hi(m) && Lo(m) <= Hi(l)
  }

  lemma OverlapOpen(sten: seq<End>, lines: seq<Line>, r: nat, s: nat) returns (k: nat)
    requires Sorted(sten) && Complete(sten, lines) && r < |lines| && s < |lines| && Overlap(lines[r], lines[s])
    ensures k <= |sten| && r in Open(Refs(sten), k) && s in Open(Refs(sten), k)
  {
    var i, j := EndsAt(sten, lines, r);
    var i', j' := EndsAt(sten, lines, s);
    assert i < j' && i' < j;
    k := if i < i' then i' + 1 else i + 1;
    OpenBetween(Refs(sten), r, i, j, k);
    OpenBetween(Refs(sten), s, i', j', k);
  }

  lemma OpenTouch(sten: seq<End>, lines: seq<Line>, r: nat, s: nat, k: nat)
    requires Sorted(sten) && Complete(sten, lines) && r < |lines| && s < |lines| && k <= |sten|
    requires r in Open(Refs(sten), k) && s in Open(Refs(sten), k)
    ensures Touch(lines[r], lines[s])
  {
    var i, j := EndsAt(sten, lines, r);
    var i', j' := EndsAt(sten, lines, s);
    OpenBetween(Refs(sten), r, i, j, k);
    OpenBetween(Refs(sten), s, i', j', k);
  }

  /** A set of lines any two of which touch. */
  ghost predicate Clique(lines: seq<Line>, c: set<nat>) {
    (forall r :: r in c ==> r < |lines|) && forall r, s :: r in c && s in c && r < |lines| && s < |lines| ==> Touch(lines[r], lines[s])
  }

  /** So many lines come together. */
  ghost predicate Together(lines: seq<Line>, l: int) {
    exists c :: Clique(lines, c) && |c| >= l
  }

  // ----- what the truncation does

  /** The lines really overlap. */
  ghost predicate Crosses(l: Line, m: Line) {
    Min(l.from, l.to) < Max(m.from, m.to) && Min(m.from, m.to) < Max(l.from, l.to)
  }

  function Min(a: U64, b: U64): U64 { if a <= b then a else b }

  function Max(a: U64, b: U64): U64 { if a <= b then b else a }

  /** The 32-bit range around a multiple of 2^32 in which an address lies. */
  function Window(a: U64): nat {
    (a + 0x8000_0000) / 0x1_0000_0000
  }

  lemma Int32Of(a: U64)
    ensures Int32(a) == a - Window(a) * 0x1_0000_0000
  {
  }

  /** Two addresses keep their order exactly when they are further apart than their ranges. */
  lemma Int32Order(a: U64, b: U64)
    ensures Int32(a) <= Int32(b) <==> (Window(b) - Window(a)) * 0x1_0000_0000 <= b - a
  {
    Int32Of(a);
    Int32Of(b);
  }

  /** As long as all addresses lie in one range, the truncation changes nothing. */
  lemma SameWindow(l: Line, m: Line)
    requires Window(l.from) == Window(l.to) == Window(m.from) == Window(m.to)
    ensures Overlap(l, m) <==> Crosses(l, m)
  {
    Int32Of(l.from);
    Int32Of(l.to);
    Int32Of(m.from);
    Int32Of(m.to);
  }

  lemma WindowBetween(lo: U64, hi: U64, a: U64)
    requires lo <= a <= hi && Window(lo) == Window(hi)
    ensures Window(a) == Window(lo)
  {
    assert Window(lo) <= Window(a) <= Window(hi);
  }

  ghost predicate Inside(l: Line, lo: U64, hi: U64) {
    lo <= l.from <= hi && lo <= l.to <= hi
  }

  /** At the first address of a range the truncated values jump from the greatest to the least. */
  lemma FirstOfWindow(lo: U64, hi: U64) returns (b: U64)
    requires Window(lo) < Window(hi)
    ensures lo < b <= hi && Int32(b) == -0x8000_0000 && Int32(b - 1) == 0x7FFF_FFFF
    ensures b >= 2 ==> Int32(b - 2) == 0x7FFF_FFFE
    ensures b < UT64_MAX ==> Int32(b + 1) == -0x7FFF_FFFF
  {
    var w := Window(lo) + 1;
    b := w * 0x1_0000_0000 - 0x8000_0000;
    Int32Near(b, w, 0);
    Int32Near(b - 1, w, -1);
    if b >= 2 {
      Int32Near(b - 2, w, -2);
    }
    if b < UT64_MAX {
      Int32Near(b + 1, w, 1);
    }
  }

  lemma Int32Near(x: U64, w: nat, d: int)
    requires w >= 1 && -2 <= d <= 1 && x == w * 0x1_0000_0000 - 0x8000_0000 + d
    ensures Int32(x) == if d < 0 then 0x8000_0000 + d else d - 0x8000_0000
  {
    Int32Of(x);
    assert Window(x) == if d < 0 then w - 1 else w;
  }

  /** Whether a pair of lines inside [lo, hi] is told apart. */
  ghost predicate Seen(l: Line, m: Line, lo: U64, hi: U64) {
    Inside(l, lo, hi) && Inside(m, lo, hi) && Crosses(l, m) ==> Overlap(l, m)
  }

  /** A pair of lines inside [lo, hi] that cross, but do not even touch after the truncation. */
  ghost predicate TornApart(l: Line, m: Line, lo: U64, hi: U64) {
    Inside(l, lo, hi) && Inside(m, lo, hi) && Crosses(l, m) && !Touch(l, m)
  }

  lemma SeenInWindow(lo: U64, hi: U64, l: Line, m: Line)
    requires lo <= hi && Window(lo) == Window(hi)
    ensures Seen(l, m, lo, hi) && !TornApart(l, m, lo, hi)
  {
    if Inside(l, lo, hi) && Inside(m, lo, hi) {
      WindowBetween(lo, hi, l.from);
      WindowBetween(lo, hi, l.to);
      WindowBetween(lo, hi, m.from);
      WindowBetween(lo, hi, m.to);
      SameWindow(l, m);
    }
  }

  lemma TornAtBorder(lo: U64, hi: U64) returns (l: Line, m: Line)
    requires lo + 2 <= hi && Window(lo) < Window(hi)
    ensures TornApart(l, m, lo, hi) && !Seen(l, m, lo, hi)
  {
    var b := FirstOfWindow(lo, hi);
    if b - 2 >= lo {
      l, m := Line(b - 2, b), Line(b - 1, b - 1);
    } else {
      l, m := Line(b - 1, b + 1), Line(b, b);
    }
  }

  /** Between two addresses all crossing lines overlap after the truncation exactly if both lie in one range. If not, some
      of them do not even touch. */
  lemma WindowIff(lo: U64, hi: U64)
    requires lo + 2 <= hi
    ensures (forall l, m :: Seen(l, m, lo, hi)) <==> Window(lo) == Window(hi)
    ensures (exists l, m :: TornApart(l, m, lo, hi)) <==> Window(lo) != Window(hi)
  {
    if Window(lo) == Window(hi) {
      forall l, m ensures Seen(l, m, lo, hi) && !TornApart(l, m, lo, hi) {
        SeenInWindow(lo, hi, l, m);
      }
    } else {
      WindowsRise(lo, hi);
      var l, m := TornAtBorder(lo, hi);
    }
  }

  lemma WindowsRise(lo: U64, hi: U64)
    requires lo <= hi
    ensures Window(lo) <= Window(hi)
  {
  }

  /** All ends lie in one range. */
  ghost predicate OneWindow(lines: seq<Line>) {
    forall r, s :: 0 <= r < |lines| && 0 <= s < |lines| ==>
                     Window(lines[r].from) == Window(lines[r].to) == Window(lines[s].from) == Window(lines[s].to)
  }

  /** Lines and levels for a list of jumps. Lines that overlap get different levels, and a level is only used if that
      many lines come together somewhere. */
  method Layout(jumps: seq<Line>) returns (level: array<int>)
    ensures level.Length == |jumps| && forall r :: 0 <= r < |jumps| ==> level[r] >= 1
    ensures forall r, s :: 0 <= r < s < |jumps| && Overlap(jumps[r], jumps[s]) ==> level[r] != level[s]
    ensures forall r :: 0 <= r < |jumps| ==> Together(jumps, level[r])
    ensures OneWindow(jumps) ==> forall r, s :: 0 <= r < s < |jumps| && Crosses(jumps[r], jumps[s]) ==> level[r] != level[s]
  {
    var lines, sten: seq<End> := [], [];
    for k := 0 to |jumps|
      invariant lines == jumps[..k] && Sorted(sten) && Complete(sten, lines)
    {
      lines, sten := AddRefline(lines, sten, jumps[k].from, jumps[k].to);
    }
    assert lines == jumps;
    CompleteIsPaired(sten, lines);
    level := AssignLevels(Refs(sten), |jumps|);
    LayoutFacts(jumps, sten, level[..]);
    assert forall r :: 0 <= r < |jumps| ==> level[..][r] == level[r];
    if OneWindow(jumps) {
      forall r, s | 0 <= r < s < |jumps| && Crosses(jumps[r], jumps[s]) ensures level[r] != level[s] {
        SameWindow(jumps[r], jumps[s]);
      }
    }
  }

  lemma LayoutFacts(lines: seq<Line>, sten: seq<End>, level: seq<int>)
    requires Sorted(sten) && Complete(sten, lines) && |level| == |lines|
    requires ProperUpTo(Refs(sten), |sten|, level) && LevelsUpTo(Refs(sten), |sten|, level)
    ensures forall r :: 0 <= r < |lines| ==> level[r] >= 1 && Together(lines, level[r])
    ensures forall r, s :: 0 <= r < s < |lines| && Overlap(lines[r], lines[s]) ==> level[r] != level[s]
  {
    var refs := Refs(sten);
    CompleteIsPaired(sten, lines);
    forall r | 0 <= r < |lines| ensures level[r] >= 1 && Together(lines, level[r]) {
      var a, b := EndsAt(sten, lines, r);
      assert refs[..|refs|] == refs && refs[a] in refs;
      var i :| 0 <= i <= |refs| && level[r] <= |Open(refs, i)|;
      OpenClique(lines, sten, i);
    }
    forall r, s | 0 <= r < s < |lines| && Overlap(lines[r], lines[s]) ensures level[r] != level[s] {
      var k := OverlapOpen(sten, lines, r, s);
      assert Proper(Open(refs, k), level);
    }
  }

  lemma OpenClique(lines: seq<Line>, sten: seq<End>, i: nat)
    requires Sorted(sten) && Complete(sten, lines) && i <= |sten|
    ensures Clique(lines, Open(Refs(sten), i))
  {
    var open := Open(Refs(sten), i);
    CompleteIsPaired(sten, lines);
    OpenBounded(Refs(sten), |lines|, i);
    forall r, s | r in open && s in open && r < |lines| && s < |lines| ensures Touch(lines[r], lines[s]) {
      OpenTouch(sten, lines, r, s, i);
    }
  }

  /** Two lines alone: they share the first level unless they touch after the truncation. */
  method TwoLines(l: Line, m: Line) returns (a: int, b: int)
    ensures !Touch(l, m) ==> a == 1 && b == 1
    ensures Overlap(l, m) ==> a != b
    ensures 1 <= a <= 2 && 1 <= b <= 2
  {
    var level := Layout([l, m]);
    a, b := level[0], level[1];
    LevelOfTwo(l, m, a);
    LevelOfTwo(l, m, b);
  }

  lemma LevelOfTwo(l: Line, m: Line, level: int)
    requires Together([l, m], level)
    ensures level <= 2 && (!Touch(l, m) ==> level <= 1)
  {
    var lines := [l, m];
    var c :| Clique(lines, c) && |c| >= level;
    BoundedSet(c, 2);
    if !Touch(l, m) {
      assert c <= {0} || c <= {1};
      assert |{0}| == 1 && |{1}| == 1;
      SubsetSize(c, if 0 in c then {0} else {1});
    }
  }

  lemma SubsetSize(c: set<nat>, d: set<nat>)
    requires c <= d
    ensures |c| <= |d|
  {
    assert |d| == |c| + |d - c| by { assert c + (d - c) == d; }
  }

  /** A line from one range into the next and a line inside it: they cross, and are drawn on the same level. */
  method CrossingShareLevel() returns (l: Line, m: Line, a: int, b: int)
    ensures Crosses(l, m) && !Touch(l, m) && a == b
  {
    l, m := Line(0x7FFF_FFF0, 0x8000_0010), Line(0x7FFF_FFF4, 0x7FFF_FFF6);
    a, b := TwoLines(l, m);
  }
}
