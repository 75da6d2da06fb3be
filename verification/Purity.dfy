/** The purity check: a depth-first walk over the call graph that assumes functions on its stack to be pure. */
module Purity {
  import opened Machine

  datatype Kind = CallRef | CodeRef | DataRef | OtherRef

  /** A reference out of a function, with the function that holds its target, if there is one. */
  datatype Ref = Ref(kind: Kind, target: Option<nat>)

  /** The references of each function, which is identified by its address. */
  type CallGraph = map<nat, seq<Ref>>

  // ----- what purity means

  /** A call, or a jump into another function: both are followed. */
  ghost predicate RefersTo(r: Ref, t: nat) {
    (r.kind.CallRef? || r.kind.CodeRef?) && r.target == Some(t)
  }

  /** Every function that is called is in the graph. */
  ghost predicate Resolved(g: CallGraph) {
    forall f, i, t :: f in g && 0 <= i < |g[f]| && RefersTo(g[f][i], t) ==> t in g
  }

  ghost predicate HasData(g: CallGraph, f: nat)
    requires f in g
  {
    exists i :: 0 <= i < |g[f]| && g[f][i].kind.DataRef?
  }

  ghost predicate Calls(g: CallGraph, f: nat, t: nat)
    requires f in g
  {
    exists i :: 0 <= i < |g[f]| && (g[f][i].kind.CallRef? || g[f][i].kind.CodeRef?) && g[f][i].target == Some(t)
  }

  /** A chain of calls that ends in a function with a data reference. */
  ghost predicate DataChain(g: CallGraph, p: seq<nat>) {
    && p != []
    && (forall i :: 0 <= i < |p| ==> p[i] in g)
    && (forall i :: 0 <= i < |p| - 1 ==> Calls(g, p[i], p[i + 1]))
    && HasData(g, p[|p| - 1])
  }

  ghost predicate TouchesData(g: CallGraph, f: nat) {
    exists p :: DataChain(g, p) && p[0] == f
  }

  lemma DataTouches(g: CallGraph, f: nat)
    requires f in g && HasData(g, f)
    ensures TouchesData(g, f)
  {
    assert DataChain(g, [f]);
  }

  lemma CallTouches(g: CallGraph, f: nat, t: nat)
    requires f in g && Calls(g, f, t) && TouchesData(g, t)
    ensures TouchesData(g, f)
  {
    var p :| DataChain(g, p) && p[0] == t;
    var q := [f] + p;
    forall i | 0 <= i < |q| - 1 ensures Calls(g, q[i], q[i + 1]) {
      if i > 0 {
        assert Calls(g, p[i - 1], p[i - 1 + 1]);
      }
    }
    assert DataChain(g, q);
  }

  // ----- the walk

  /** The function the walk follows a reference to. */
  function Callee(r: Ref): (t: Option<nat>)
    ensures forall c: nat :: t == Some(c) <==> RefersTo(r, c)
  {
    if r.kind.CallRef? || r.kind.CodeRef? then r.target else None
  }

  /** The table of functions seen so far, and the `is_pure` flags. */
  datatype Marks = Marks(checked: set<nat>, pure: map<nat, bool>)

  ghost predicate Valid(g: CallGraph, m: Marks) {
    Resolved(g) && m.checked <= g.Keys && m.pure.Keys == g.Keys
  }

  ghost function CheckFn(g: CallGraph, m: Marks, f: nat): (r: Marks)
    requires Valid(g, m) && f in g && f !in m.checked
    ensures Valid(g, r) && m.checked + {f} <= r.checked
    decreases g.Keys - m.checked, 0
  {
    CheckRefs(g, Marks(m.checked + {f}, m.pure[f := true]), f, 0)
  }

  /** The references of `f` from number `i` on. */
  ghost function CheckRefs(g: CallGraph, m: Marks, f: nat, i: nat): (r: Marks)
    requires Valid(g, m) && f in m.checked && i <= |g[f]|
    ensures Valid(g, r) && m.checked <= r.checked
    decreases g.Keys - m.checked, |g[f]| - i + 1
  {
    if i == |g[f]| then m
    else
      var t := Callee(g[f][i]);
      if t.Some? then
        var m' := if t.value in m.checked then m else CheckFn(g, m, t.value);
        if m'.pure[t.value] then CheckRefs(g, m', f, i + 1) else m'.(pure := m'.pure[f := false])
      else if g[f][i].kind.DataRef? then m.(pure := m.pure[f := false])
      else CheckRefs(g, m, f, i + 1)
  }

  // ----- what the walk leaves behind

  /** A flag that says impure is right. */
  ghost predicate Sound(g: CallGraph, m: Marks)
    requires Valid(g, m)
  {
    forall h :: h in m.checked && !m.pure[h] ==> TouchesData(g, h)
  }

  /** The first `i` references of `h` are no data and lead into the checked functions. */
  ghost predicate Settled(g: CallGraph, h: nat, i: nat, checked: set<nat>)
    requires h in g && i <= |g[h]|
  {
    forall j :: 0 <= j < i ==>
                  !g[h][j].kind.DataRef? && (Callee(g[h][j]).Some? ==> Callee(g[h][j]).value in checked)
  }

  /** Every function checked since `base` is marked pure, and there is nothing more to see from it. */
  ghost predicate AllSettled(g: CallGraph, base: set<nat>, m: Marks)
    requires Valid(g, m)
  {
    forall h :: h in m.checked - base ==> m.pure[h] && Settled(g, h, |g[h]|, m.checked)
  }

  /** Every function checked since `base` and left marked pure has all its references behind it. */
  ghost predicate PureSettled(g: CallGraph, base: set<nat>, m: Marks)
    requires Valid(g, m)
  {
    forall h :: h in m.checked - base && m.pure[h] ==> Settled(g, h, |g[h]|, m.checked)
  }

  /** The flags of the functions in `base`, except that of `f`, are as they were. */
  ghost predicate FlagsKept(base: set<nat>, m: Marks, r: Marks, f: nat) {
    forall h :: h in base && h != f && h in m.pure && h in r.pure ==> r.pure[h] == m.pure[h]
  }

  lemma AllSettledTrans(g: CallGraph, base: set<nat>, m: Marks, r: Marks, f: nat)
    requires Valid(g, m) && Valid(g, r) && m.checked <= r.checked && f in base
    requires AllSettled(g, base, m) && FlagsKept(m.checked, m, r, f) && AllSettled(g, m.checked, r)
    ensures AllSettled(g, base, r)
  {
    forall h | h in r.checked - base ensures r.pure[h] && Settled(g, h, |g[h]|, r.checked) {
      if h in m.checked {
        assert h in m.checked - base && h in m.pure && h in r.pure;
      }
    }
  }

  lemma PureSettledTrans(g: CallGraph, base: set<nat>, m: Marks, r: Marks, f: nat)
    requires Valid(g, m) && Valid(g, r) && m.checked <= r.checked && f in base
    requires PureSettled(g, base, m) && FlagsKept(m.checked, m, r, f) && PureSettled(g, m.checked, r)
    ensures PureSettled(g, base, r)
  {
    forall h | h in r.checked - base && r.pure[h] ensures Settled(g, h, |g[h]|, r.checked) {
      if h in m.checked {
        assert h in m.checked - base && h in m.pure && h in r.pure;
      }
    }
  }

  lemma {:induction false} CheckFnFacts(g: CallGraph, m: Marks, f: nat)
    requires Valid(g, m) && f in g && f !in m.checked && Sound(g, m)
    ensures var r := CheckFn(g, m, f);
            && Sound(g, r) && FlagsKept(m.checked, m, r, f) && PureSettled(g, m.checked, r)
            && (r.pure[f] ==> AllSettled(g, m.checked, r))
    decreases g.Keys - m.checked, 0
  {
    var m1 := Marks(m.checked + {f}, m.pure[f := true]);
    CheckRefsFacts(g, m1, f, 0);
    var r := CheckRefs(g, m1, f, 0);
    forall h | h in r.checked - m.checked && r.pure[h] ensures Settled(g, h, |g[h]|, r.checked) {
      if h != f {
        assert h in r.checked - m1.checked;
      }
    }
    if r.pure[f] {
      forall h | h in r.checked - m.checked ensures r.pure[h] && Settled(g, h, |g[h]|, r.checked) {
        if h != f {
          assert h in r.checked - m1.checked;
        }
      }
    }
  }

  lemma {:induction false} CheckRefsFacts(g: CallGraph, m: Marks, f: nat, i: nat)
    requires Valid(g, m) && f in m.checked && i <= |g[f]| && Sound(g, m) && m.pure[f] && Settled(g, f, i, m.checked)
    ensures var r := CheckRefs(g, m, f, i);
            && Sound(g, r) && FlagsKept(m.checked, m, r, f) && PureSettled(g, m.checked, r)
            && (r.pure[f] ==> AllSettled(g, m.checked, r) && Settled(g, f, |g[f]|, r.checked))
    decreases g.Keys - m.checked, |g[f]| - i + 1
  {
    if i < |g[f]| {
      var t := Callee(g[f][i]);
      if t.Some? {
        assert Calls(g, f, t.value);
        var m' := if t.value in m.checked then m else CheckFn(g, m, t.value);
        if t.value !in m.checked {
          CheckFnFacts(g, m, t.value);
        }
        if m'.pure[t.value] {
          CheckRefsFacts(g, m', f, i + 1);
          var r := CheckRefs(g, m', f, i + 1);
          PureSettledTrans(g, m.checked, m', r, f);
          if r.pure[f] {
            AllSettledTrans(g, m.checked, m', r, f);
          }
        } else {
          CallTouches(g, f, t.value);
        }
      } else if g[f][i].kind.DataRef? {
        DataTouches(g, f);
      } else {
        CheckRefsFacts(g, m, f, i + 1);
      }
    }
  }

  /** Nothing with data is reached from a set of functions that is settled in itself. */
  lemma {:induction false} SettledHasNoChain(g: CallGraph, s: set<nat>, p: seq<nat>)
    requires s <= g.Keys && DataChain(g, p) && forall h :: h in s ==> Settled(g, h, |g[h]|, s)
    ensures p[0] !in s
  {
    if p[0] in s {
      if |p| > 1 {
        var q := p[1..];
        assert Calls(g, p[0], p[0 + 1]);
        forall i | 0 <= i < |q| - 1 ensures Calls(g, q[i], q[i + 1]) {
          assert Calls(g, p[i + 1], p[i + 1 + 1]);
        }
        SettledHasNoChain(g, s, q);
      }
    }
  }

  /** Started with an empty table, the walk is right about the function asked for. */
  lemma ExactForRoot(g: CallGraph, pure: map<nat, bool>, f: nat)
    requires Resolved(g) && pure.Keys == g.Keys && f in g
    ensures CheckFn(g, Marks({}, pure), f).pure[f] <==> !TouchesData(g, f)
  {
    var m := Marks({}, pure);
    CheckFnFacts(g, m, f);
    var r := CheckFn(g, m, f);
    if r.pure[f] && TouchesData(g, f) {
      var p :| DataChain(g, p) && p[0] == f;
      SettledHasNoChain(g, r.checked, p);
    }
  }

  /** If it finds the function pure, every flag it set is right as well. */
  lemma PureRootMeansAllPure(g: CallGraph, pure: map<nat, bool>, f: nat, h: nat)
    requires Resolved(g) && pure.Keys == g.Keys && f in g
    requires var r := CheckFn(g, Marks({}, pure), f); r.pure[f] && h in r.checked
    ensures CheckFn(g, Marks({}, pure), f).pure[h] && !TouchesData(g, h)
  {
    var m := Marks({}, pure);
    CheckFnFacts(g, m, f);
    var r := CheckFn(g, m, f);
    if TouchesData(g, h) {
      var p :| DataChain(g, p) && p[0] == h;
      SettledHasNoChain(g, r.checked, p);
    }
  }

  // ----- when the flags inside are right

  /** A chain of calls. */
  ghost predicate CallPath(g: CallGraph, p: seq<nat>) {
    && p != [] && (forall i :: 0 <= i < |p| ==> p[i] in g)
    && (forall i :: 0 <= i < |p| - 1 ==> Calls(g, p[i], p[i + 1]))
  }

  ghost predicate Leads(g: CallGraph, a: nat, b: nat) {
    exists p :: CallPath(g, p) && p[0] == a && p[|p| - 1] == b
  }

  lemma LeadsSelf(g: CallGraph, a: nat)
    requires a in g
    ensures Leads(g, a, a)
  {
    assert CallPath(g, [a]);
  }

  lemma LeadsCall(g: CallGraph, a: nat, b: nat, t: nat)
    requires Leads(g, a, b) && b in g && t in g && Calls(g, b, t)
    ensures Leads(g, a, t)
  {
    var p :| CallPath(g, p) && p[0] == a && p[|p| - 1] == b;
    var q := p + [t];
    forall i | 0 <= i < |q| - 1 ensures Calls(g, q[i], q[i + 1]) {
      assert i < |p| - 1 ==> Calls(g, p[i], p[i + 1]);
    }
    assert CallPath(g, q) && q[0] == a && q[|q| - 1] == t;
  }

  lemma PathTail(g: CallGraph, p: seq<nat>)
    requires CallPath(g, p) && |p| > 1
    ensures CallPath(g, p[1..])
  {
    forall i | 0 <= i < |p[1..]| - 1 ensures Calls(g, p[1..][i], p[1..][i + 1]) {
      assert Calls(g, p[i + 1], p[i + 1 + 1]);
    }
  }

  lemma {:induction false} TouchesAlong(g: CallGraph, p: seq<nat>)
    requires CallPath(g, p) && TouchesData(g, p[|p| - 1])
    ensures TouchesData(g, p[0])
  {
    if |p| > 1 {
      PathTail(g, p);
      TouchesAlong(g, p[1..]);
      assert Calls(g, p[0], p[0 + 1]);
      CallTouches(g, p[0], p[1]);
    }
  }

  /** `h` leads by calls to a checked function that is marked impure. */
  ghost predicate LeadsToImpure(g: CallGraph, m: Marks, h: nat)
    requires Valid(g, m)
  {
    exists d :: d in m.checked && !m.pure[d] && Leads(g, h, d)
  }

  /** A chain to data from a checked function meets one that is marked impure. */
  lemma {:induction false} ChainMeetsImpure(g: CallGraph, m: Marks, p: seq<nat>, start: nat, k: nat)
    requires Valid(g, m) && PureSettled(g, {}, m) && DataChain(g, p) && k < |p| && p[k] in m.checked
    requires start in g && Leads(g, start, p[k])
    ensures LeadsToImpure(g, m, start)
    decreases |p| - k
  {
    if m.pure[p[k]] {
      assert Settled(g, p[k], |g[p[k]]|, m.checked);
      if k + 1 < |p| {
        assert Calls(g, p[k], p[k + 1]);
        LeadsCall(g, start, p[k], p[k + 1]);
        ChainMeetsImpure(g, m, p, start, k + 1);
      }
    }
  }

  /** For every function the walk checked, whatever its flag: it reaches data exactly if it leads by calls to a checked
      function marked impure. So a flag that says pure is wrong exactly for those. */
  lemma FlagsTell(g: CallGraph, pure: map<nat, bool>, f: nat, h: nat)
    requires Resolved(g) && pure.Keys == g.Keys && f in g && h in CheckFn(g, Marks({}, pure), f).checked
    ensures TouchesData(g, h) <==> LeadsToImpure(g, CheckFn(g, Marks({}, pure), f), h)
  {
    CheckFnFacts(g, Marks({}, pure), f);
    MarksTell(g, CheckFn(g, Marks({}, pure), f), h);
  }

  lemma MarksTell(g: CallGraph, r: Marks, h: nat)
    requires Valid(g, r) && Sound(g, r) && PureSettled(g, {}, r) && h in r.checked
    ensures TouchesData(g, h) <==> LeadsToImpure(g, r, h)
  {
    if TouchesData(g, h) {
      var p :| DataChain(g, p) && p[0] == h;
      LeadsSelf(g, h);
      ChainMeetsImpure(g, r, p, h, 0);
    }
    if LeadsToImpure(g, r, h) {
      var d :| d in r.checked && !r.pure[d] && Leads(g, h, d);
      var p :| CallPath(g, p) && p[0] == h && p[|p| - 1] == d;
      TouchesAlong(g, p);
    }
  }

  ghost predicate OnCycle(g: CallGraph, h: nat) {
    h in g && exists t :: t in g && Calls(g, h, t) && Leads(g, t, h)
  }

  /** The flag of `h` is right. */
  ghost predicate Exact(g: CallGraph, m: Marks, h: nat)
    requires Valid(g, m) && h in g
  {
    m.pure[h] <==> !TouchesData(g, h)
  }

  /** All checked functions that are not on the stack of the walk have the right flag. */
  ghost predicate ExactBut(g: CallGraph, m: Marks, stack: set<nat>)
    requires Valid(g, m)
  {
    forall h :: h in m.checked && h !in stack ==> Exact(g, m, h)
  }

  /** Everything on the stack leads to `f`, and nothing `f` leads to is on a cycle. */
  ghost predicate OnStack(g: CallGraph, stack: set<nat>, f: nat) {
    f in g && (forall s :: s in stack ==> Leads(g, s, f)) && forall h :: Leads(g, f, h) ==> !OnCycle(g, h)
  }

  lemma NotOnStack(g: CallGraph, stack: set<nat>, f: nat, t: nat)
    requires OnStack(g, stack, f) && t in g && Calls(g, f, t)
    ensures t !in stack && t != f && OnStack(g, stack + {f}, t)
  {
    LeadsSelf(g, f);
    LeadsCall(g, f, f, t);
    if t in stack || t == f {
      CallsBack(g, f, t);
    }
    forall s | s in stack + {f} ensures Leads(g, s, t) {
      if s != f {
        LeadsCall(g, s, f, t);
      }
    }
    forall h | Leads(g, t, h) ensures Leads(g, f, h) {
      LeadsThrough(g, f, t, h);
    }
  }

  lemma CallsBack(g: CallGraph, f: nat, t: nat)
    requires f in g && t in g && Calls(g, f, t) && Leads(g, t, f)
    ensures OnCycle(g, f)
  {
  }

  lemma LeadsThrough(g: CallGraph, f: nat, t: nat, h: nat)
    requires f in g && Calls(g, f, t) && Leads(g, t, h)
    ensures Leads(g, f, h)
  {
    var p :| CallPath(g, p) && p[0] == t && p[|p| - 1] == h;
    var q := [f] + p;
    forall i | 0 <= i < |q| - 1 ensures Calls(g, q[i], q[i + 1]) {
      if i > 0 {
        assert Calls(g, p[i - 1], p[i - 1 + 1]);
      }
    }
    assert CallPath(g, q) && q[0] == f && q[|q| - 1] == h;
  }

  lemma {:induction false} AcyclicFn(g: CallGraph, m: Marks, f: nat, stack: set<nat>)
    requires Valid(g, m) && f in g && f !in m.checked && Sound(g, m) && OnStack(g, stack, f) && ExactBut(g, m, stack)
    ensures ExactBut(g, CheckFn(g, m, f), stack)
    decreases g.Keys - m.checked, 0
  {
    var m1 := Marks(m.checked + {f}, m.pure[f := true]);
    assert ExactBut(g, m1, stack + {f}) by {
      forall h | h in m1.checked && h !in stack + {f} ensures Exact(g, m1, h) {
        assert Exact(g, m, h);
      }
    }
    AcyclicRefs(g, m1, f, 0, stack);
  }

  /** The first `i` references of `f` are no data and lead to functions that reach none. */
  ghost predicate CleanUpTo(g: CallGraph, f: nat, i: nat)
    requires f in g && i <= |g[f]|
  {
    forall j :: 0 <= j < i ==> !g[f][j].kind.DataRef? && (Callee(g[f][j]).Some? ==> !TouchesData(g, Callee(g[f][j]).value))
  }

  lemma CleanHasNoData(g: CallGraph, f: nat)
    requires f in g && CleanUpTo(g, f, |g[f]|)
    ensures !TouchesData(g, f)
  {
    if TouchesData(g, f) {
      var p :| DataChain(g, p) && p[0] == f;
      if |p| > 1 {
        assert Calls(g, p[0], p[0 + 1]);
        ChainTail(g, p);
      }
    }
  }

  lemma ChainTail(g: CallGraph, p: seq<nat>)
    requires DataChain(g, p) && |p| > 1
    ensures TouchesData(g, p[1])
  {
    var q := p[1..];
    forall i | 0 <= i < |q| - 1 ensures Calls(g, q[i], q[i + 1]) {
      assert Calls(g, p[i + 1], p[i + 1 + 1]);
    }
    assert DataChain(g, q);
  }

  lemma {:induction false} AcyclicCall(g: CallGraph, m: Marks, f: nat, t: nat, stack: set<nat>)
    requires Valid(g, m) && f in m.checked && Sound(g, m) && m.pure[f] && t in g && Calls(g, f, t)
    requires OnStack(g, stack, f) && ExactBut(g, m, stack + {f})
    ensures var m' := if t in m.checked then m else CheckFn(g, m, t);
            Sound(g, m') && m'.pure[f] && Exact(g, m', t) && ExactBut(g, m', stack + {f})
    decreases g.Keys - m.checked, 1
  {
    NotOnStack(g, stack, f, t);
    if t !in m.checked {
      CheckFnFacts(g, m, t);
      AcyclicFn(g, m, t, stack + {f});
    }
  }

  lemma {:induction false} AcyclicRefs(g: CallGraph, m: Marks, f: nat, i: nat, stack: set<nat>)
    requires Valid(g, m) && f in m.checked && i <= |g[f]| && Sound(g, m) && m.pure[f] && CleanUpTo(g, f, i)
    requires OnStack(g, stack, f) && ExactBut(g, m, stack + {f})
    ensures ExactBut(g, CheckRefs(g, m, f, i), stack)
    decreases g.Keys - m.checked, |g[f]| - i + 1
  {
    if i == |g[f]| {
      CleanHasNoData(g, f);
    } else {
      var t := Callee(g[f][i]);
      if t.Some? {
        assert Calls(g, f, t.value);
        AcyclicCall(g, m, f, t.value, stack);
        var m' := if t.value in m.checked then m else CheckFn(g, m, t.value);
        if m'.pure[t.value] {
          AcyclicRefs(g, m', f, i + 1, stack);
        } else {
          CallTouches(g, f, t.value);
          ImpureExact(g, m', f, stack);
        }
      } else if g[f][i].kind.DataRef? {
        DataTouches(g, f);
        ImpureExact(g, m, f, stack);
      } else {
        AcyclicRefs(g, m, f, i + 1, stack);
      }
    }
  }

  lemma ImpureExact(g: CallGraph, m: Marks, f: nat, stack: set<nat>)
    requires Valid(g, m) && f in m.checked && ExactBut(g, m, stack + {f}) && TouchesData(g, f)
    ensures ExactBut(g, m.(pure := m.pure[f := false]), stack)
  {
    var r := m.(pure := m.pure[f := false]);
    forall h | h in r.checked && h !in stack ensures Exact(g, r, h) {
      if h != f {
        assert Exact(g, m, h);
      }
    }
  }

  /** If no function that `f` leads to lies on a cycle of calls, every flag the walk sets is right. */
  lemma AcyclicExact(g: CallGraph, pure: map<nat, bool>, f: nat, h: nat)
    requires Resolved(g) && pure.Keys == g.Keys && f in g && (forall t :: Leads(g, f, t) ==> !OnCycle(g, t))
    requires h in CheckFn(g, Marks({}, pure), f).checked
    ensures Exact(g, CheckFn(g, Marks({}, pure), f), h)
  {
    AcyclicFn(g, Marks({}, pure), f, {});
  }

  /** Inside a cycle a flag may be too optimistic: 1 calls 0, which has data behind its call of 1. */
  lemma OptimisticInside(pure: map<nat, bool>)
    requires pure.Keys == {0, 1}
    ensures var g := map[0 := [Ref(CallRef, Some(1)), Ref(DataRef, None)], 1 := [Ref(CallRef, Some(0))]];
            Resolved(g) && CheckFn(g, Marks({}, pure), 0).pure[1] && TouchesData(g, 1)
  {
    var g: CallGraph := map[0 := [Ref(CallRef, Some(1)), Ref(DataRef, None)], 1 := [Ref(CallRef, Some(0))]];
    var m0 := Marks({} + {0}, pure[0 := true]);
    var m1 := Marks(m0.checked + {1}, m0.pure[1 := true]);
    assert CheckRefs(g, m1, 1, 1) == m1;
    assert CheckRefs(g, m1, 1, 0) == m1;
    assert CheckFn(g, m0, 1) == m1;
    assert CheckRefs(g, m1, 0, 1) == m1.(pure := m1.pure[0 := false]);
    assert CheckRefs(g, m0, 0, 0) == CheckRefs(g, m1, 0, 1);
    assert g[0][1].kind.DataRef?;
    DataTouches(g, 0);
    assert Callee(g[1][0]) == Some(0);
    CallTouches(g, 1, 0);
  }

  // ----- the walk as it runs

  class Checker {
    const g: CallGraph
    var checked: set<nat>
    var pure: map<nat, bool>

    constructor (g: CallGraph, pure: map<nat, bool>)
      ensures this.g == g && this.checked == {} && this.pure == pure
    {
      this.g, this.checked, this.pure := g, {}, pure;
    }

    method CheckPurity(f: nat)
      requires Valid(g, Marks(checked, pure)) && f in g && f !in checked
      modifies this
      ensures Marks(checked, pure) == old(CheckFn(g, Marks(checked, pure), f))
      decreases g.Keys - checked
    {
      checked := checked + {f};
      pure := pure[f := true];
      ghost var result := CheckRefs(g, Marks(checked, pure), f, 0);
      var i := 0;
      while i < |g[f]|
        invariant i <= |g[f]| && old(checked) + {f} <= checked && Valid(g, Marks(checked, pure))
        invariant CheckRefs(g, Marks(checked, pure), f, i) == result
      {
        var ref := g[f][i];
        if (ref.kind.CallRef? || ref.kind.CodeRef?) && ref.target.Some? {
          var t := ref.target.value;
          if t !in checked {
            CheckPurity(t);
          }
          if !pure[t] {
            pure := pure[f := false];
            return;
          }
        }
        if ref.kind.DataRef? {
          pure := pure[f := false];
          return;
        }
        i := i + 1;
      }
    }
  }

  /** Asks for the purity of a function; the flags are only brought up to date when the function has changed. */
  method FunctionPurity(g: CallGraph, hasChanged: bool, pure: map<nat, bool>, f: nat)
    returns (answer: bool, pure': map<nat, bool>)
    requires Resolved(g) && pure.Keys == g.Keys && f in g
    ensures pure'.Keys == g.Keys && answer == pure'[f]
    ensures hasChanged ==> (answer <==> !TouchesData(g, f))
    ensures forall h :: h in g && pure'[h] != pure[h] && !pure'[h] ==> TouchesData(g, h)
    ensures hasChanged && (forall t :: Leads(g, f, t) ==> !OnCycle(g, t)) ==>
              forall h :: h in g && pure'[h] != pure[h] ==> (pure'[h] <==> !TouchesData(g, h))
    ensures answer && hasChanged ==> forall h :: h in g && pure'[h] != pure[h] ==> !TouchesData(g, h)
    ensures !hasChanged ==> pure' == pure
  {
    pure' := pure;
    if hasChanged {
      var c := new Checker(g, pure);
      c.CheckPurity(f);
      pure' := c.pure;
      ExactForRoot(g, pure, f);
      ghost var r := CheckFn(g, Marks({}, pure), f);
      CheckFnFacts(g, Marks({}, pure), f);
      CheckFnFlags(g, Marks({}, pure), f);
      if forall t :: Leads(g, f, t) ==> !OnCycle(g, t) {
        forall h | h in g && pure'[h] != pure[h] ensures pure'[h] <==> !TouchesData(g, h) {
          AcyclicExact(g, pure, f, h);
        }
      }
      if r.pure[f] {
        forall h | h in g && pure'[h] != pure[h] ensures !TouchesData(g, h) {
          PureRootMeansAllPure(g, pure, f, h);
        }
      }
    }
    answer := pure'[f];
  }

  /** Functions the walk does not get to keep their flags. */
  lemma {:induction false} CheckFnFlags(g: CallGraph, m: Marks, f: nat)
    requires Valid(g, m) && f in g && f !in m.checked
    ensures var r := CheckFn(g, m, f); forall h :: h in g && h !in r.checked ==> r.pure[h] == m.pure[h]
    decreases g.Keys - m.checked, 0
  {
    CheckRefsFlags(g, Marks(m.checked + {f}, m.pure[f := true]), f, 0);
  }

  lemma {:induction false} CheckRefsFlags(g: CallGraph, m: Marks, f: nat, i: nat)
    requires Valid(g, m) && f in m.checked && i <= |g[f]|
    ensures var r := CheckRefs(g, m, f, i); forall h :: h in g && h !in r.checked ==> r.pure[h] == m.pure[h]
    decreases g.Keys - m.checked, |g[f]| - i + 1
  {
    if i < |g[f]| {
      var t := Callee(g[f][i]);
      if t.Some? {
        var m' := if t.value in m.checked then m else CheckFn(g, m, t.value);
        if t.value !in m.checked {
          CheckFnFlags(g, m, t.value);
        }
        if m'.pure[t.value] {
          CheckRefsFlags(g, m', f, i + 1);
        }
      } else if !g[f][i].kind.DataRef? {
        CheckRefsFlags(g, m, f, i + 1);
      }
    }
  }
}
