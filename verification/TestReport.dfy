/** What the rz-test main thread reports: every result once and in order, and counters that add up. */
module TestReport {
  import opened Machine
  import opened TestRunner

  // ----- counting

  function OnResults(rs: seq<Result>, p: Path): nat {
    if rs == [] then 0 else OnResults(rs[..|rs| - 1], p) + if rs[|rs| - 1].test.path == p then 1 else 0
  }

  function FlightOf(w: Worker, p: Path): nat {
    match w
    case Running(t) => if t.path == p then 1 else 0
    case Finished(r) => if r.test.path == p then 1 else 0
    case Recording(r) => if r.test.path == p then 1 else 0
    case _ => 0
  }

  function FlightOn(ws: seq<Worker>, p: Path): nat {
    if ws == [] then 0 else FlightOf(ws[0], p) + FlightOn(ws[1..], p)
  }

  /** Outcome counts over the results whose path is in `ps`. */
  function TallyIn(rs: seq<Result>, ps: set<Path>): Tally {
    if rs == [] then Tally(0, 0, 0, 0)
    else
      var r := rs[|rs| - 1];
      if r.test.path in ps then Bump(TallyIn(rs[..|rs| - 1], ps), r.outcome) else TallyIn(rs[..|rs| - 1], ps)
  }

  function TallyOf(rs: seq<Result>): Tally {
    if rs == [] then Tally(0, 0, 0, 0) else Bump(TallyOf(rs[..|rs| - 1]), rs[|rs| - 1].outcome)
  }

  function Total(t: Tally): nat {
    t.ok + t.xx + t.br + t.fx
  }

  lemma {:induction false} TallyTotal(rs: seq<Result>)
    ensures Total(TallyOf(rs)) == |rs|
  {
    if rs != [] {
      TallyTotal(rs[..|rs| - 1]);
    }
  }

  lemma {:induction false} TallyInAll(rs: seq<Result>, ps: set<Path>)
    requires forall i :: 0 <= i < |rs| ==> rs[i].test.path in ps
    ensures TallyIn(rs, ps) == TallyOf(rs)
  {
    if rs != [] {
      TallyInAll(rs[..|rs| - 1], ps);
    }
  }

  lemma {:induction false} TallyInAdd(rs: seq<Result>, ps: set<Path>, p: Path)
    requires p !in ps
    ensures TallyIn(rs, ps + {p}) == Plus(TallyIn(rs, ps), TallyIn(rs, {p}))
  {
    if rs != [] {
      TallyInAdd(rs[..|rs| - 1], ps, p);
    }
  }

  lemma Appended(rs: seq<Result>, r: Result, ps: set<Path>, p: Path)
    ensures TallyIn(rs + [r], ps) == if r.test.path in ps then Bump(TallyIn(rs, ps), r.outcome) else TallyIn(rs, ps)
    ensures TallyOf(rs + [r]) == Bump(TallyOf(rs), r.outcome)
    ensures OnResults(rs + [r], p) == OnResults(rs, p) + if r.test.path == p then 1 else 0
  {
    assert (rs + [r])[..|rs|] == rs;
  }

  lemma {:induction false} FlightUpdate(ws: seq<Worker>, i: nat, w: Worker, p: Path)
    requires i < |ws|
    ensures FlightOn(ws[i := w], p) + FlightOf(ws[i], p) == FlightOn(ws, p) + FlightOf(w, p)
  {
    if i == 0 {
      assert ws[0 := w][1..] == ws[1..];
    } else {
      FlightUpdate(ws[1..], i - 1, w, p);
      assert ws[i := w][1..] == ws[1..][i - 1 := w];
    }
  }

  lemma {:induction false} FlightAtLeast(ws: seq<Worker>, i: nat, p: Path)
    requires i < |ws|
    ensures FlightOn(ws, p) >= FlightOf(ws[i], p)
  {
    if i > 0 {
      FlightAtLeast(ws[1..], i - 1, p);
    }
  }

  lemma {:induction false} OnPathPop(q: seq<Test>, p: Path)
    requires q != []
    ensures OnPath(q, p) == OnPath(q[..|q| - 1], p) + if q[|q| - 1].path == p then 1 else 0
  {
    if |q| > 1 {
      OnPathPop(q[1..], p);
      assert q[1..][..|q| - 2] == q[..|q| - 1][1..];
    }
  }

  // ----- what the counts mean

  /** The results with a given outcome, by their place in the list. */
  ghost function WithOutcome(rs: seq<Result>, o: Outcome): set<nat> {
    set i: nat | i < |rs| && rs[i].outcome == o
  }

  /** The tests of a path, by their place in the list. */
  ghost function TestsWith(ts: seq<Test>, p: Path): set<nat> {
    set i: nat | i < |ts| && ts[i].path == p
  }

  ghost function ResultsWith(rs: seq<Result>, p: Path): set<nat> {
    set i: nat | i < |rs| && rs[i].test.path == p
  }

  lemma {:induction false} TallyCounts(rs: seq<Result>)
    ensures var t := TallyOf(rs);
            && t.ok == |WithOutcome(rs, Ok)| && t.xx == |WithOutcome(rs, Failed)|
            && t.br == |WithOutcome(rs, Broken)| && t.fx == |WithOutcome(rs, Fixed)|
  {
    if rs == [] {
      assert forall o :: WithOutcome(rs, o) == {};
    } else {
      TallyCounts(rs[..|rs| - 1]);
      OutcomeSnoc(rs, Ok);
      OutcomeSnoc(rs, Failed);
      OutcomeSnoc(rs, Broken);
      OutcomeSnoc(rs, Fixed);
    }
  }

  lemma OutcomeSnoc(rs: seq<Result>, o: Outcome)
    requires rs != []
    ensures |WithOutcome(rs, o)| == |WithOutcome(rs[..|rs| - 1], o)| + if rs[|rs| - 1].outcome == o then 1 else 0
  {
    var n := |rs| - 1;
    var before := WithOutcome(rs[..n], o);
    assert WithOutcome(rs, o) == if rs[n].outcome == o then before + {n} else before;
  }

  lemma {:induction false} ResultsCount(rs: seq<Result>, p: Path)
    ensures OnResults(rs, p) == |ResultsWith(rs, p)|
  {
    if rs == [] {
      assert ResultsWith(rs, p) == {};
    } else {
      var n := |rs| - 1;
      ResultsCount(rs[..n], p);
      var before := ResultsWith(rs[..n], p);
      assert ResultsWith(rs, p) == if rs[n].test.path == p then before + {n} else before;
    }
  }

  lemma {:induction false} TestsCount(ts: seq<Test>, p: Path)
    ensures OnPath(ts, p) == |TestsWith(ts, p)|
    decreases |ts|
  {
    if ts == [] {
      assert TestsWith(ts, p) == {};
    } else {
      var n := |ts| - 1;
      OnPathPop(ts, p);
      TestsCount(ts[..n], p);
      var before := TestsWith(ts[..n], p);
      assert TestsWith(ts, p) == if ts[n].path == p then before + {n} else before;
    }
  }

  // ----- tests per path

  ghost predicate PathFlow(queue: seq<Test>, ws: seq<Worker>, results: seq<Result>, tests: seq<Test>) {
    forall p :: OnPath(queue, p) + FlightOn(ws, p) + OnResults(results, p) == OnPath(tests, p)
  }

  lemma FlowStay(queue: seq<Test>, ws: seq<Worker>, results: seq<Result>, tests: seq<Test>, i: nat, w: Worker)
    requires PathFlow(queue, ws, results, tests) && i < |ws| && forall p :: FlightOf(w, p) == FlightOf(ws[i], p)
    ensures PathFlow(queue, ws[i := w], results, tests)
  {
    forall p ensures OnPath(queue, p) + FlightOn(ws[i := w], p) + OnResults(results, p) == OnPath(tests, p) {
      FlightUpdate(ws, i, w, p);
    }
  }

  lemma FlowTake(queue: seq<Test>, ws: seq<Worker>, results: seq<Result>, tests: seq<Test>, i: nat)
    requires PathFlow(queue, ws, results, tests) && i < |ws| && ws[i].AtTop? && queue != []
    ensures PathFlow(queue[..|queue| - 1], ws[i := Running(queue[|queue| - 1])], results, tests)
  {
    var q, w := queue[..|queue| - 1], Running(queue[|queue| - 1]);
    forall p ensures OnPath(q, p) + FlightOn(ws[i := w], p) + OnResults(results, p) == OnPath(tests, p) {
      FlightUpdate(ws, i, w, p);
      OnPathPop(queue, p);
    }
  }

  lemma FlowRecord(queue: seq<Test>, ws: seq<Worker>, results: seq<Result>, tests: seq<Test>, i: nat, r: Result)
    requires PathFlow(queue, ws, results, tests) && i < |ws| && ws[i] == Recording(r)
    ensures PathFlow(queue, ws[i := Signalling], results + [r], tests)
    ensures OnResults(results, r.test.path) < OnPath(tests, r.test.path)
  {
    forall p ensures OnPath(queue, p) + FlightOn(ws[i := Signalling], p) + OnResults(results + [r], p) == OnPath(tests, p) {
      FlightUpdate(ws, i, Signalling, p);
      Appended(results, r, {}, p);
    }
    FlightAtLeast(ws, i, r.test.path);
  }

  // ----- the reporting invariant

  /** Exactly the results and completed paths up to the remembered counts were handed to output. */
  ghost predicate Seen(s: State) {
    && (s.prev == UT64_MAX ==> s.reported == [])
    && (s.prev != UT64_MAX ==> s.prev <= |s.results| && s.reported == s.results[..s.prev])
    && s.prevPaths <= |s.completedPaths|
    && (s.logMode ==> s.reportedPaths == s.completedPaths[..s.prevPaths])
    && (s.main.Done? ==> s.prev == |s.results| && s.prevPaths == |s.completedPaths|)
  }

  ghost function PathsOf(s: seq<Path>): set<Path> {
    set p | p in s
  }

  /** The per-path table counts down from the loaded tests; a path is completed, once, when nothing of it is left. */
  ghost predicate TableExact(table: map<Path, PathCounts>, completed: seq<Path>, results: seq<Result>, tests: seq<Test>) {
    && (forall p :: p in table <==> OnPath(tests, p) > 0)
    && (forall p :: p in table ==> table[p].left + OnResults(results, p) == OnPath(tests, p))
    && (forall p :: p in table ==> table[p].tally == TallyIn(results, {p}))
    && Distinct(completed)
    && (forall p :: p in completed <==> p in table && table[p].left == 0)
  }

  ghost predicate Tallied(s: State) {
    && (!s.logMode ==> s.table.None? && s.tally == TallyOf(s.results))
    && (s.logMode && s.table.Some? ==>
          && TableExact(s.table.value, s.completedPaths, s.results, s.tests)
          && s.prevPaths <= |s.completedPaths|
          && s.tally == TallyIn(s.results, PathsOf(s.completedPaths[..s.prevPaths])))
  }

  ghost predicate ReportInv(s: State) {
    PathFlow(s.queue, s.workers, s.results, s.tests) && Seen(s) && Tallied(s)
  }

  // ----- recording

  lemma CountedExact(table: map<Path, PathCounts>, completed: seq<Path>, results: seq<Result>, tests: seq<Test>, r: Result)
    requires TableExact(table, completed, results, tests) && OnResults(results, r.test.path) < OnPath(tests, r.test.path)
    ensures var t, p := Counted(table, r), r.test.path;
            p in table && table[p].left > 0 && p !in completed && p in t && t.Keys == table.Keys &&
            TableExact(t, if t[p].left == 0 then completed + [p] else completed, results + [r], tests)
  {
    var t, p := Counted(table, r), r.test.path;
    assert p in table && table[p].left > 0;
    forall q | q in t
      ensures t[q].left + OnResults(results + [r], q) == OnPath(tests, q) && t[q].tally == TallyIn(results + [r], {q})
    {
      Appended(results, r, {q}, q);
    }
  }

  lemma RecordReported(s: State, i: nat)
    requires ReportInv(s) && i < |s.workers| && s.workers[i].Recording? && !s.main.Done? && s.prev != UT64_MAX
    ensures ReportInv(Recorded(s, i))
  {
    var r, s' := s.workers[i].result, Recorded(s, i);
    FlowRecord(s.queue, s.workers, s.results, s.tests, i, r);
    Appended(s.results, r, {}, 0);
    assert s'.results == s.results + [r] && s'.workers == s.workers[i := Signalling] && s'.main == s.main;
    if s.logMode && s.table.Some? {
      CountedExact(s.table.value, s.completedPaths, s.results, s.tests, r);
      var done := s.completedPaths[..s.prevPaths];
      assert r.test.path !in PathsOf(done);
      Appended(s.results, r, PathsOf(done), 0);
      assert s'.completedPaths[..s.prevPaths] == done;
    }
    assert s'.results[..s.prev] == s.results[..s.prev];
  }

  // ----- one turn of main

  lemma {:induction false} AddCountsExact(table: map<Path, PathCounts>, results: seq<Result>, base: set<Path>, paths: seq<Path>)
    requires Distinct(paths) && forall p :: p in paths ==> p !in base && p in table && table[p].tally == TallyIn(results, {p})
    ensures AddCounts(TallyIn(results, base), table, paths) == TallyIn(results, base + PathsOf(paths))
    decreases |paths|
  {
    if paths == [] {
      assert base + PathsOf(paths) == base;
    } else {
      var p, rest := paths[0], paths[1..];
      assert Distinct(rest) && p !in rest && forall q :: q in rest ==> q in paths;
      TallyInAdd(results, base, p);
      assert AddCounts(TallyIn(results, base), table, paths) == AddCounts(TallyIn(results, base + {p}), table, rest);
      AddCountsExact(table, results, base + {p}, rest);
      PathsSplit(base, paths);
    }
  }

  lemma PathsSplit(base: set<Path>, paths: seq<Path>)
    requires paths != []
    ensures base + {paths[0]} + PathsOf(paths[1..]) == base + PathsOf(paths)
  {
  }

  lemma TurnTallied(s: State)
    requires Tallied(s) && s.main.AtLoop? && s.logMode && s.table.Some?
    ensures Turned(s).tally == TallyIn(s.results, PathsOf(s.completedPaths))
  {
    var k := s.prevPaths;
    var done, news := s.completedPaths[..k], s.completedPaths[k..];
    assert s.completedPaths == done + news;
    forall p | p in news ensures p !in PathsOf(done) {}
    AddCountsExact(s.table.value, s.results, PathsOf(done), news);
    assert PathsOf(done) + PathsOf(news) == PathsOf(s.completedPaths);
  }

  /** Starting from the marker on the first turn skips nothing, because then there are no results yet. */
  lemma TurnSeen(s: State)
    requires Seen(s) && s.main.AtLoop? && |s.results| < UT64_MAX && (s.prev == UT64_MAX ==> s.results == [])
    ensures Seen(Turned(s))
  {
    var s' := Turned(s);
    if s.prev != UT64_MAX {
      assert s.results[..s.prev] + s.results[s.prev..] == s.results;
    }
    assert s'.reported == s.results && s.results[..|s.results|] == s.results;
    assert s.completedPaths[..s.prevPaths] + s.completedPaths[s.prevPaths..] == s.completedPaths;
    assert s.completedPaths[..|s.completedPaths|] == s.completedPaths;
  }

  lemma TurnReported(s: State)
    requires Inv(s) && ReportInv(s) && s.main.AtLoop?
    ensures ReportInv(Turned(s))
  {
    ResultsBound(s);
    TurnSeen(s);
    if s.logMode && s.table.Some? {
      TurnTallied(s);
      assert s.completedPaths[..|s.completedPaths|] == s.completedPaths;
    }
  }

  // ----- all steps

  /** A step that touches neither results nor reporting. */
  lemma QuietStep(s: State, s': State)
    requires ReportInv(s) && PathFlow(s'.queue, s'.workers, s'.results, s'.tests)
    requires s' == s.(queue := s'.queue, workers := s'.workers, main := s'.main, lock := s'.lock)
    requires s'.main.Done? ==> s.main.Done?
    ensures ReportInv(s')
  {
  }

  lemma TakeReported(s: State, i: nat)
    requires ReportInv(s) && i < |s.workers| && s.workers[i].AtTop?
    ensures ReportInv(Took(s, i))
  {
    var s' := Took(s, i);
    if s.queue == [] {
      FlowStay(s.queue, s.workers, s.results, s.tests, i, Exited);
      assert s'.queue == s.queue;
    } else {
      FlowTake(s.queue, s.workers, s.results, s.tests, i);
    }
    QuietStep(s, s');
  }

  lemma MoveReported(s: State, i: nat, w: Worker, main: Main, lock: Lock)
    requires ReportInv(s) && i < |s.workers| && (main.Done? ==> s.main.Done?)
    requires forall p :: FlightOf(w, p) == FlightOf(s.workers[i], p)
    ensures ReportInv(s.(workers := s.workers[i := w], main := main, lock := lock))
  {
    FlowStay(s.queue, s.workers, s.results, s.tests, i, w);
    QuietStep(s, s.(workers := s.workers[i := w], main := main, lock := lock));
  }

  lemma SpawnReported(s: State)
    requires ReportInv(s) && s.main.Spawning? && SpawnInv(s.workers, s.main)
    ensures ReportInv(Spawned(s))
  {
    if s.main.n < |s.workers| {
      MoveReported(s, s.main.n, WantsLock, Spawning(s.main.n + 1), s.lock);
      assert Spawned(s) == s.(workers := s.workers[s.main.n := WantsLock], main := Spawning(s.main.n + 1), lock := s.lock);
    } else {
      QuietStep(s, Spawned(s));
    }
  }

  lemma NextReported(s: State, a: Action)
    requires Inv(s) && ReportInv(s) && Enabled(s, a)
    ensures ReportInv(Next(s, a))
  {
    match a
    case Spawn => SpawnReported(s);
    case Turn => TurnReported(s);
    case Relock => QuietStep(s, MainRelocked(s));
    case SpuriousWake => QuietStep(s, s.(main := Woken));
    case Lock(i) => MoveReported(s, i, AtTop, s.main, ByWorker(i));
    case Take(i) => TakeReported(s, i);
    case Run(i, o) => MoveReported(s, i, Finished(Result(s.workers[i].test, o)), s.main, s.lock);
    case LockAgain(i) => MoveReported(s, i, Recording(s.workers[i].result), s.main, ByWorker(i));
    case Record(i) =>
      NotAllRecorded(s, i);
      NotFirst(s, i);
      RecordReported(s, i);
    case Signal(i) => MoveReported(s, i, AtTop, if s.main.Asleep? then Woken else s.main, s.lock);
  }

  /** The table log mode builds from the loaded tests. */
  ghost predicate FreshTable(table: map<Path, PathCounts>, tests: seq<Test>) {
    && (forall p :: p in table <==> OnPath(tests, p) > 0)
    && (forall p :: p in table ==> table[p] == PathCounts(OnPath(tests, p), Tally(0, 0, 0, 0)))
  }

  /** A start of the program: no table outside log mode, and a fresh one if log mode could allocate it. */
  ghost predicate Start(s: State, tests: seq<Test>, n: nat, logMode: bool) {
    && |tests| < UT64_MAX && n >= 1
    && s == Init(tests, n, logMode, s.table)
    && (!logMode ==> s.table.None?)
    && (s.table.Some? ==> FreshTable(s.table.value, tests))
  }

  lemma {:induction false} NoFlight(ws: seq<Worker>, p: Path)
    requires forall i :: 0 <= i < |ws| ==> FlightOf(ws[i], p) == 0
    ensures FlightOn(ws, p) == 0
  {
    if ws != [] {
      NoFlight(ws[1..], p);
    }
  }

  lemma StartReported(s: State, tests: seq<Test>, n: nat, logMode: bool)
    requires Start(s, tests, n, logMode)
    ensures Inv(s) && ReportInv(s)
  {
    InitInv(tests, n, logMode, s.table);
    forall p ensures OnPath(s.queue, p) + FlightOn(s.workers, p) + OnResults(s.results, p) == OnPath(s.tests, p) {
      NoFlight(s.workers, p);
    }
  }

  lemma {:induction false} RunReported(s: State, acts: seq<Action>)
    requires Inv(s) && ReportInv(s) && Runs(s, acts)
    ensures Inv(Final(s, acts)) && ReportInv(Final(s, acts))
    decreases |acts|
  {
    if acts != [] {
      NextKeeps(s, acts[0]);
      NextReported(s, acts[0]);
      RunReported(Next(s, acts[0]), acts[1..]);
    }
  }

  lemma {:induction false} ResultOnPath(rs: seq<Result>, i: nat)
    requires i < |rs|
    ensures OnResults(rs, rs[i].test.path) > 0
  {
    if i < |rs| - 1 {
      ResultOnPath(rs[..|rs| - 1], i);
    }
  }

  /** With all tests recorded every path is completed, and the reported counts cover every result. */
  lemma AllPathsCompleted(s: State)
    requires Inv(s) && ReportInv(s) && s.main.Done? && s.logMode && s.table.Some?
    ensures s.tally == TallyOf(s.results)
  {
    ResultsBound(s);
    assert s.completedPaths[..s.prevPaths] == s.completedPaths;
    forall i | 0 <= i < |s.results| ensures s.results[i].test.path in PathsOf(s.completedPaths) {
      var p := s.results[i].test.path;
      ResultOnPath(s.results, i);
      FlightBound(s.workers, p);
      assert OnPath(s.queue, p) + FlightOn(s.workers, p) + OnResults(s.results, p) == OnPath(s.tests, p);
    }
    TallyInAll(s.results, PathsOf(s.completedPaths));
  }

  lemma {:induction false} FlightBound(ws: seq<Worker>, p: Path)
    ensures FlightOn(ws, p) <= |InFlight(ws)|
  {
    if ws != [] {
      FlightBound(ws[1..], p);
    }
  }

  /** When main leaves its loop, every result was reported exactly once and in order, and the four counters together
      cover every loaded test; log mode needs its path table for the latter. */
  lemma ReportComplete(s0: State, tests: seq<Test>, n: nat, logMode: bool, acts: seq<Action>)
    requires Start(s0, tests, n, logMode) && Runs(s0, acts) && Final(s0, acts).main.Done?
    ensures var s := Final(s0, acts);
            && s.reported == s.results && |s.results| == |tests|
            && (s.logMode ==> s.reportedPaths == s.completedPaths)
            && (!s.logMode || s.table.Some? ==>
                  && s.tally.ok == |WithOutcome(s.results, Ok)| && s.tally.xx == |WithOutcome(s.results, Failed)|
                  && s.tally.br == |WithOutcome(s.results, Broken)| && s.tally.fx == |WithOutcome(s.results, Fixed)|
                  && s.tally.ok + s.tally.xx + s.tally.br + s.tally.fx == |tests|)
  {
    StartReported(s0, tests, n, logMode);
    RunReported(s0, acts);
    SameTests(s0, acts);
    var s := Final(s0, acts);
    assert s.results[..|s.results|] == s.results && s.completedPaths[..|s.completedPaths|] == s.completedPaths;
    TallyTotal(s.results);
    TallyCounts(s.results);
    if s.logMode && s.table.Some? {
      AllPathsCompleted(s);
    }
  }

  lemma {:induction false} SameTests(s: State, acts: seq<Action>)
    requires Runs(s, acts)
    ensures Final(s, acts).tests == s.tests && Final(s, acts).logMode == s.logMode
    ensures Final(s, acts).table.Some? == s.table.Some?
    decreases |acts|
  {
    if acts != [] {
      SameTests(Next(s, acts[0]), acts[1..]);
    }
  }

  lemma CompletedIff(s: State, tests: seq<Test>, p: Path)
    requires s.table.Some? && s.tests == tests && TableExact(s.table.value, s.completedPaths, s.results, s.tests)
    ensures p in s.completedPaths <==> TestsWith(tests, p) != {} && |ResultsWith(s.results, p)| == |TestsWith(tests, p)|
  {
    TestsCount(tests, p);
    ResultsCount(s.results, p);
  }

  /** In log mode each path is completed at most once, exactly when none of its tests is left. */
  lemma PathCompletedOnce(s0: State, tests: seq<Test>, n: nat, acts: seq<Action>)
    requires Start(s0, tests, n, true) && s0.table.Some? && Runs(s0, acts)
    ensures var s := Final(s0, acts);
            && Distinct(s.completedPaths)
            && forall p :: p in s.completedPaths <==>
                 TestsWith(tests, p) != {} && |ResultsWith(s.results, p)| == |TestsWith(tests, p)|
  {
    StartReported(s0, tests, n, true);
    RunReported(s0, acts);
    SameTests(s0, acts);
    var s := Final(s0, acts);
    forall p ensures p in s.completedPaths <==> TestsWith(tests, p) != {} && |ResultsWith(s.results, p)| == |TestsWith(tests, p)| {
      CompletedIff(s, tests, p);
    }
  }
}
