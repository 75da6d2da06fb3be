/** Every result is the outcome of one run of its test, and none is lost or changed on the way to the report. */
module TestOutcomes {
  import opened Machine
  import opened TestRunner
  import opened TestReport

  /** A result the worker has, but has not recorded yet. */
  function Unrecorded(w: Worker): multiset<Result> {
    match w
    case Finished(r) => multiset{r}
    case Recording(r) => multiset{r}
    case _ => multiset{}
  }

  function AllUnrecorded(ws: seq<Worker>): multiset<Result> {
    if ws == [] then multiset{} else Unrecorded(ws[0]) + AllUnrecorded(ws[1..])
  }

  /** What the runs of tests among the steps give, each with the test the worker has at that time. */
  function Produced(s: State, acts: seq<Action>): multiset<Result>
    requires Runs(s, acts)
    decreases |acts|
  {
    if acts == [] then multiset{}
    else GivenBy(s, acts[0]) + Produced(Next(s, acts[0]), acts[1..])
  }

  function GivenBy(s: State, a: Action): multiset<Result>
    requires Enabled(s, a)
  {
    if a.Run? then multiset{Result(s.workers[a.i].test, a.outcome)} else multiset{}
  }

  lemma {:induction false} UnrecordedUpdate(ws: seq<Worker>, i: nat, w: Worker)
    requires i < |ws|
    ensures AllUnrecorded(ws[i := w]) + Unrecorded(ws[i]) == AllUnrecorded(ws) + Unrecorded(w)
  {
    var ws' := ws[i := w];
    assert AllUnrecorded(ws) == Unrecorded(ws[0]) + AllUnrecorded(ws[1..]);
    assert AllUnrecorded(ws') == Unrecorded(ws'[0]) + AllUnrecorded(ws'[1..]);
    if i == 0 {
      assert ws'[1..] == ws[1..];
      Swap(Unrecorded(w), AllUnrecorded(ws[1..]), Unrecorded(ws[0]));
    } else {
      UnrecordedUpdate(ws[1..], i - 1, w);
      assert ws'[1..] == ws[1..][i - 1 := w];
      AddSame(Unrecorded(ws[0]), AllUnrecorded(ws'[1..]), Unrecorded(ws[i]), AllUnrecorded(ws[1..]), Unrecorded(w));
    }
  }

  /** All results there are. */
  function Held(results: seq<Result>, ws: seq<Worker>): multiset<Result> {
    multiset(results) + AllUnrecorded(ws)
  }

  /** Worker `i` changes, and `given` comes in. */
  lemma HeldMove(results: seq<Result>, ws: seq<Worker>, results': seq<Result>, i: nat, w: Worker, given: multiset<Result>)
    requires i < |ws| && multiset(results') + Unrecorded(w) == multiset(results) + Unrecorded(ws[i]) + given
    ensures Held(results', ws[i := w]) == Held(results, ws) + given
  {
    UnrecordedUpdate(ws, i, w);
    var f, f', x, y := AllUnrecorded(ws), AllUnrecorded(ws[i := w]), Unrecorded(ws[i]), Unrecorded(w);
    forall r ensures (multiset(results') + f')[r] == (multiset(results) + f + given)[r] {
      assert (f' + x)[r] == (f + y)[r];
      assert (multiset(results') + y)[r] == (multiset(results) + x + given)[r];
    }
  }

  lemma HeldStay(results: seq<Result>, ws: seq<Worker>, i: nat, w: Worker)
    requires i < |ws| && Unrecorded(w) == Unrecorded(ws[i])
    ensures Held(results, ws[i := w]) == Held(results, ws)
  {
    HeldMove(results, ws, results, i, w, multiset{});
  }

  lemma TakeHeld(s: State, i: nat)
    requires i < |s.workers| && s.workers[i].AtTop?
    ensures Held(Took(s, i).results, Took(s, i).workers) == Held(s.results, s.workers)
  {
    HeldStay(s.results, s.workers, i, if s.queue == [] then Exited else Running(s.queue[|s.queue| - 1]));
  }

  lemma RecordHeld(s: State, i: nat)
    requires i < |s.workers| && s.workers[i].Recording?
    ensures Held(Recorded(s, i).results, Recorded(s, i).workers) == Held(s.results, s.workers)
  {
    var r, s' := s.workers[i].result, Recorded(s, i);
    assert s'.results == s.results + [r] && s'.workers == s.workers[i := Signalling];
    assert multiset(s.results + [r]) == multiset(s.results) + multiset{r};
    HeldMove(s.results, s.workers, s'.results, i, Signalling, multiset{});
  }

  lemma SpawnHeld(s: State)
    requires s.main.Spawning? && SpawnInv(s.workers, s.main)
    ensures Held(Spawned(s).results, Spawned(s).workers) == Held(s.results, s.workers)
  {
    if s.main.n < |s.workers| {
      HeldStay(s.results, s.workers, s.main.n, WantsLock);
    }
  }

  lemma LockHeld(s: State, i: nat, w: Worker)
    requires i < |s.workers| && Unrecorded(w) == Unrecorded(s.workers[i])
    ensures Held(Locked(s, i, w).results, Locked(s, i, w).workers) == Held(s.results, s.workers)
  {
    HeldStay(s.results, s.workers, i, w);
  }

  lemma RunHeld(s: State, i: nat, o: Outcome)
    requires i < |s.workers| && s.workers[i].Running?
    ensures Held(Ran(s, i, o).results, Ran(s, i, o).workers)
            == Held(s.results, s.workers) + multiset{Result(s.workers[i].test, o)}
  {
    var r := Result(s.workers[i].test, o);
    HeldMove(s.results, s.workers, s.results, i, Finished(r), multiset{r});
  }

  lemma SignalHeld(s: State, i: nat)
    requires i < |s.workers| && s.workers[i].Signalling?
    ensures Held(Signalled(s, i).results, Signalled(s, i).workers) == Held(s.results, s.workers)
  {
    HeldStay(s.results, s.workers, i, AtTop);
  }

  lemma Plain(x: multiset<Result>)
    ensures x + multiset{} == x
  {
  }

  lemma StepHeld(s: State, a: Action)
    requires Enabled(s, a) && SpawnInv(s.workers, s.main)
    ensures Held(Next(s, a).results, Next(s, a).workers) == Held(s.results, s.workers) + GivenBy(s, a)
  {
    Plain(Held(s.results, s.workers));
    match a
    case Spawn => SpawnHeld(s);
    case Turn =>
    case Relock =>
    case SpuriousWake =>
    case Lock(i) => LockHeld(s, i, AtTop);
    case Take(i) => TakeHeld(s, i);
    case Run(i, o) => RunHeld(s, i, o);
    case LockAgain(i) => LockHeld(s, i, Recording(s.workers[i].result));
    case Record(i) => RecordHeld(s, i);
    case Signal(i) => SignalHeld(s, i);
  }

  /** Whatever was run is recorded or still with its worker, with the outcome it had. */
  lemma {:induction false} OutcomesKept(s: State, acts: seq<Action>)
    requires Inv(s) && Runs(s, acts)
    ensures var e := Final(s, acts);
            Held(e.results, e.workers) == Held(s.results, s.workers) + Produced(s, acts)
    decreases |acts|
  {
    if acts != [] {
      var s' := Next(s, acts[0]);
      StepHeld(s, acts[0]);
      NextKeeps(s, acts[0]);
      OutcomesKept(s', acts[1..]);
      Regroup(Held(s.results, s.workers), GivenBy(s, acts[0]), Produced(s', acts[1..]));
    }
  }

  lemma Regroup(a: multiset<Result>, b: multiset<Result>, c: multiset<Result>)
    ensures a + (b + c) == (a + b) + c
  {
  }

  lemma {:induction false} NoneUnrecorded(ws: seq<Worker>)
    requires forall i :: 0 <= i < |ws| ==> Unrecorded(ws[i]) == multiset{}
    ensures AllUnrecorded(ws) == multiset{}
  {
    if ws != [] {
      NoneUnrecorded(ws[1..]);
    }
  }

  /** When main leaves its loop, the reported results are exactly the outcomes of the runs, and the tests of these are
      the loaded ones, each as often as it was loaded. */
  lemma ReportIsWhatRan(s0: State, tests: seq<Test>, n: nat, logMode: bool, acts: seq<Action>)
    requires Start(s0, tests, n, logMode) && Runs(s0, acts) && Final(s0, acts).main.Done?
    ensures multiset(Final(s0, acts).reported) == Produced(s0, acts)
    ensures TestsOf(Final(s0, acts).reported) == multiset(tests)
  {
    StartReported(s0, tests, n, logMode);
    ReportComplete(s0, tests, n, logMode, acts);
    NoTestLostOrRunTwice(tests, n, logMode, s0.table, acts);
    SameTests(s0, acts);
    RecordedIsProduced(s0, acts);
  }

  lemma RecordedIsProduced(s0: State, acts: seq<Action>)
    requires Inv(s0) && Runs(s0, acts) && s0.results == [] && (forall i :: 0 <= i < |s0.workers| ==> s0.workers[i].Unborn?)
    requires |Final(s0, acts).results| == |Final(s0, acts).tests|
    ensures multiset(Final(s0, acts).results) == Produced(s0, acts)
  {
    var e := Final(s0, acts);
    NoneUnrecorded(s0.workers);
    OutcomesKept(s0, acts);
    RunInv(s0, acts);
    ResultsBound(e);
    AllAtRest(e);
    assert multiset(s0.results) == multiset{};
    assert Held(e.results, e.workers) == multiset(e.results) + multiset{};
    assert Held(s0.results, s0.workers) == multiset{} + multiset{};
    FromNothing(multiset(e.results), Produced(s0, acts));
  }

  lemma FromNothing(x: multiset<Result>, y: multiset<Result>)
    requires x + multiset{} == (multiset{} + multiset{}) + y
    ensures x == y
  {
    assert x + multiset{} == x && (multiset{} + multiset{}) + y == y;
  }

  /** With a result for every test no worker holds one. */
  lemma AllAtRest(e: State)
    requires |InFlight(e.workers)| == 0
    ensures AllUnrecorded(e.workers) == multiset{}
  {
    forall i | 0 <= i < |e.workers| ensures Unrecorded(e.workers[i]) == multiset{} {
      if Carried(e.workers[i]) != multiset{} {
        CarriesOne(e.workers, i);
      }
    }
    NoneUnrecorded(e.workers);
  }
}
