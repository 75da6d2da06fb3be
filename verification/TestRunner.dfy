/** The rz-test main thread and its workers as a transition system over arbitrary interleavings. */
module TestRunner {
  import opened Machine

  type Path = nat

  datatype Test = Test(id: nat, path: Path)

  datatype Outcome = Ok | Failed | Broken | Fixed

  datatype Result = Result(test: Test, outcome: Outcome)

  /** Where a worker stands; `AtTop`, `Recording` and `Signalling` are inside the lock. */
  datatype Worker =
    | Unborn
    | WantsLock
    | AtTop
    | Running(test: Test)
    | Finished(result: Result)
    | Recording(result: Result)
    | Signalling
    | Exited

  /** Where the main thread stands; `Spawning` and `AtLoop` are inside the lock. */
  datatype Main = Spawning(n: nat) | AtLoop | Asleep | Woken | Done

  datatype Lock = Free | ByMain | ByWorker(i: nat)

  datatype Tally = Tally(ok: nat, xx: nat, br: nat, fx: nat)

  datatype PathCounts = PathCounts(left: nat, tally: Tally)

  /** `table` is the per-path count table of log mode; `reported` and `reportedPaths` are what was handed to output. */
  datatype State = State(
    tests: seq<Test>,
    logMode: bool,
    table: Option<map<Path, PathCounts>>,
    queue: seq<Test>,
    results: seq<Result>,
    tally: Tally,
    completedPaths: seq<Path>,
    workers: seq<Worker>,
    main: Main,
    lock: Lock,
    prev: nat,
    prevPaths: nat,
    reported: seq<Result>,
    reportedPaths: seq<Path>)

  // ----- steps

  function Bump(t: Tally, o: Outcome): Tally {
    match o
    case Ok => t.(ok := t.ok + 1)
    case Failed => t.(xx := t.xx + 1)
    case Broken => t.(br := t.br + 1)
    case Fixed => t.(fx := t.fx + 1)
  }

  function Plus(t: Tally, u: Tally): Tally {
    Tally(t.ok + u.ok, t.xx + u.xx, t.br + u.br, t.fx + u.fx)
  }

  /** Main starts one more worker, or enters its loop when all are started; it keeps the lock. */
  function Spawned(s: State): State
    requires s.main.Spawning?
  {
    if s.main.n < |s.workers|
    then s.(main := Spawning(s.main.n + 1), workers := s.workers[s.main.n := WantsLock])
    else s.(main := AtLoop)
  }

  /** The results handed to `print_new_results`: none on the first turn, when `prev` is still the marker. */
  function NewResults(s: State): seq<Result> {
    if s.prev <= |s.results| then s.results[s.prev..] else []
  }

  function NewPaths(s: State): seq<Path> {
    if s.logMode && s.prevPaths <= |s.completedPaths| then s.completedPaths[s.prevPaths..] else []
  }

  /** Log mode adds up the counts of the paths it reports. */
  function AddCounts(t: Tally, table: map<Path, PathCounts>, paths: seq<Path>): Tally
    decreases |paths|
  {
    if paths == [] then t
    else AddCounts(if paths[0] in table then Plus(t, table[paths[0]].tally) else t, table, paths[1..])
  }

  /** One turn of the main loop: report, remember what was reported, then leave or go to sleep; both free the lock. */
  function Turned(s: State): State
    requires s.main.AtLoop?
  {
    s.(reported := s.reported + NewResults(s),
       reportedPaths := s.reportedPaths + NewPaths(s),
       tally := if s.table.Some? then AddCounts(s.tally, s.table.value, NewPaths(s)) else s.tally,
       prev := |s.results|,
       prevPaths := |s.completedPaths|,
       main := if |s.results| == |s.tests| then Done else Asleep,
       lock := Free)
  }

  function MainRelocked(s: State): State {
    s.(main := AtLoop, lock := ByMain)
  }

  function Locked(s: State, i: nat, w: Worker): State
    requires i < |s.workers|
  {
    s.(workers := s.workers[i := w], lock := ByWorker(i))
  }

  /** A worker takes the last queued test, or exits when there is none; either way it leaves the lock. */
  function Took(s: State, i: nat): State
    requires i < |s.workers|
  {
    if s.queue == [] then s.(workers := s.workers[i := Exited], lock := Free)
    else s.(workers := s.workers[i := Running(s.queue[|s.queue| - 1])], queue := s.queue[..|s.queue| - 1], lock := Free)
  }

  function Ran(s: State, i: nat, o: Outcome): State
    requires i < |s.workers| && s.workers[i].Running?
  {
    s.(workers := s.workers[i := Finished(Result(s.workers[i].test, o))])
  }

  /** Counts one result on its path. */
  function Counted(table: map<Path, PathCounts>, r: Result): map<Path, PathCounts> {
    if r.test.path !in table then table
    else
      var c := table[r.test.path];
      table[r.test.path := PathCounts(if c.left > 0 then c.left - 1 else UT64_MAX, Bump(c.tally, r.outcome))]
  }

  /** The result goes into the vector and all counters; a path whose last test this was is completed. */
  function Recorded(s: State, i: nat): State
    requires i < |s.workers| && s.workers[i].Recording?
  {
    var r := s.workers[i].result;
    var s1 := s.(results := s.results + [r],
                 tally := if s.logMode then s.tally else Bump(s.tally, r.outcome),
                 workers := s.workers[i := Signalling]);
    if s.table.None? then s1
    else
      var t := Counted(s.table.value, r);
      s1.(table := Some(t),
          completedPaths := if r.test.path in t && t[r.test.path].left == 0 then s.completedPaths + [r.test.path]
                            else s.completedPaths)
  }

  /** Signalling wakes the main thread if it sleeps and is lost otherwise; the worker keeps the lock. */
  function Signalled(s: State, i: nat): State
    requires i < |s.workers|
  {
    s.(main := if s.main.Asleep? then Woken else s.main, workers := s.workers[i := AtTop])
  }

  datatype Action =
    | Spawn
    | Turn
    | Relock
    | SpuriousWake
    | Lock(i: nat)
    | Take(i: nat)
    | Run(i: nat, outcome: Outcome)
    | LockAgain(i: nat)
    | Record(i: nat)
    | Signal(i: nat)

  predicate Enabled(s: State, a: Action) {
    match a
    case Spawn => s.main.Spawning?
    case Turn => s.main.AtLoop?
    case Relock => s.main.Woken? && s.lock.Free?
    case SpuriousWake => s.main.Asleep?
    case Lock(i) => i < |s.workers| && s.workers[i].WantsLock? && s.lock.Free?
    case Take(i) => i < |s.workers| && s.workers[i].AtTop?
    case Run(i, _) => i < |s.workers| && s.workers[i].Running?
    case LockAgain(i) => i < |s.workers| && s.workers[i].Finished? && s.lock.Free?
    case Record(i) => i < |s.workers| && s.workers[i].Recording?
    case Signal(i) => i < |s.workers| && s.workers[i].Signalling?
  }

  function Next(s: State, a: Action): State
    requires Enabled(s, a)
  {
    match a
    case Spawn => Spawned(s)
    case Turn => Turned(s)
    case Relock => MainRelocked(s)
    case SpuriousWake => s.(main := Woken)
    case Lock(i) => Locked(s, i, AtTop)
    case Take(i) => Took(s, i)
    case Run(i, o) => Ran(s, i, o)
    case LockAgain(i) => Locked(s, i, Recording(s.workers[i].result))
    case Record(i) => Recorded(s, i)
    case Signal(i) => Signalled(s, i)
  }

  function OnPath(ts: seq<Test>, p: Path): nat {
    if ts == [] then 0 else (if ts[0].path == p then 1 else 0) + OnPath(ts[1..], p)
  }

  /** Main holds the lock and no worker is started yet. */
  function Init(tests: seq<Test>, n: nat, logMode: bool, table: Option<map<Path, PathCounts>>): State {
    State(tests, logMode, table, tests, [], Tally(0, 0, 0, 0), [], seq(n, _ => Unborn), Spawning(0), ByMain,
          UT64_MAX, 0, [], [])
  }

  // ----- invariant

  predicate InLock(w: Worker) {
    w.AtTop? || w.Recording? || w.Signalling?
  }

  ghost predicate LockInv(ws: seq<Worker>, main: Main, lock: Lock) {
    && (lock.ByMain? <==> main.Spawning? || main.AtLoop?)
    && (lock.ByWorker? ==> lock.i < |ws|)
    && forall i :: 0 <= i < |ws| ==> (InLock(ws[i]) <==> lock == ByWorker(i))
  }

  ghost predicate SpawnInv(ws: seq<Worker>, main: Main) {
    && (main.Spawning? ==> main.n <= |ws|)
    && (main.Spawning? ==> forall i :: 0 <= i < |ws| ==> ws[i] == if i < main.n then WantsLock else Unborn)
    && (!main.Spawning? ==> forall i :: 0 <= i < |ws| ==> !ws[i].Unborn?)
  }

  /** Until its first turn main has kept the lock, so there is no result it could miss. */
  ghost predicate FirstInv(ws: seq<Worker>, main: Main, lock: Lock, prev: nat, results: nat) {
    && (main.Spawning? ==> prev == UT64_MAX)
    && (prev == UT64_MAX ==> results == 0 && lock.ByMain?)
    && (prev == UT64_MAX ==> forall i :: 0 <= i < |ws| ==> ws[i].Unborn? || ws[i].WantsLock?)
    && (prev != UT64_MAX ==> prev <= results)
  }

  /** A worker inside the lock is about to signal. */
  predicate Pending(ws: seq<Worker>, lock: Lock) {
    lock.ByWorker? && lock.i < |ws| && ws[lock.i].Signalling?
  }

  /** A sleeping main thread has seen every result, or is about to be signalled. */
  ghost predicate WakeInv(ws: seq<Worker>, main: Main, lock: Lock, prev: nat, results: nat, tests: nat) {
    && (main.Asleep? ==> prev < tests && (prev == results || Pending(ws, lock)))
    && (main.Done? ==> results == tests)
  }

  ghost predicate ExitInv(ws: seq<Worker>, queued: nat) {
    forall i :: 0 <= i < |ws| && ws[i].Exited? ==> queued == 0
  }

  /** Everything about who holds the lock, who sleeps and what they have seen. */
  ghost predicate Control(ws: seq<Worker>, main: Main, lock: Lock, prev: nat, results: nat, tests: nat, queued: nat) {
    && LockInv(ws, main, lock) && SpawnInv(ws, main) && FirstInv(ws, main, lock, prev, results)
    && WakeInv(ws, main, lock, prev, results, tests) && ExitInv(ws, queued)
  }

  function Carried(w: Worker): multiset<Test> {
    match w
    case Running(t) => multiset{t}
    case Finished(r) => multiset{r.test}
    case Recording(r) => multiset{r.test}
    case _ => multiset{}
  }

  function InFlight(ws: seq<Worker>): multiset<Test> {
    if ws == [] then multiset{} else Carried(ws[0]) + InFlight(ws[1..])
  }

  function TestsOf(rs: seq<Result>): multiset<Test> {
    if rs == [] then multiset{} else TestsOf(rs[..|rs| - 1]) + multiset{rs[|rs| - 1].test}
  }

  /** Every loaded test is queued, in flight or has a result, as often as it was loaded. */
  ghost predicate Conserved(queue: seq<Test>, ws: seq<Worker>, results: seq<Result>, tests: seq<Test>) {
    multiset(queue) + InFlight(ws) + TestsOf(results) == multiset(tests)
  }

  ghost predicate Inv(s: State) {
    && |s.tests| < UT64_MAX && |s.workers| >= 1 && Conserved(s.queue, s.workers, s.results, s.tests)
    && Control(s.workers, s.main, s.lock, s.prev, |s.results|, |s.tests|, |s.queue|)
  }

  lemma AddSame<T>(c: multiset<T>, a: multiset<T>, x: multiset<T>, b: multiset<T>, y: multiset<T>)
    requires a + x == b + y
    ensures (c + a) + x == (c + b) + y
  {
    assert (c + a) + x == c + (a + x);
    assert (c + b) + y == c + (b + y);
  }

  lemma {:induction false} InFlightUpdate(ws: seq<Worker>, i: nat, w: Worker)
    requires i < |ws|
    ensures InFlight(ws[i := w]) + Carried(ws[i]) == InFlight(ws) + Carried(w)
  {
    var ws' := ws[i := w];
    assert InFlight(ws) == Carried(ws[0]) + InFlight(ws[1..]);
    assert InFlight(ws') == Carried(ws'[0]) + InFlight(ws'[1..]);
    if i == 0 {
      assert ws'[1..] == ws[1..];
      Swap(Carried(w), InFlight(ws[1..]), Carried(ws[0]));
    } else {
      InFlightUpdate(ws[1..], i - 1, w);
      assert ws'[1..] == ws[1..][i - 1 := w];
      AddSame(Carried(ws[0]), InFlight(ws'[1..]), Carried(ws[i]), InFlight(ws[1..]), Carried(w));
    }
  }

  lemma Swap<T>(a: multiset<T>, f: multiset<T>, b: multiset<T>)
    ensures (a + f) + b == (b + f) + a
  {
  }

  lemma TestsOfAppend(rs: seq<Result>, r: Result)
    ensures TestsOf(rs + [r]) == TestsOf(rs) + multiset{r.test}
  {
    assert (rs + [r])[..|rs|] == rs;
  }

  lemma {:induction false} TestsOfSize(rs: seq<Result>)
    ensures |TestsOf(rs)| == |rs|
  {
    if rs != [] {
      TestsOfSize(rs[..|rs| - 1]);
    }
  }

  lemma {:induction false} NoneInFlight(ws: seq<Worker>)
    requires forall i :: 0 <= i < |ws| ==> Carried(ws[i]) == multiset{}
    ensures InFlight(ws) == multiset{}
  {
    if ws != [] {
      NoneInFlight(ws[1..]);
    }
  }

  lemma {:induction false} CarriesOne(ws: seq<Worker>, i: nat)
    requires i < |ws| && Carried(ws[i]) != multiset{}
    ensures |InFlight(ws)| >= 1
  {
    if i > 0 {
      CarriesOne(ws[1..], i - 1);
    }
  }

  /** What leaves one place arrives at another. */
  lemma Balance<T>(q: multiset<T>, f: multiset<T>, r: multiset<T>, q': multiset<T>, f': multiset<T>, r': multiset<T>,
                   x: multiset<T>, y: multiset<T>)
    requires f' + x == f + y && q' + y + r' == q + x + r
    ensures q' + f' + r' == q + f + r
  {
    forall t ensures (q' + f' + r')[t] == (q + f + r)[t] {
      assert (f' + x)[t] == (f + y)[t] && (q' + y + r')[t] == (q + x + r)[t];
    }
  }

  /** A step that changes worker `i` keeps the tests if what it picks up comes from the queue or goes to the results. */
  lemma ConservedMove(queue: seq<Test>, ws: seq<Worker>, results: seq<Result>, tests: seq<Test>,
                      queue': seq<Test>, i: nat, w: Worker, results': seq<Result>)
    requires Conserved(queue, ws, results, tests) && i < |ws|
    requires multiset(queue') + Carried(w) + TestsOf(results') == multiset(queue) + Carried(ws[i]) + TestsOf(results)
    ensures Conserved(queue', ws[i := w], results', tests)
  {
    InFlightUpdate(ws, i, w);
    Balance(multiset(queue), InFlight(ws), TestsOf(results),
            multiset(queue'), InFlight(ws[i := w]), TestsOf(results'), Carried(ws[i]), Carried(w));
  }

  /** Nothing is picked up or put down. */
  lemma ConservedStay(queue: seq<Test>, ws: seq<Worker>, results: seq<Result>, tests: seq<Test>, i: nat, w: Worker)
    requires Conserved(queue, ws, results, tests) && i < |ws| && Carried(w) == Carried(ws[i])
    ensures Conserved(queue, ws[i := w], results, tests)
  {
    ConservedMove(queue, ws, results, tests, queue, i, w, results);
  }

  /** The last queued test is picked up. */
  lemma ConservedTake(queue: seq<Test>, ws: seq<Worker>, results: seq<Result>, tests: seq<Test>, i: nat)
    requires Conserved(queue, ws, results, tests) && i < |ws| && Carried(ws[i]) == multiset{} && queue != []
    ensures Conserved(queue[..|queue| - 1], ws[i := Running(queue[|queue| - 1])], results, tests)
  {
    var q, t := queue[..|queue| - 1], queue[|queue| - 1];
    assert queue == q + [t];
    assert multiset(q) + multiset{t} == multiset(queue) + multiset{};
    ConservedMove(queue, ws, results, tests, q, i, Running(t), results);
  }

  /** A recorded test moves from the worker to the results. */
  lemma ConservedRecord(queue: seq<Test>, ws: seq<Worker>, results: seq<Result>, tests: seq<Test>, i: nat, r: Result)
    requires Conserved(queue, ws, results, tests) && i < |ws| && Carried(ws[i]) == multiset{r.test}
    ensures Conserved(queue, ws[i := Signalling], results + [r], tests)
  {
    TestsOfAppend(results, r);
    Shift(multiset(queue), multiset{r.test}, TestsOf(results));
    ConservedMove(queue, ws, results, tests, queue, i, Signalling, results + [r]);
  }

  lemma Shift<T>(q: multiset<T>, m: multiset<T>, r: multiset<T>)
    ensures q + multiset{} + (r + m) == q + m + r
  {
  }

  lemma InitInv(tests: seq<Test>, n: nat, logMode: bool, table: Option<map<Path, PathCounts>>)
    requires |tests| < UT64_MAX && n >= 1
    ensures Inv(Init(tests, n, logMode, table))
  {
    var s := Init(tests, n, logMode, table);
    NoneInFlight(s.workers);
  }

  // ----- every step keeps the invariant

  lemma SpawnKeeps(s: State)
    requires Inv(s) && s.main.Spawning?
    ensures Inv(Spawned(s))
  {
    if s.main.n < |s.workers| {
      ConservedStay(s.queue, s.workers, s.results, s.tests, s.main.n, WantsLock);
    }
  }

  /** There are never more results than tests. */
  lemma ResultsBound(s: State)
    requires Conserved(s.queue, s.workers, s.results, s.tests)
    ensures |s.queue| + |InFlight(s.workers)| + |s.results| == |s.tests|
  {
    TestsOfSize(s.results);
    assert |multiset(s.queue) + InFlight(s.workers) + TestsOf(s.results)| == |multiset(s.tests)|;
  }

  lemma TurnKeeps(s: State)
    requires Inv(s) && s.main.AtLoop?
    ensures Inv(Turned(s))
  {
    ResultsBound(s);
  }

  lemma RelockKeeps(s: State)
    requires Inv(s) && s.main.Woken? && s.lock.Free?
    ensures Inv(MainRelocked(s))
  {
  }

  lemma WakeKeeps(s: State)
    requires Inv(s) && s.main.Asleep?
    ensures Inv(s.(main := Woken))
  {
  }

  /** Worker `i` moves on outside the lock or into it. */
  lemma ControlEnter(ws: seq<Worker>, main: Main, lock: Lock, prev: nat, results: nat, tests: nat, queued: nat,
                     i: nat, w: Worker)
    requires Control(ws, main, lock, prev, results, tests, queued) && i < |ws|
    requires !InLock(ws[i]) && !ws[i].Exited? && !w.Exited? && !w.Unborn? && !w.Signalling?
    requires InLock(w) ==> lock.Free?
    requires prev != UT64_MAX
    ensures Control(ws[i := w], main, if InLock(w) then ByWorker(i) else lock, prev, results, tests, queued)
  {
  }

  /** Worker `i`, inside the lock, leaves it. */
  lemma ControlLeave(ws: seq<Worker>, main: Main, lock: Lock, prev: nat, results: nat, tests: nat, queued: nat,
                     i: nat, w: Worker, queued': nat)
    requires Control(ws, main, lock, prev, results, tests, queued) && i < |ws|
    requires ws[i].AtTop? && !InLock(w) && !w.Unborn? && queued' <= queued && (w.Exited? ==> queued' == 0)
    ensures Control(ws[i := w], main, Free, prev, results, tests, queued')
  {
    assert lock == ByWorker(i);
  }

  /** Worker `i`, inside the lock, records a result or signals; a recorded result is always followed by a signal. */
  lemma ControlInside(ws: seq<Worker>, main: Main, lock: Lock, prev: nat, results: nat, tests: nat, queued: nat, i: nat)
    requires Control(ws, main, lock, prev, results, tests, queued) && i < |ws|
    ensures ws[i].Recording? && results < tests ==>
              Control(ws[i := Signalling], main, lock, prev, results + 1, tests, queued)
    ensures ws[i].Signalling? ==>
              Control(ws[i := AtTop], if main.Asleep? then Woken else main, lock, prev, results, tests, queued)
  {
    assert InLock(ws[i]) ==> lock == ByWorker(i);
  }

  lemma NotFirst(s: State, i: nat)
    requires Inv(s) && i < |s.workers| && !s.workers[i].Unborn? && (s.workers[i].WantsLock? ==> s.lock.Free?)
    ensures s.prev != UT64_MAX
  {
  }

  lemma LockKeeps(s: State, i: nat, w: Worker)
    requires Inv(s) && s.lock.Free? && i < |s.workers|
    requires (s.workers[i].WantsLock? && w.AtTop?) || (s.workers[i].Finished? && w == Recording(s.workers[i].result))
    ensures Inv(Locked(s, i, w))
  {
    NotFirst(s, i);
    ControlEnter(s.workers, s.main, s.lock, s.prev, |s.results|, |s.tests|, |s.queue|, i, w);
    ConservedStay(s.queue, s.workers, s.results, s.tests, i, w);
  }

  lemma TakeKeeps(s: State, i: nat)
    requires Inv(s) && i < |s.workers| && s.workers[i].AtTop?
    ensures Inv(Took(s, i))
  {
    var s' := Took(s, i);
    var w := if s.queue == [] then Exited else Running(s.queue[|s.queue| - 1]);
    assert s'.workers == s.workers[i := w] && s'.main == s.main && s'.lock == Free && s'.prev == s.prev;
    assert s'.results == s.results && s'.tests == s.tests && |s'.queue| <= |s.queue|;
    TakeConserves(s, i);
    ControlLeave(s.workers, s.main, s.lock, s.prev, |s.results|, |s.tests|, |s.queue|, i, w, |s'.queue|);
  }

  lemma TakeConserves(s: State, i: nat)
    requires Conserved(s.queue, s.workers, s.results, s.tests) && i < |s.workers| && s.workers[i].AtTop?
    ensures var s' := Took(s, i); Conserved(s'.queue, s'.workers, s'.results, s'.tests)
  {
    if s.queue == [] {
      assert Took(s, i).queue == s.queue;
      ConservedStay(s.queue, s.workers, s.results, s.tests, i, Exited);
    } else {
      ConservedTake(s.queue, s.workers, s.results, s.tests, i);
    }
  }

  lemma RunKeeps(s: State, i: nat, o: Outcome)
    requires Inv(s) && i < |s.workers| && s.workers[i].Running?
    ensures Inv(Ran(s, i, o))
  {
    var w := Finished(Result(s.workers[i].test, o));
    NotFirst(s, i);
    ControlEnter(s.workers, s.main, s.lock, s.prev, |s.results|, |s.tests|, |s.queue|, i, w);
    ConservedStay(s.queue, s.workers, s.results, s.tests, i, w);
  }

  lemma RecordKeeps(s: State, i: nat)
    requires Inv(s) && i < |s.workers| && s.workers[i].Recording?
    ensures Inv(Recorded(s, i)) && |s.results| < |s.tests|
  {
    var s' := Recorded(s, i);
    assert s'.queue == s.queue && s'.results == s.results + [s.workers[i].result] && s'.tests == s.tests;
    assert s'.workers == s.workers[i := Signalling] && s'.main == s.main && s'.lock == s.lock && s'.prev == s.prev;
    NotAllRecorded(s, i);
    ConservedRecord(s.queue, s.workers, s.results, s.tests, i, s.workers[i].result);
    ControlInside(s.workers, s.main, s.lock, s.prev, |s.results|, |s.tests|, |s.queue|, i);
  }

  /** While a worker carries a test there are fewer results than tests. */
  lemma NotAllRecorded(s: State, i: nat)
    requires Inv(s) && i < |s.workers| && s.workers[i].Recording?
    ensures |s.results| < |s.tests|
  {
    ResultsBound(s);
    CarriesOne(s.workers, i);
  }

  lemma SignalKeeps(s: State, i: nat)
    requires Inv(s) && i < |s.workers| && s.workers[i].Signalling?
    ensures Inv(Signalled(s, i))
  {
    ControlInside(s.workers, s.main, s.lock, s.prev, |s.results|, |s.tests|, |s.queue|, i);
    ConservedStay(s.queue, s.workers, s.results, s.tests, i, AtTop);
  }

  lemma NextKeeps(s: State, a: Action)
    requires Inv(s) && Enabled(s, a)
    ensures Inv(Next(s, a))
  {
    match a
    case Spawn => SpawnKeeps(s);
    case Turn => TurnKeeps(s);
    case Relock => RelockKeeps(s);
    case SpuriousWake => WakeKeeps(s);
    case Lock(i) => LockKeeps(s, i, AtTop);
    case Take(i) => TakeKeeps(s, i);
    case Run(i, o) => RunKeeps(s, i, o);
    case LockAgain(i) => LockKeeps(s, i, Recording(s.workers[i].result));
    case Record(i) => RecordKeeps(s, i);
    case Signal(i) => SignalKeeps(s, i);
  }

  // ----- runs

  predicate Runs(s: State, acts: seq<Action>)
    decreases |acts|
  {
    acts != [] ==> Enabled(s, acts[0]) && Runs(Next(s, acts[0]), acts[1..])
  }

  function Final(s: State, acts: seq<Action>): State
    requires Runs(s, acts)
    decreases |acts|
  {
    if acts == [] then s else Final(Next(s, acts[0]), acts[1..])
  }

  lemma {:induction false} RunInv(s: State, acts: seq<Action>)
    requires Inv(s) && Runs(s, acts)
    ensures Inv(Final(s, acts))
    decreases |acts|
  {
    if acts != [] {
      NextKeeps(s, acts[0]);
      RunInv(Next(s, acts[0]), acts[1..]);
    }
  }

  /** In every interleaving no test is lost or run twice, and main leaves its loop only when all tests have results. */
  lemma NoTestLostOrRunTwice(tests: seq<Test>, n: nat, logMode: bool, table: Option<map<Path, PathCounts>>, acts: seq<Action>)
    requires |tests| < UT64_MAX && n >= 1 && Runs(Init(tests, n, logMode, table), acts)
    ensures var s := Final(Init(tests, n, logMode, table), acts);
            && Conserved(s.queue, s.workers, s.results, s.tests)
            && (s.main.Done? ==> TestsOf(s.results) == multiset(s.tests) && s.queue == [] && |s.results| == |s.tests|)
  {
    InitInv(tests, n, logMode, table);
    var s := Final(Init(tests, n, logMode, table), acts);
    RunInv(Init(tests, n, logMode, table), acts);
    if s.main.Done? {
      ResultsBound(s);
      AllRecorded(s);
    }
  }

  lemma AllRecorded(s: State)
    requires Conserved(s.queue, s.workers, s.results, s.tests) && s.queue == [] && |InFlight(s.workers)| == 0
    ensures TestsOf(s.results) == multiset(s.tests)
  {
    assert InFlight(s.workers) == multiset{};
  }

  /** Tests are taken from the end of the list, so that those still queued are its beginning. */
  lemma {:induction false} QueueIsFront(s: State, acts: seq<Action>)
    requires s.queue <= s.tests && Runs(s, acts)
    ensures Final(s, acts).tests == s.tests && Final(s, acts).queue <= s.queue
    decreases |acts|
  {
    if acts != [] {
      QueueShrinks(s, acts[0]);
      QueueIsFront(Next(s, acts[0]), acts[1..]);
    }
  }

  /** A worker that takes a test takes the last one queued. */
  lemma QueueShrinks(s: State, a: Action)
    requires Enabled(s, a)
    ensures var s' := Next(s, a);
            && s'.tests == s.tests
            && if a.Take? && s.queue != [] then s.queue == s'.queue + [s'.workers[a.i].test] && s'.workers[a.i].Running?
               else s'.queue == s.queue
  {
  }

  /** Main never sleeps through the last result: whoever recorded it is inside the lock and about to signal. */
  lemma NoLostWakeup(s: State)
    requires Inv(s) && s.main.Asleep? && |s.results| != s.prev
    ensures s.lock.ByWorker? && s.lock.i < |s.workers| && s.workers[s.lock.i].Signalling?
  {
  }

  ghost predicate CanMove(s: State) {
    exists a :: a != SpuriousWake && Enabled(s, a)
  }

  /** As long as main is in its loop, some thread can move without a spurious wake-up. */
  lemma Progress(s: State)
    requires Inv(s) && !s.main.Done?
    ensures CanMove(s)
  {
    match s.lock {
      case ByMain => assert Enabled(s, if s.main.Spawning? then Spawn else Turn);
      case ByWorker(_) => InsideMoves(s);
      case Free =>
        if s.main.Woken? {
          assert Enabled(s, Relock);
        } else if exists i :: 0 <= i < |s.workers| && !s.workers[i].Exited? {
          var i :| 0 <= i < |s.workers| && !s.workers[i].Exited?;
          OutsideMoves(s, i);
        } else {
          AllExited(s);
        }
    }
  }

  lemma InsideMoves(s: State)
    requires Inv(s) && s.lock.ByWorker?
    ensures CanMove(s)
  {
    var i := s.lock.i;
    var w := s.workers[i];
    assert InLock(w);
    assert Enabled(s, if w.AtTop? then Take(i) else if w.Recording? then Record(i) else Signal(i));
  }

  lemma OutsideMoves(s: State, i: nat)
    requires Inv(s) && s.lock.Free? && i < |s.workers| && !s.workers[i].Exited?
    ensures CanMove(s)
  {
    var w := s.workers[i];
    assert !InLock(w) && !w.Unborn?;
    assert Enabled(s, if w.WantsLock? then Lock(i) else if w.Running? then Run(i, Ok) else LockAgain(i));
  }

  /** Once every worker has exited all results are in. */
  lemma AllExited(s: State)
    requires Inv(s) && forall i :: 0 <= i < |s.workers| ==> s.workers[i].Exited?
    ensures |s.results| == |s.tests|
  {
    assert s.workers[0].Exited?;
    NoneInFlight(s.workers);
    ResultsBound(s);
  }

  /** A state in which nothing can move is the end: main is out of its loop and every worker has exited. */
  lemma StuckMeansDone(s: State)
    requires Inv(s) && !CanMove(s)
    ensures s.main.Done? && forall i :: 0 <= i < |s.workers| ==> s.workers[i].Exited?
  {
    if !s.main.Done? {
      Progress(s);
    }
    if s.lock.ByWorker? {
      InsideMoves(s);
    }
    forall i | 0 <= i < |s.workers| ensures s.workers[i].Exited? {
      if !s.workers[i].Exited? {
        OutsideMoves(s, i);
      }
    }
  }

  // ----- termination under every schedule

  function WorkerWeight(w: Worker): nat {
    match w
    case Unborn => 5
    case WantsLock => 4
    case AtTop => 3
    case Running(_) => 9
    case Finished(_) => 8
    case Recording(_) => 7
    case Signalling => 6
    case Exited => 0
  }

  function MainWeight(m: Main): nat {
    match m
    case Spawning(_) => 2
    case AtLoop => 1
    case Asleep => 0
    case Woken => 2
    case Done => 0
  }

  function Weight(ws: seq<Worker>): nat {
    if ws == [] then 0 else WorkerWeight(ws[0]) + Weight(ws[1..])
  }

  function Measure(s: State): nat {
    10 * |s.queue| + Weight(s.workers) + MainWeight(s.main)
  }

  lemma {:induction false} WeightUpdate(ws: seq<Worker>, i: nat, w: Worker)
    requires i < |ws|
    ensures Weight(ws[i := w]) + WorkerWeight(ws[i]) == Weight(ws) + WorkerWeight(w)
  {
    if i == 0 {
      assert ws[0 := w][1..] == ws[1..];
    } else {
      WeightUpdate(ws[1..], i - 1, w);
      assert ws[i := w][1..] == ws[1..][i - 1 := w];
    }
  }

  lemma SpawnMeasure(s: State)
    requires s.main.Spawning? && SpawnInv(s.workers, s.main)
    ensures Measure(Spawned(s)) < Measure(s)
  {
    if s.main.n < |s.workers| {
      WeightUpdate(s.workers, s.main.n, WantsLock);
    }
  }

  lemma TakeMeasure(s: State, i: nat)
    requires i < |s.workers| && s.workers[i].AtTop?
    ensures Measure(Took(s, i)) < Measure(s)
  {
    if s.queue == [] {
      WeightUpdate(s.workers, i, Exited);
    } else {
      WeightUpdate(s.workers, i, Running(s.queue[|s.queue| - 1]));
    }
  }

  lemma RecordMeasure(s: State, i: nat)
    requires i < |s.workers| && s.workers[i].Recording?
    ensures Measure(Recorded(s, i)) < Measure(s)
  {
    WeightUpdate(s.workers, i, Signalling);
  }

  /** Every step but a spurious wake-up brings the run closer to its end. */
  lemma StepMeasure(s: State, a: Action)
    requires Inv(s) && Enabled(s, a)
    ensures a != SpuriousWake ==> Measure(Next(s, a)) < Measure(s)
    ensures a == SpuriousWake ==> Measure(Next(s, a)) == Measure(s) + 2
  {
    match a
    case Spawn => SpawnMeasure(s);
    case Turn =>
    case Relock =>
    case SpuriousWake =>
    case Lock(i) => WeightUpdate(s.workers, i, AtTop);
    case Take(i) => TakeMeasure(s, i);
    case Run(i, o) => WeightUpdate(s.workers, i, Finished(Result(s.workers[i].test, o)));
    case LockAgain(i) => WeightUpdate(s.workers, i, Recording(s.workers[i].result));
    case Record(i) => RecordMeasure(s, i);
    case Signal(i) => WeightUpdate(s.workers, i, AtTop);
  }

  function SpuriousWakes(acts: seq<Action>): nat {
    if acts == [] then 0 else (if acts[0] == SpuriousWake then 1 else 0) + SpuriousWakes(acts[1..])
  }

  /** No schedule runs forever: every run is bounded by the initial measure and its spurious wake-ups. */
  lemma {:induction false} RunIsBounded(s: State, acts: seq<Action>)
    requires Inv(s) && Runs(s, acts)
    ensures |acts| + Measure(Final(s, acts)) <= Measure(s) + 3 * SpuriousWakes(acts)
    decreases |acts|
  {
    if acts != [] {
      NextKeeps(s, acts[0]);
      StepMeasure(s, acts[0]);
      RunIsBounded(Next(s, acts[0]), acts[1..]);
    }
  }
}
