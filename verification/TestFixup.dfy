/** Loading an edited test file against shifting the line numbers remembered from the text before. */
module TestFixup {
  import opened Machine
  import opened TextLines
  import opened TestFile
  import opened TestFormat
  import opened TestEdit

  // ----- where the fields of loaded tests come from

  /** All remembered ranges lie on the first `n` lines. */
  ghost predicate Within(t: CmdTest, n: nat) {
    forall key :: key in t.strs ==> 1 <= t.strs[key].begin < t.strs[key].end <= n + 1
  }

  /** Each test done was closed by a RUN on the first `n` lines, behind all its fields. */
  ghost predicate AllWithin(ts: seq<CmdTest>, n: nat) {
    forall j :: 0 <= j < |ts| ==> 1 <= ts[j].runLine <= n && Within(ts[j], ts[j].runLine - 1)
  }

  lemma FilledWithin(t: CmdTest, item: Item, n: nat)
    requires Within(t, n) && n < After(item, n)
    ensures Within(Filled(t, item, n), After(item, n))
  {
  }

  lemma LaterWithin(done: seq<CmdTest>, n: nat, m: nat)
    requires AllWithin(done, n) && n <= m
    ensures AllWithin(done, m)
  {
  }

  lemma ClosedWithin(done: seq<CmdTest>, cur: CmdTest, n: nat)
    requires AllWithin(done, n) && Within(cur, n)
    ensures AllWithin(done + [cur.(runLine := n + 1)], n + 1) && Within(EMPTY, n + 1)
  {
  }

  lemma {:induction false} LoadedWithin(items: seq<Item>, n: nat, k: Schema, done: seq<CmdTest>, cur: CmdTest)
    requires Advancing(items) && n <= |items| && AllWithin(done, n) && Within(cur, n)
    requires LoadFrom(items, n, k, done, cur).Some?
    ensures AllWithin(LoadFrom(items, n, k, done, cur).value, |items|)
    decreases |items| - n
  {
    if n < |items| {
      var item := items[n];
      if item.Run? {
        LoadedWithin(items, n + 1, k, done + [cur.(runLine := n + 1)], EMPTY);
      } else {
        FilledWithin(cur, item, n);
        LoadedWithin(items, After(item, n), k, done, Filled(cur, item, n));
      }
    }
  }

  /** A field that begins on line `lb` is the recorded one, if any. */
  ghost predicate Only(t: CmdTest, lb: nat, rec: Option<(string, Field)>) {
    forall key :: key in t.strs && t.strs[key].begin == lb ==> rec == Some((key, t.strs[key]))
  }

  ghost predicate AllOnly(ts: seq<CmdTest>, lb: nat, rec: Option<(string, Field)>) {
    forall j :: 0 <= j < |ts| ==> Only(ts[j], lb, rec)
  }

  /** Behind line `lb` no further field can begin there. */
  lemma {:induction false} OnlyStays(items: seq<Item>, n: nat, k: Schema, done: seq<CmdTest>, cur: CmdTest,
                                     lb: nat, rec: Option<(string, Field)>)
    requires Advancing(items) && lb <= n <= |items| && AllOnly(done, lb, rec) && Only(cur, lb, rec)
    requires LoadFrom(items, n, k, done, cur).Some?
    ensures AllOnly(LoadFrom(items, n, k, done, cur).value, lb, rec)
    decreases |items| - n
  {
    if n < |items| {
      var item := items[n];
      if item.Run? {
        OnlyStays(items, n + 1, k, done + [cur.(runLine := n + 1)], EMPTY, lb, rec);
      } else {
        OnlyStays(items, After(item, n), k, done, Filled(cur, item, n), lb, rec);
      }
    }
  }

  /** The loader, started at item `n`, gets to item `m`. */
  ghost predicate Visits(items: seq<Item>, n: nat, m: nat)
    requires Advancing(items)
    decreases |items| - n
  {
    n <= m && (n < m ==> m < |items| && !items[n].Bad? && Visits(items, After(items[n], n), m))
  }

  lemma NoneBegins(done: seq<CmdTest>, cur: CmdTest, n: nat, lb: nat)
    requires AllWithin(done, n) && Within(cur, n) && n < lb
    ensures AllOnly(done, lb, None) && Only(cur, lb, None)
  {
    forall j | 0 <= j < |done| ensures Only(done[j], lb, None) {
      assert Within(done[j], done[j].runLine - 1);
    }
  }

  /** A field of a loaded test was read by an item on the line where it begins. */
  lemma {:induction false} FieldVisited(items: seq<Item>, n: nat, k: Schema, done: seq<CmdTest>, cur: CmdTest,
                                        ts: seq<CmdTest>, j: nat, key: string)
    requires Advancing(items) && n <= |items| && AllWithin(done, n) && Within(cur, n)
    requires LoadFrom(items, n, k, done, cur) == Some(ts) && j < |ts| && key in ts[j].strs && ts[j].strs[key].begin > n
    ensures var f := ts[j].strs[key];
            f.begin <= |items| && Visits(items, n, f.begin - 1)
            && f.end >= 1 && items[f.begin - 1] == Str(key, f.value, f.end - 1)
    decreases |items| - n
  {
    var lb := ts[j].strs[key].begin;
    NoneBegins(done, cur, n, lb);
    if n < |items| {
      var item := items[n];
      var next := After(item, n);
      var done', cur' := if item.Run? then done + [cur.(runLine := n + 1)] else done,
                         if item.Run? then EMPTY else Filled(cur, item, n);
      assert LoadFrom(items, next, k, done', cur') == Some(ts);
      FilledWithin(cur, item, n);
      if next < lb {
        FieldVisited(items, next, k, done', cur', ts, j, key);
      } else {
        var rec := if n == lb - 1 && item.Str? then Some((item.key, Field(item.value, n + 1, item.next + 1))) else None;
        StepOnly(done, cur, item, n, lb);
        OnlyStays(items, next, k, done', cur', lb, rec);
        assert Only(ts[j], lb, rec);
      }
    }
  }

  lemma StepOnly(done: seq<CmdTest>, cur: CmdTest, item: Item, n: nat, lb: nat)
    requires AllOnly(done, lb, None) && Only(cur, lb, None)
    ensures var rec := if n == lb - 1 && item.Str? then Some((item.key, Field(item.value, n + 1, item.next + 1))) else None;
            AllOnly(done, lb, rec) && AllOnly(done + [cur.(runLine := n + 1)], lb, rec) && Only(EMPTY, lb, rec)
            && Only(Filled(cur, item, n), lb, rec)
  {
    forall j | 0 <= j < |done| ensures forall rec :: Only(done[j], lb, rec) {
      assert Only(done[j], lb, None);
    }
    assert Only(cur.(runLine := n + 1), lb, None);
  }

  /** Earlier tests were closed before any field of this one began. */
  ghost predicate Follows(done: seq<CmdTest>, t: CmdTest) {
    forall i, key :: 0 <= i < |done| && key in t.strs ==> done[i].runLine < t.strs[key].begin
  }

  /** The tests stand one behind the other. */
  ghost predicate Sorted(ts: seq<CmdTest>) {
    && (forall j :: 0 <= j < |ts| ==> Follows(ts[..j], ts[j]))
    && (forall i, j :: 0 <= i < j < |ts| ==> ts[i].runLine < ts[j].runLine)
  }

  lemma SortedSnoc(done: seq<CmdTest>, t: CmdTest, n: nat)
    requires Sorted(done) && AllWithin(done, n) && Follows(done, t)
    ensures Sorted(done + [t.(runLine := n + 1)])
  {
    var ts := done + [t.(runLine := n + 1)];
    forall j | 0 <= j < |ts| ensures Follows(ts[..j], ts[j]) {
      assert ts[..j] == done[..j];
      assert j == |done| ==> done[..j] == done;
    }
  }

  lemma {:induction false} LoadedSorted(items: seq<Item>, n: nat, k: Schema, done: seq<CmdTest>, cur: CmdTest)
    requires Advancing(items) && n <= |items| && AllWithin(done, n) && Within(cur, n) && Sorted(done) && Follows(done, cur)
    requires LoadFrom(items, n, k, done, cur).Some?
    ensures Sorted(LoadFrom(items, n, k, done, cur).value)
    decreases |items| - n
  {
    if n < |items| {
      var item := items[n];
      if item.Run? {
        SortedSnoc(done, cur, n);
        DoneWithin(done, cur, n);
        LoadedSorted(items, n + 1, k, done + [cur.(runLine := n + 1)], EMPTY);
      } else {
        FilledWithin(cur, item, n);
        FilledFollows(done, cur, item, n);
        LoadedSorted(items, After(item, n), k, done, Filled(cur, item, n));
      }
    }
  }

  lemma DoneWithin(done: seq<CmdTest>, cur: CmdTest, n: nat)
    requires AllWithin(done, n) && Within(cur, n)
    ensures AllWithin(done + [cur.(runLine := n + 1)], n + 1)
    ensures Within(EMPTY, n + 1) && Follows(done + [cur.(runLine := n + 1)], EMPTY)
  {
  }

  lemma FilledFollows(done: seq<CmdTest>, cur: CmdTest, item: Item, n: nat)
    requires AllWithin(done, n) && Follows(done, cur) && n < After(item, n)
    ensures Follows(done, Filled(cur, item, n)) && AllWithin(done, After(item, n))
  {
  }

  // ----- the edit

  /** The lines [lb, le) of a key get a new value and then end before line `ne`. */
  datatype Edit = Edit(key: string, value: string, lb: nat, le: nat, ne: nat)

  /** A line number of the old text, not inside the replaced lines, in the new text. */
  function Shift(x: nat, e: Edit): nat {
    if x >= e.le then x - e.le + e.ne else x
  }

  /** A field as a fresh load of the edited text sees it: the replaced one has the new value. */
  function Moved(f: Field, e: Edit): Field {
    Field(if f.begin == e.lb then e.value else f.value, Shift(f.begin, e), Shift(f.end, e))
  }

  function MovedTest(t: CmdTest, e: Edit): CmdTest {
    t.(strs := map key | key in t.strs :: Moved(t.strs[key], e), runLine := Shift(t.runLine, e))
  }

  function MovedAll(ts: seq<CmdTest>, e: Edit): (r: seq<CmdTest>)
    ensures |r| == |ts| && forall j :: 0 <= j < |ts| ==> r[j] == MovedTest(ts[j], e)
  {
    seq(|ts|, j requires 0 <= j < |ts| => MovedTest(ts[j], e))
  }

  /** The items of the two texts: equal before the edit, the same but for their place behind it. */
  ghost predicate Edited(items: seq<Item>, items': seq<Item>, e: Edit) {
    && Advancing(items) && Advancing(items') && 1 <= e.lb < e.le <= |items| && e.lb < e.ne
    && |items'| == |items| - e.le + e.ne
    && (forall i :: 0 <= i < e.lb - 1 && !items[i].Bad? && After(items[i], i) < e.lb ==> items'[i] == items[i])
    && (forall i :: e.le - 1 <= i < |items| ==> MovesTo(items[i], i, items'[i - e.le + e.ne], i - e.le + e.ne))
  }

  ghost predicate MovesTo(item: Item, n: nat, item': Item, n': nat) {
    if item.Str? then item.next > n && item' == Str(item.key, item.value, item.next - n + n') else item' == item
  }

  lemma MovedFilled(t: CmdTest, item: Item, n: nat, item': Item, n': nat, e: Edit)
    requires e.lb < e.le <= n + 1 && n' == n - e.le + e.ne && MovesTo(item, n, item', n')
    ensures Filled(MovedTest(t, e), item', n') == MovedTest(Filled(t, item, n), e)
  {
    if item.Str? {
      var f, f' := Field(item.value, n + 1, item.next + 1), Field(item.value, n' + 1, item'.next + 1);
      assert Moved(f, e) == f';
      MovedUpdate(t, item.key, f, e);
    }
  }

  lemma MovedUpdate(t: CmdTest, key: string, f: Field, e: Edit)
    ensures MovedTest(t.(strs := t.strs[key := f]), e)
            == MovedTest(t, e).(strs := MovedTest(t, e).strs[key := Moved(f, e)])
  {
    assert MovedTest(t.(strs := t.strs[key := f]), e).strs == MovedTest(t, e).strs[key := Moved(f, e)];
  }

  /** The check at RUN looks only at which keys there are and at the tool. */
  lemma MovedRunOk(t: CmdTest, k: Schema, e: Edit)
    requires ToolKept(t, e.lb)
    ensures RunOk(MovedTest(t, e), k) <==> RunOk(t, k)
  {
    var t' := MovedTest(t, e);
    assert t'.strs.Keys == t.strs.Keys;
    assert Value(t', "TOOL") == Value(t, "TOOL");
  }

  ghost predicate ToolKept(t: CmdTest, lb: nat) {
    "TOOL" in t.strs ==> t.strs["TOOL"].begin != lb
  }

  lemma MovedDone(done: seq<CmdTest>, cur: CmdTest, n: nat, n': nat, e: Edit)
    requires 1 <= e.le <= n + 1 && n' == n - e.le + e.ne
    ensures MovedAll(done + [cur.(runLine := n + 1)], e) == MovedAll(done, e) + [MovedTest(cur, e).(runLine := n' + 1)]
    ensures MovedTest(EMPTY, e) == EMPTY
  {
    assert MovedTest(cur.(runLine := n + 1), e) == MovedTest(cur, e).(runLine := n' + 1);
    assert MovedTest(EMPTY, e).strs == map[];
  }

  // ----- what loading keeps of the tests done

  lemma {:induction false} DoneStays(items: seq<Item>, n: nat, k: Schema, done: seq<CmdTest>, cur: CmdTest, ts: seq<CmdTest>)
    requires Advancing(items) && n <= |items| && LoadFrom(items, n, k, done, cur) == Some(ts)
    ensures done <= ts
    decreases |items| - n
  {
    if n < |items| {
      var item := items[n];
      if item.Run? {
        DoneStays(items, n + 1, k, done + [cur.(runLine := n + 1)], EMPTY, ts);
      } else {
        DoneStays(items, After(item, n), k, done, Filled(cur, item, n), ts);
      }
    }
  }

  ghost predicate AllRunOk(ts: seq<CmdTest>, k: Schema) {
    forall j :: 0 <= j < |ts| ==> RunOk(ts[j], k)
  }

  /** Every loaded test passed the check at its RUN. */
  lemma {:induction false} LoadedRunOk(items: seq<Item>, n: nat, k: Schema, done: seq<CmdTest>, cur: CmdTest, ts: seq<CmdTest>)
    requires Advancing(items) && n <= |items| && LoadFrom(items, n, k, done, cur) == Some(ts) && AllRunOk(done, k)
    ensures AllRunOk(ts, k)
    decreases |items| - n
  {
    if n < |items| {
      var item := items[n];
      if item.Run? {
        assert RunOk(cur.(runLine := n + 1), k) by { RunOkLine(cur, n + 1, k); }
        LoadedRunOk(items, n + 1, k, done + [cur.(runLine := n + 1)], EMPTY, ts);
      } else {
        LoadedRunOk(items, After(item, n), k, done, Filled(cur, item, n), ts);
      }
    }
  }

  lemma RunOkLine(t: CmdTest, n: nat, k: Schema)
    ensures RunOk(t.(runLine := n), k) <==> RunOk(t, k)
  {
  }

  /** Behind the edit, loading commutes with the shift, if the tests still pass the check at RUN. */
  lemma {:induction false} LoadMoves(items: seq<Item>, n: nat, items': seq<Item>, n': nat, k: Schema,
                                     done: seq<CmdTest>, cur: CmdTest, e: Edit, ts: seq<CmdTest>)
    requires Edited(items, items', e) && e.le - 1 <= n <= |items| && n' == n - e.le + e.ne
    requires LoadFrom(items, n, k, done, cur) == Some(ts) && AllRunOk(MovedAll(ts, e), k)
    ensures LoadFrom(items', n', k, MovedAll(done, e), MovedTest(cur, e)) == Some(MovedAll(ts, e))
    decreases |items| - n
  {
    if n < |items| {
      var item, item' := items[n], items'[n'];
      assert MovesTo(item, n, item', n');
      if item.Run? {
        RunMoves(items, n, k, done, cur, e, ts);
        MovedDone(done, cur, n, n', e);
        LoadMoves(items, n + 1, items', n' + 1, k, done + [cur.(runLine := n + 1)], EMPTY, e, ts);
      } else {
        var next, next' := After(item, n), After(item', n');
        var filled := Filled(cur, item, n);
        MovedFilled(cur, item, n, item', n', e);
        LoadMoves(items, next, items', next', k, done, filled, e, ts);
        assert LoadFrom(items', n', k, MovedAll(done, e), MovedTest(cur, e))
            == LoadFrom(items', next', k, MovedAll(done, e), MovedTest(filled, e));
      }
    }
  }

  /** The test closed here is among the loaded ones. */
  lemma RunMoves(items: seq<Item>, n: nat, k: Schema, done: seq<CmdTest>, cur: CmdTest, e: Edit, ts: seq<CmdTest>)
    requires Advancing(items) && n < |items| && items[n].Run? && LoadFrom(items, n, k, done, cur) == Some(ts)
    requires AllRunOk(MovedAll(ts, e), k)
    ensures LoadFrom(items, n + 1, k, done + [cur.(runLine := n + 1)], EMPTY) == Some(ts) && RunOk(MovedTest(cur, e), k)
  {
    var t := cur.(runLine := n + 1);
    DoneStays(items, n + 1, k, done + [t], EMPTY, ts);
    assert (done + [t])[|done|] == t == ts[|done|];
    assert RunOk(MovedAll(ts, e)[|done|], k);
    RunOkLine(MovedTest(cur, e), MovedTest(t, e).runLine, k);
    assert MovedTest(cur, e).(runLine := MovedTest(t, e).runLine) == MovedTest(t, e);
  }

  /** Two fields of loaded tests never begin on the same line. */
  lemma SoleField(items: seq<Item>, k: Schema, ts: seq<CmdTest>, j: nat, key: string, j': nat, key': string)
    requires Advancing(items) && LoadFrom(items, 0, k, [], EMPTY) == Some(ts) && j < |ts| && j' < |ts|
    requires key in ts[j].strs && key' in ts[j'].strs && ts[j].strs[key].begin == ts[j'].strs[key'].begin
    ensures j == j' && key == key'
  {
    LoadedWithin(items, 0, k, [], EMPTY);
    LoadedSorted(items, 0, k, [], EMPTY);
    assert Within(ts[j], ts[j].runLine - 1) && Within(ts[j'], ts[j'].runLine - 1);
    FieldVisited(items, 0, k, [], EMPTY, ts, j, key);
    FieldVisited(items, 0, k, [], EMPTY, ts, j', key');
    if j < j' {
      BeginsBefore(ts, j, key, j', key', |items|);
    } else if j' < j {
      BeginsBefore(ts, j', key', j, key, |items|);
    }
  }

  lemma BeginsBefore(ts: seq<CmdTest>, j: nat, key: string, j': nat, key': string, n: nat)
    requires Sorted(ts) && AllWithin(ts, n) && j < j' < |ts| && key in ts[j].strs && key' in ts[j'].strs
    ensures ts[j].strs[key].begin < ts[j'].strs[key'].begin
  {
    assert Within(ts[j], ts[j].runLine - 1);
    assert Follows(ts[..j'], ts[j']) && ts[..j'][j] == ts[j];
  }

  // ----- before the edit

  lemma BeforeEdit(t: CmdTest, e: Edit)
    requires 1 <= e.lb < e.le && Within(t, e.lb - 1) && t.runLine < e.lb
    ensures MovedTest(t, e) == t
  {
    assert MovedTest(t, e).strs == t.strs;
  }

  lemma AllBeforeEdit(done: seq<CmdTest>, e: Edit)
    requires 1 <= e.lb < e.le && AllWithin(done, e.lb - 1)
    ensures MovedAll(done, e) == done
  {
    forall j | 0 <= j < |done| ensures MovedTest(done[j], e) == done[j] {
      BeforeEdit(done[j], e);
    }
  }

  /** At the edited line. */
  lemma EditedHere(items: seq<Item>, items': seq<Item>, k: Schema, done: seq<CmdTest>, cur: CmdTest, e: Edit, ts: seq<CmdTest>)
    requires Edited(items, items', e) && AllWithin(done, e.lb - 1) && Within(cur, e.lb - 1) && cur.runLine == 0
    requires items[e.lb - 1].Str? && items[e.lb - 1].key == e.key && items[e.lb - 1].next == e.le - 1
    requires items'[e.lb - 1] == Str(e.key, e.value, e.ne - 1)
    requires LoadFrom(items, e.lb - 1, k, done, cur) == Some(ts) && AllRunOk(MovedAll(ts, e), k)
    ensures LoadFrom(items', e.lb - 1, k, done, cur) == Some(MovedAll(ts, e))
  {
    var n := e.lb - 1;
    var cur', f := Filled(cur, items[n], n), Field(items[n].value, e.lb, e.le);
    AllBeforeEdit(done, e);
    BeforeEdit(cur, e);
    MovedUpdate(cur, e.key, f, e);
    assert Moved(f, e) == Field(e.value, e.lb, e.ne);
    assert Filled(cur, items'[n], n) == MovedTest(cur', e);
    LoadMoves(items, e.le - 1, items', e.ne - 1, k, done, cur', e, ts);
  }

  lemma {:induction false} EditedLoad(items: seq<Item>, items': seq<Item>, n: nat, k: Schema,
                                      done: seq<CmdTest>, cur: CmdTest, e: Edit, ts: seq<CmdTest>)
    requires Edited(items, items', e) && n < e.lb && AllWithin(done, n) && Within(cur, n) && cur.runLine == 0
    requires Visits(items, n, e.lb - 1)
    requires items[e.lb - 1].Str? && items[e.lb - 1].key == e.key && items[e.lb - 1].next == e.le - 1
    requires items'[e.lb - 1] == Str(e.key, e.value, e.ne - 1)
    requires LoadFrom(items, n, k, done, cur) == Some(ts) && AllRunOk(MovedAll(ts, e), k)
    ensures LoadFrom(items', n, k, done, cur) == Some(MovedAll(ts, e))
    decreases |items| - n
  {
    if n == e.lb - 1 {
      EditedHere(items, items', k, done, cur, e, ts);
    } else {
      var item := items[n];
      assert items'[n] == item;
      FilledWithin(cur, item, n);
      if item.Run? {
        ClosedWithin(done, cur, n);
        EditedLoad(items, items', n + 1, k, done + [cur.(runLine := n + 1)], EMPTY, e, ts);
      } else {
        LaterWithin(done, n, After(item, n));
        EditedLoad(items, items', After(item, n), k, done, Filled(cur, item, n), e, ts);
      }
    }
  }

  /** Only the edited test can stop passing the check at RUN, and only by its TOOL. */
  lemma OthersRunOk(items: seq<Item>, k: Schema, ts: seq<CmdTest>, j: nat, e: Edit)
    requires Advancing(items) && LoadFrom(items, 0, k, [], EMPTY) == Some(ts) && j < |ts|
    requires e.key in ts[j].strs && ts[j].strs[e.key].begin == e.lb
    ensures AllRunOk(MovedAll(ts, e), k) <==> RunOk(MovedTest(ts[j], e), k)
    ensures e.key != "TOOL" ==> RunOk(MovedTest(ts[j], e), k)
  {
    LoadedRunOk(items, 0, k, [], EMPTY, ts);
    forall i | 0 <= i < |ts| ensures (i != j || e.key != "TOOL") ==> RunOk(MovedTest(ts[i], e), k) {
      if i != j || e.key != "TOOL" {
        if "TOOL" in ts[i].strs && ts[i].strs["TOOL"].begin == e.lb {
          SoleField(items, k, ts, i, "TOOL", j, e.key);
        }
        MovedRunOk(ts[i], k, e);
      }
    }
    assert MovedAll(ts, e)[j] == MovedTest(ts[j], e);
  }

  /** The edited text loads as the old tests with the key replaced and all lines shifted, if and only if the new lines
      are read back as the new value and the edited test still passes the check at its RUN. */
  lemma EditedLoadIff(items: seq<Item>, items': seq<Item>, k: Schema, ts: seq<CmdTest>, j: nat, e: Edit)
    requires Edited(items, items', e) && LoadFrom(items, 0, k, [], EMPTY) == Some(ts) && j < |ts|
    requires e.key in ts[j].strs && ts[j].strs[e.key].begin == e.lb && ts[j].strs[e.key].end == e.le
    ensures LoadFrom(items', 0, k, [], EMPTY) == Some(MovedAll(ts, e)) <==>
            items'[e.lb - 1] == Str(e.key, e.value, e.ne - 1) && RunOk(MovedTest(ts[j], e), k)
  {
    FieldVisited(items, 0, k, [], EMPTY, ts, j, e.key);
    OthersRunOk(items, k, ts, j, e);
    if items'[e.lb - 1] == Str(e.key, e.value, e.ne - 1) && RunOk(MovedTest(ts[j], e), k) {
      EditedLoad(items, items', 0, k, [], EMPTY, e, ts);
    } else if LoadFrom(items', 0, k, [], EMPTY) == Some(MovedAll(ts, e)) {
      MovedField(ts[j], e);
      assert MovedAll(ts, e)[j] == MovedTest(ts[j], e);
      LoadedEdit(items', k, MovedAll(ts, e), j, e);
    }
  }

  lemma LoadedEdit(items': seq<Item>, k: Schema, ts': seq<CmdTest>, j: nat, e: Edit)
    requires Advancing(items') && LoadFrom(items', 0, k, [], EMPTY) == Some(ts') && j < |ts'| && e.lb >= 1 && e.ne >= 1
    requires e.key in ts'[j].strs && ts'[j].strs[e.key] == Field(e.value, e.lb, e.ne)
    ensures e.lb - 1 < |items'| && items'[e.lb - 1] == Str(e.key, e.value, e.ne - 1) && RunOk(ts'[j], k)
  {
    LoadedRunOk(items', 0, k, [], EMPTY, ts');
    FieldVisited(items', 0, k, [], EMPTY, ts', j, e.key);
  }

  lemma MovedField(t: CmdTest, e: Edit)
    requires e.key in t.strs && t.strs[e.key].begin == e.lb && t.strs[e.key].end == e.le && e.lb < e.le
    ensures MovedTest(t, e).strs[e.key] == Field(e.value, e.lb, e.ne)
  {
  }

  // ----- the edit on the text

  ghost predicate EditedText(raw: seq<string>, raw': seq<string>, e: Edit) {
    && 1 <= e.lb < e.le <= |raw| && e.ne == e.lb + |Lines(FormatKv(e.key, e.value))|
    && raw' == raw[..e.lb - 1] + (Lines(FormatKv(e.key, e.value)) + raw[e.le - 1..])
  }

  /** `items` is what the lines are read as. */
  ghost predicate ReadAs(raw: seq<string>, k: Schema, items: seq<Item>) {
    |items| == |raw| && forall i {:trigger ItemOf(raw, i, k)} :: 0 <= i < |raw| ==> items[i] == ItemOf(raw, i, k)
  }

  lemma ReadAt(raw: seq<string>, k: Schema, items: seq<Item>, i: nat)
    requires ReadAs(raw, k, items) && i < |raw|
    ensures i < |items| && items[i] == ItemOf(raw, i, k)
  {
  }

  lemma ItemBefore(raw: seq<string>, raw': seq<string>, k: Schema, items: seq<Item>, items': seq<Item>, m: nat, i: nat)
    requires ReadAs(raw, k, items) && ReadAs(raw', k, items') && Agree(raw, raw', 0, m)
    requires i < m && !items[i].Bad? && After(items[i], i) <= m
    ensures items'[i] == items[i]
  {
    assert items[i] == ItemOf(raw, i, k);
    ItemSame(raw, raw', i, m, k);
  }

  lemma ItemBehind(raw: seq<string>, raw': seq<string>, k: Schema, items: seq<Item>, items': seq<Item>, n: nat, n': nat, i: nat)
    requires ReadAs(raw, k, items) && ReadAs(raw', k, items') && n <= i < |raw| && n' <= |raw'| && raw[n..] == raw'[n'..]
    ensures i - n + n' < |raw'| && MovesTo(items[i], i, items'[i - n + n'], i - n + n')
  {
    var i' := i - n + n';
    SameSuffix(raw, n, raw', n', i);
    assert |raw[i..]| == |raw'[i'..]|;
    ReadAt(raw, k, items, i);
    ReadAt(raw', k, items', i');
    ItemMoves(raw, i, raw', i', k);
  }

  lemma ItemMoves(raw: seq<string>, i: nat, raw': seq<string>, i': nat, k: Schema)
    requires i < |raw| && i' < |raw'| && raw[i..] == raw'[i'..]
    ensures MovesTo(ItemOf(raw, i, k), i, ItemOf(raw', i', k), i')
  {
    ItemShift(raw, i, raw', i', k);
    ShiftMoves(ItemOf(raw, i, k), i, ItemOf(raw', i', k), i');
  }

  lemma ShiftMoves(item: Item, n: nat, item': Item, n': nat)
    requires (item.Str? ==> item.next > n) && item' == ShiftedItem(item, n, n')
    ensures MovesTo(item, n, item', n')
  {
  }

  lemma ItemsEdited(raw: seq<string>, raw': seq<string>, k: Schema, e: Edit, items: seq<Item>, items': seq<Item>)
    requires EditedText(raw, raw', e) && ReadAs(raw, k, items) && ReadAs(raw', k, items')
    requires Advancing(items) && Advancing(items')
    ensures Edited(items, items', e)
  {
    SplitText(raw, raw', Lines(FormatKv(e.key, e.value)), e);
    forall i | 0 <= i < e.lb - 1 && !items[i].Bad? && After(items[i], i) < e.lb ensures items'[i] == items[i] {
      ItemBefore(raw, raw', k, items, items', e.lb - 1, i);
    }
    forall i | e.le - 1 <= i < |items| ensures MovesTo(items[i], i, items'[i - e.le + e.ne], i - e.le + e.ne) {
      ItemBehind(raw, raw', k, items, items', e.le - 1, e.ne - 1, i);
    }
  }

  lemma SplitText(raw: seq<string>, raw': seq<string>, ls: seq<string>, e: Edit)
    requires 1 <= e.lb < e.le <= |raw| && e.ne == e.lb + |ls| && |ls| >= 1
    requires raw' == raw[..e.lb - 1] + (ls + raw[e.le - 1..])
    ensures |raw'| == |raw| - e.le + e.ne && Agree(raw, raw', 0, e.lb - 1) && raw[e.le - 1..] == raw'[e.ne - 1..]
    ensures StandsAt(raw', e.lb - 1, ls)
  {
  }

  /** Replacing a key of a loaded test gives a file that loads as the old tests with that one value replaced and every
      line number behind it shifted by the growth, if and only if the value is well formed and the test still passes the
      check at its RUN; the latter can only fail by a replaced TOOL. */
  lemma ReloadIff(raw: seq<string>, raw': seq<string>, k: Schema, ts: seq<CmdTest>, j: nat, e: Edit)
    requires EditedText(raw, raw', e) && LoadFrom(Items(raw, k), 0, k, [], EMPTY) == Some(ts) && j < |ts|
    requires e.key in k.strs && KeyOk(e.key)
    requires e.key in ts[j].strs && ts[j].strs[e.key].begin == e.lb && ts[j].strs[e.key].end == e.le
    ensures LoadFrom(Items(raw', k), 0, k, [], EMPTY) == Some(MovedAll(ts, e)) <==>
            WellFormed(e.value) && RunOk(MovedTest(ts[j], e), k)
    ensures e.key != "TOOL" ==> RunOk(MovedTest(ts[j], e), k)
  {
    ReloadItems(raw, raw', k, ts, j, e, Items(raw, k), Items(raw', k));
  }

  lemma ReloadItems(raw: seq<string>, raw': seq<string>, k: Schema, ts: seq<CmdTest>, j: nat, e: Edit,
                    items: seq<Item>, items': seq<Item>)
    requires EditedText(raw, raw', e) && ReadAs(raw, k, items) && ReadAs(raw', k, items')
    requires Advancing(items) && Advancing(items') && LoadFrom(items, 0, k, [], EMPTY) == Some(ts) && j < |ts|
    requires e.key in k.strs && KeyOk(e.key)
    requires e.key in ts[j].strs && ts[j].strs[e.key].begin == e.lb && ts[j].strs[e.key].end == e.le
    ensures LoadFrom(items', 0, k, [], EMPTY) == Some(MovedAll(ts, e)) <==>
            WellFormed(e.value) && RunOk(MovedTest(ts[j], e), k)
    ensures e.key != "TOOL" ==> RunOk(MovedTest(ts[j], e), k)
  {
    ItemsEdited(raw, raw', k, e, items, items');
    OthersRunOk(items, k, ts, j, e);
    EditedLine(raw, raw', k, e, items');
    EditedLoadIff(items, items', k, ts, j, e);
  }

  /** The new lines are read back as the new value exactly if it is well formed. */
  lemma EditedLine(raw: seq<string>, raw': seq<string>, k: Schema, e: Edit, items': seq<Item>)
    requires EditedText(raw, raw', e) && ReadAs(raw', k, items') && e.key in k.strs && KeyOk(e.key)
    ensures e.lb - 1 < |items'| && (items'[e.lb - 1] == Str(e.key, e.value, e.ne - 1) <==> WellFormed(e.value))
  {
    EditedStands(raw, raw', e);
    LineReads(raw', k, items', e.lb - 1, e.key, e.value);
  }

  lemma EditedStands(raw: seq<string>, raw': seq<string>, e: Edit)
    requires EditedText(raw, raw', e)
    ensures e.lb - 1 < |raw'| && StandsAt(raw', e.lb - 1, Lines(FormatKv(e.key, e.value)))
  {
    SplitText(raw, raw', Lines(FormatKv(e.key, e.value)), e);
  }

  lemma LineReads(raw: seq<string>, k: Schema, items: seq<Item>, n: nat, key: string, v: string)
    requires ReadAs(raw, k, items) && n < |raw| && key in k.strs && KeyOk(key) && StandsAt(raw, n, Lines(FormatKv(key, v)))
    ensures items[n] == Str(key, v, n + |Lines(FormatKv(key, v))|) <==> WellFormed(v)
  {
    ReadBackIff(raw, n, k, key, v);
    assert items[n] == ItemOf(raw, n, k);
  }
}
