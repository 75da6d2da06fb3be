/** The results in memory while keys of their files are being replaced. */
module TestRepair {
  import opened Machine
  import opened TextLines
  import opened TestFile
  import opened TestFormat
  import opened TestEdit
  import opened TestFixup

  /** The lines [begin, end) of a key. */
  datatype Span = Span(begin: nat, end: nat)

  /** What is remembered of test number `index` of a file: the lines of the string keys it has, those of the flags and
      numbers, which a load leaves at zero, and that of its RUN. */
  datatype Entry = Entry(path: string, isCmd: bool, index: nat, spans: map<string, Span>, lines: map<string, nat>, runLine: U64)

  // ----- fixup_tests

  function FixedLine(x: nat, start: nat, delta: int): nat
    requires start + delta >= 0
  {
    if x >= start then x + delta else x
  }

  function FixedSpans(spans: map<string, Span>, start: nat, delta: int): map<string, Span>
    requires start + delta >= 0
  {
    map key | key in spans :: Span(FixedLine(spans[key].begin, start, delta), FixedLine(spans[key].end, start, delta))
  }

  function FixedLines(lines: map<string, nat>, start: nat, delta: int): map<string, nat>
    requires start + delta >= 0
  {
    map key | key in lines :: FixedLine(lines[key], start, delta)
  }

  function Wrap(x: int): U64 {
    x % (UT64_MAX + 1)
  }

  function Fixed(r: Entry, path: string, start: nat, delta: int): Entry
    requires start + delta >= 0
  {
    if r.isCmd && r.path == path
    then r.(spans := FixedSpans(r.spans, start, delta), lines := FixedLines(r.lines, start, delta),
            runLine := Wrap(r.runLine + delta))
    else r
  }

  ghost predicate AllFixed(was: seq<Entry>, now: seq<Entry>, path: string, start: nat, delta: int) {
    start + delta >= 0 && |now| == |was| && forall i :: 0 <= i < |was| ==> now[i] == Fixed(was[i], path, start, delta)
  }

  /** Lines from `start` on move by `delta`, those before stay, and the RUN line always moves. */
  lemma FixedShifts(r: Entry, path: string, start: nat, delta: int)
    requires start + delta >= 0
    ensures var f := Fixed(r, path, start, delta);
            && f.path == r.path && f.isCmd == r.isCmd && f.index == r.index
            && (!(r.isCmd && r.path == path) ==> f == r)
            && (r.isCmd && r.path == path ==>
                  && f.runLine % (UT64_MAX + 1) == (r.runLine + delta) % (UT64_MAX + 1)
                  && f.spans.Keys == r.spans.Keys && f.lines.Keys == r.lines.Keys
                  && (forall key :: key in r.spans ==>
                        && f.spans[key].begin == r.spans[key].begin + (if r.spans[key].begin < start then 0 else delta)
                        && f.spans[key].end == r.spans[key].end + (if r.spans[key].end < start then 0 else delta))
                  && (forall key :: key in r.lines ==>
                        f.lines[key] == r.lines[key] + if r.lines[key] < start then 0 else delta))
  {
  }

  method FixupTests(results: array<Entry>, path: string, start: nat, delta: int)
    requires start + delta >= 0
    modifies results
    ensures AllFixed(old(results[..]), results[..], path, start, delta)
  {
    for n := 0 to results.Length
      invariant forall i :: 0 <= i < n ==> results[i] == Fixed(old(results[i]), path, start, delta)
      invariant forall i :: n <= i < results.Length ==> results[i] == old(results[i])
    {
      var r := results[n];
      if r.isCmd && r.path == path {
        results[n] := r.(spans := FixedSpans(r.spans, start, delta), lines := FixedLines(r.lines, start, delta),
                         runLine := Wrap(r.runLine + delta));
      }
    }
  }

  // ----- replace_cmd_kv

  /** The delta handed to the fixup. */
  function Delta(lb: nat, le: nat, kvLines: nat): int {
    kvLines - (le - lb) + if lb == le then 1 else 0
  }

  method ReplaceCmdKv(path: string, content: string, lb: nat, le: nat, key: string, value: string, results: array<Entry>)
    returns (newc: Option<string>)
    requires 1 <= lb <= le
    modifies results
    ensures newc.Some? <==> lb <= |Lines(content)|
    ensures newc.None? ==> results[..] == old(results[..])
    ensures newc.Some? ==>
              var kv := Lines(FormatKv(key, value));
              && Lines(newc.value) == Lines(content)[..lb - 1]
                                      + (kv + if le <= |Lines(content)| then Lines(content)[le - 1..] else [""])
              && AllFixed(old(results[..]), results[..], path, le, Delta(lb, le, |kv|))
  {
    var kv := FormatKv(key, value);
    var kvLines := Newlines(kv) + 1;
    NewlinesCountLines(kv);
    newc := ReplaceLines(content, lb, le, kv);
    if newc.None? {
      return;
    }
    var delta := kvLines - (le - lb);
    if le == lb {
      delta := delta + 1;
    }
    assert delta == Delta(lb, le, |Lines(kv)|);
    FixupTests(results, path, le, delta);
  }

  /** The delta is the growth of the text exactly when lines are replaced; for an insertion it is one too many. */
  lemma DeltaIsGrowth(raw: seq<string>, kv: seq<string>, lb: nat, le: nat)
    requires 1 <= lb <= le <= |raw|
    ensures |raw[..lb - 1] + (kv + raw[le - 1..])| == |raw| + Delta(lb, le, |kv|) <==> lb < le
  {
  }

  // ----- memory against the text

  function SpansOf(t: CmdTest): map<string, Span> {
    map key | key in t.strs :: Span(t.strs[key].begin, t.strs[key].end)
  }

  ghost predicate Matches(r: Entry, path: string, ts: seq<CmdTest>) {
    r.isCmd && r.path == path ==>
      r.index < |ts| && r.spans == SpansOf(ts[r.index]) && forall key :: key in r.lines ==> r.lines[key] == 0
  }

  /** The lines remembered for the tests of this file are those a fresh load of the text assigns. */
  ghost predicate Synced(results: seq<Entry>, path: string, ts: seq<CmdTest>) {
    forall i :: 0 <= i < |results| ==> Matches(results[i], path, ts)
  }

  lemma FixedSpansMoved(t: CmdTest, e: Edit)
    requires e.lb < e.le
    ensures FixedSpans(SpansOf(t), e.le, e.ne - e.le) == SpansOf(MovedTest(t, e))
  {
    var a, b := FixedSpans(SpansOf(t), e.le, e.ne - e.le), SpansOf(MovedTest(t, e));
    assert a.Keys == t.strs.Keys == b.Keys;
    forall key | key in a ensures a[key] == b[key] {
      assert MovedTest(t, e).strs[key] == Moved(t.strs[key], e);
    }
  }

  /** The fixup does to what is remembered what reloading would. */
  lemma FixedMatches(r: Entry, path: string, ts: seq<CmdTest>, e: Edit)
    requires Matches(r, path, ts) && e.lb < e.le
    ensures Matches(Fixed(r, path, e.le, e.ne - e.le), path, MovedAll(ts, e))
  {
    if r.isCmd && r.path == path {
      FixedSpansMoved(ts[r.index], e);
    }
  }

  /** In test number `j` the key `key` now has the value `v`; every other key, flag and number is as it was. */
  ghost predicate ValueSet(ts: seq<CmdTest>, ts': seq<CmdTest>, j: nat, key: string, v: string) {
    |ts'| == |ts| && forall i :: 0 <= i < |ts| ==> SetIn(ts[i], ts'[i], i == j, key, v)
  }

  ghost predicate SetIn(t: CmdTest, t': CmdTest, here: bool, key: string, v: string) {
    && t'.strs.Keys == t.strs.Keys && t'.bools == t.bools && t'.nums == t.nums
    && forall x :: x in t.strs && x in t'.strs ==> t'.strs[x].value == if here && x == key then v else t.strs[x].value
  }

  /** Reloading the edited text finds the new value in the edited key and everything else as it was. */
  lemma MovedValues(items: seq<Item>, k: Schema, ts: seq<CmdTest>, j: nat, e: Edit)
    requires Advancing(items) && LoadFrom(items, 0, k, [], EMPTY) == Some(ts) && j < |ts|
    requires e.key in ts[j].strs && ts[j].strs[e.key].begin == e.lb
    ensures ValueSet(ts, MovedAll(ts, e), j, e.key, e.value)
  {
    forall i | 0 <= i < |ts| ensures SetIn(ts[i], MovedAll(ts, e)[i], i == j, e.key, e.value) {
      forall key | key in ts[i].strs ensures ts[i].strs[key].begin == e.lb <==> i == j && key == e.key {
        if ts[i].strs[key].begin == e.lb {
          SoleField(items, k, ts, i, key, j, e.key);
        }
      }
      ValuesMoved(ts[i], e, i == j);
    }
  }

  lemma ValuesMoved(t: CmdTest, e: Edit, here: bool)
    requires forall key :: key in t.strs ==> (t.strs[key].begin == e.lb <==> here && key == e.key)
    ensures SetIn(t, MovedTest(t, e), here, e.key, e.value)
  {
  }

  /** The RUN line of a test before the edited one is wrong after the fixup, unless the text did not grow. */
  lemma RunLineIff(ts: seq<CmdTest>, i: nat, j: nat, e: Edit, n: nat)
    requires Sorted(ts) && AllWithin(ts, n) && i < |ts| && j < |ts| && e.lb < e.le
    requires e.key in ts[j].strs && ts[j].strs[e.key].begin == e.lb && ts[j].strs[e.key].end == e.le
    requires n <= UT64_MAX && n + e.ne - e.le <= UT64_MAX && e.ne <= UT64_MAX
    ensures Wrap(ts[i].runLine + e.ne - e.le) == MovedTest(ts[i], e).runLine <==> i >= j || e.ne == e.le
  {
    assert Within(ts[j], ts[j].runLine - 1);
    if i < j {
      assert Follows(ts[..j], ts[j]) && ts[..j][i] == ts[i];
    }
  }

  // ----- editing one key after the other

  ghost predicate GoodSchema(k: Schema) {
    forall key :: key in k.strs ==> KeyOk(key)
  }

  /** A loaded field stands on lines of the text that do not reach its end, and its key is one the loader knows. */
  lemma LoadedField(text: string, k: Schema, ts: seq<CmdTest>, j: nat, key: string)
    requires Load(text, k) == Some(ts) && j < |ts| && key in ts[j].strs
    ensures key in k.strs && 1 <= ts[j].strs[key].begin < ts[j].strs[key].end <= |Lines(text)|
  {
    var raw := Lines(text);
    FieldRange(Items(raw, k), k, ts, j, key);
    FieldKey(raw, k, Items(raw, k), ts, j, key);
  }

  lemma FieldRange(items: seq<Item>, k: Schema, ts: seq<CmdTest>, j: nat, key: string)
    requires Advancing(items) && LoadFrom(items, 0, k, [], EMPTY) == Some(ts) && j < |ts| && key in ts[j].strs
    ensures 1 <= ts[j].strs[key].begin < ts[j].strs[key].end <= |items|
  {
    LoadedWithin(items, 0, k, [], EMPTY);
    assert Within(ts[j], ts[j].runLine - 1);
  }

  lemma FieldKey(raw: seq<string>, k: Schema, items: seq<Item>, ts: seq<CmdTest>, j: nat, key: string)
    requires Advancing(items) && ReadAs(raw, k, items) && LoadFrom(items, 0, k, [], EMPTY) == Some(ts)
    requires j < |ts| && key in ts[j].strs && 1 <= ts[j].strs[key].begin
    ensures key in k.strs
  {
    FieldVisited(items, 0, k, [], EMPTY, ts, j, key);
    ItemKey(raw, k, items, ts[j].strs[key].begin - 1);
  }

  lemma ItemKey(raw: seq<string>, k: Schema, items: seq<Item>, n: nat)
    requires ReadAs(raw, k, items) && n < |items| && items[n].Str?
    ensures items[n].key in k.strs
  {
    assert items[n] == ItemOf(raw, n, k);
  }

  lemma ReloadMatches(content: string, newc: string, k: Schema, ts: seq<CmdTest>, j: nat, e: Edit)
    requires GoodSchema(k) && Load(content, k) == Some(ts) && j < |ts|
    requires e.key in ts[j].strs && ts[j].strs[e.key].begin == e.lb && ts[j].strs[e.key].end == e.le
    requires EditedText(Lines(content), Lines(newc), e)
    ensures Load(newc, k) == Some(MovedAll(ts, e)) <==> WellFormed(e.value) && RunOk(MovedTest(ts[j], e), k)
    ensures e.key != "TOOL" ==> RunOk(MovedTest(ts[j], e), k)
    ensures ValueSet(ts, MovedAll(ts, e), j, e.key, e.value)
  {
    LoadedField(content, k, ts, j, e.key);
    ReloadIff(Lines(content), Lines(newc), k, ts, j, e);
    MovedValues(Items(Lines(content), k), k, ts, j, e);
  }

  // ----- ranges that do not overlap

  ghost predicate Apart(f: Field, g: Field) {
    (f.begin == g.begin && f.end == g.end) || f.end <= g.begin || g.end <= f.begin
  }

  /** The fields stand on the first `n` lines, and no two of them overlap. */
  ghost predicate Placed(ts: seq<CmdTest>, n: nat) {
    && (forall j, key :: 0 <= j < |ts| && key in ts[j].strs ==> 1 <= ts[j].strs[key].begin < ts[j].strs[key].end <= n)
    && (forall j, key, i, other :: 0 <= j < |ts| && key in ts[j].strs && 0 <= i < |ts| && other in ts[i].strs ==>
          Apart(ts[j].strs[key], ts[i].strs[other]))
  }

  /** Two items the loader gets to do not overlap. */
  lemma {:induction false} VisitsApart(items: seq<Item>, n: nat, a: nat, b: nat)
    requires Advancing(items) && Visits(items, n, a) && Visits(items, n, b) && a < b && a < |items|
    ensures After(items[a], a) <= b
    decreases |items| - n
  {
    if n < a {
      VisitsApart(items, After(items[n], n), a, b);
    }
  }

  lemma FieldsApart(items: seq<Item>, k: Schema, ts: seq<CmdTest>, j: nat, key: string, i: nat, other: string)
    requires Advancing(items) && LoadFrom(items, 0, k, [], EMPTY) == Some(ts)
    requires j < |ts| && key in ts[j].strs && i < |ts| && other in ts[i].strs
    ensures Apart(ts[j].strs[key], ts[i].strs[other])
  {
    FieldRange(items, k, ts, j, key);
    FieldRange(items, k, ts, i, other);
    FieldVisited(items, 0, k, [], EMPTY, ts, j, key);
    FieldVisited(items, 0, k, [], EMPTY, ts, i, other);
    var a, b := ts[j].strs[key].begin - 1, ts[i].strs[other].begin - 1;
    if a < b {
      VisitsApart(items, 0, a, b);
    } else if b < a {
      VisitsApart(items, 0, b, a);
    }
  }

  lemma LoadedPlaced(items: seq<Item>, k: Schema, ts: seq<CmdTest>)
    requires Advancing(items) && LoadFrom(items, 0, k, [], EMPTY) == Some(ts)
    ensures Placed(ts, |items|)
  {
    forall j, key | 0 <= j < |ts| && key in ts[j].strs
      ensures 1 <= ts[j].strs[key].begin < ts[j].strs[key].end <= |items|
    {
      FieldRange(items, k, ts, j, key);
    }
    forall j, key, i, other | 0 <= j < |ts| && key in ts[j].strs && 0 <= i < |ts| && other in ts[i].strs
      ensures Apart(ts[j].strs[key], ts[i].strs[other])
    {
      FieldsApart(items, k, ts, j, key, i, other);
    }
  }

  lemma MovedApart(f: Field, g: Field, h: Field, e: Edit, n: nat)
    requires 1 <= f.begin < f.end <= n && 1 <= g.begin < g.end <= n && Apart(f, g) && Apart(f, h) && Apart(g, h)
    requires h.begin == e.lb && h.end == e.le && e.lb < e.le <= n && e.lb < e.ne
    ensures Apart(Moved(f, e), Moved(g, e)) && 1 <= Moved(f, e).begin < Moved(f, e).end <= n - e.le + e.ne
  {
  }

  /** An edit keeps them apart. */
  lemma MovedPlaced(ts: seq<CmdTest>, n: nat, j: nat, e: Edit)
    requires Placed(ts, n) && j < |ts| && e.key in ts[j].strs && e.le <= n && e.lb < e.le && e.lb < e.ne
    requires ts[j].strs[e.key].begin == e.lb && ts[j].strs[e.key].end == e.le
    ensures Placed(MovedAll(ts, e), n - e.le + e.ne)
  {
    var h := ts[j].strs[e.key];
    forall i, key, i', key' | 0 <= i < |ts| && key in ts[i].strs && 0 <= i' < |ts| && key' in ts[i'].strs
      ensures Apart(MovedTest(ts[i], e).strs[key], MovedTest(ts[i'], e).strs[key'])
      ensures var f := MovedTest(ts[i], e).strs[key]; 1 <= f.begin < f.end <= n - e.le + e.ne
    {
      MovedApart(ts[i].strs[key], ts[i'].strs[key'], h, e, n);
    }
  }

  // ----- replacing a key of one of the results

  /** The results in memory are in step with the tests, which lie on the lines of the text. If nothing ill-formed was
      written so far, they are what a fresh load of the text gives. */
  ghost predicate InStep(results: seq<Entry>, path: string, content: string, k: Schema, ts: seq<CmdTest>, sane: bool) {
    Synced(results, path, ts) && Placed(ts, |Lines(content)|) && (sane ==> Load(content, k) == Some(ts))
  }

  lemma StepBegins(results: seq<Entry>, path: string, content: string, k: Schema, ts: seq<CmdTest>)
    requires Load(content, k) == Some(ts) && Synced(results, path, ts)
    ensures InStep(results, path, content, k, ts, true)
  {
    LoadedPlaced(Items(Lines(content), k), k, ts);
  }

  /** Replaces a key of one of the results. The memory is in step with the text again. If it was in step with a load
      before, then it is again exactly if the value is well formed and a replaced TOOL is valid, and the key then has the
      new value and all other keys of all tests in the file have theirs. */
  method ReplaceKey(path: string, content: string, r: Entry, key: string, value: string, results: array<Entry>,
                    ghost k: Schema, ghost ts: seq<CmdTest>, ghost sane: bool)
    returns (newc: string, ghost ts': seq<CmdTest>)
    requires GoodSchema(k) && InStep(results[..], path, content, k, ts, sane)
    requires r in results[..] && r.isCmd && r.path == path && key in r.spans
    modifies results
    ensures InStep(results[..], path, newc, k, ts', false) && r.index < |ts| == |ts'|
    ensures sane ==> (Load(newc, k) == Some(ts') <==> WellFormed(value) && RunOk(ts'[r.index], k))
    ensures sane && key != "TOOL" ==> RunOk(ts'[r.index], k)
    ensures sane ==> ValueSet(ts, ts', r.index, key, value)
    ensures forall i :: 0 <= i < results.Length ==> SameTest(results[i], old(results[i]))
  {
    ghost var e := KeyEdit(r.spans[key], key, value);
    ghost var was := results[..];
    SpanInText(content, ts, was, path, r, key);
    ts' := MovedAll(ts, e);
    newc := ReplaceSpan(path, content, r.spans[key], key, value, results, e);
    KeyReplaced(content, newc, k, ts, was, results[..], path, r, e, sane);
  }

  method ReplaceSpan(path: string, content: string, span: Span, key: string, value: string, results: array<Entry>,
                     ghost e: Edit)
    returns (newc: string)
    requires 1 <= span.begin < span.end <= |Lines(content)| && e == KeyEdit(span, key, value)
    modifies results
    ensures EditedText(Lines(content), Lines(newc), e)
    ensures AllFixed(old(results[..]), results[..], path, e.le, e.ne - e.le)
  {
    ghost var was := results[..];
    var res := ReplaceCmdKv(path, content, span.begin, span.end, key, value, results);
    newc := res.value;
    SpanReplaced(Lines(content), Lines(newc), was, results[..], path, span, e);
  }

  /** What `ReplaceCmdKv` promises, in terms of the edit. */
  lemma SpanReplaced(raw: seq<string>, raw': seq<string>, was: seq<Entry>, now: seq<Entry>, path: string, span: Span, e: Edit)
    requires 1 <= span.begin < span.end <= |raw| && e == KeyEdit(span, e.key, e.value)
    requires var kv := Lines(FormatKv(e.key, e.value));
             && raw' == raw[..span.begin - 1] + (kv + raw[span.end - 1..])
             && AllFixed(was, now, path, span.end, Delta(span.begin, span.end, |kv|))
    ensures EditedText(raw, raw', e) && AllFixed(was, now, path, e.le, e.ne - e.le)
  {
    SpanEdited(raw, raw', Lines(FormatKv(e.key, e.value)), span, e);
  }

  lemma SpanEdited(raw: seq<string>, raw': seq<string>, kv: seq<string>, span: Span, e: Edit)
    requires 1 <= span.begin < span.end <= |raw| && kv == Lines(FormatKv(e.key, e.value))
    requires e.lb == span.begin && e.le == span.end && e.ne == span.begin + |kv|
    requires raw' == raw[..span.begin - 1] + (kv + raw[span.end - 1..])
    ensures EditedText(raw, raw', e)
  {
  }

  ghost function KeyEdit(span: Span, key: string, value: string): Edit {
    Edit(key, value, span.begin, span.end, span.begin + |Lines(FormatKv(key, value))|)
  }

  lemma SpanInText(content: string, ts: seq<CmdTest>, was: seq<Entry>, path: string, r: Entry, key: string)
    requires Synced(was, path, ts) && Placed(ts, |Lines(content)|)
    requires r in was && r.isCmd && r.path == path && key in r.spans
    ensures 1 <= r.spans[key].begin < r.spans[key].end <= |Lines(content)|
    ensures r.index < |ts| && key in ts[r.index].strs
    ensures ts[r.index].strs[key].begin == r.spans[key].begin && ts[r.index].strs[key].end == r.spans[key].end
  {
    assert Matches(r, path, ts);
  }

  lemma KeyReplaced(content: string, newc: string, k: Schema, ts: seq<CmdTest>, was: seq<Entry>, now: seq<Entry>,
                    path: string, r: Entry, e: Edit, sane: bool)
    requires GoodSchema(k) && InStep(was, path, content, k, ts, sane)
    requires r in was && r.isCmd && r.path == path && e.key in r.spans && e == KeyEdit(r.spans[e.key], e.key, e.value)
    requires EditedText(Lines(content), Lines(newc), e) && AllFixed(was, now, path, e.le, e.ne - e.le)
    ensures InStep(now, path, newc, k, MovedAll(ts, e), false) && r.index < |ts|
    ensures sane ==> (Load(newc, k) == Some(MovedAll(ts, e)) <==> WellFormed(e.value) && RunOk(MovedTest(ts[r.index], e), k))
    ensures sane && e.key != "TOOL" ==> RunOk(MovedTest(ts[r.index], e), k)
    ensures sane ==> ValueSet(ts, MovedAll(ts, e), r.index, e.key, e.value)
    ensures forall i :: 0 <= i < |was| ==> SameTest(now[i], was[i])
  {
    SpanInText(content, ts, was, path, r, e.key);
    KeyPlaced(content, newc, ts, r.index, e);
    FixedSynced(was, now, path, ts, e);
    FixedSame(was, now, path, e);
    if sane {
      ReloadMatches(content, newc, k, ts, r.index, e);
    }
  }

  lemma KeyPlaced(content: string, newc: string, ts: seq<CmdTest>, j: nat, e: Edit)
    requires Placed(ts, |Lines(content)|) && j < |ts| && e.key in ts[j].strs
    requires ts[j].strs[e.key].begin == e.lb && ts[j].strs[e.key].end == e.le
    requires EditedText(Lines(content), Lines(newc), e)
    ensures Placed(MovedAll(ts, e), |Lines(newc)|)
  {
    SplitText(Lines(content), Lines(newc), Lines(FormatKv(e.key, e.value)), e);
    MovedPlaced(ts, |Lines(content)|, j, e);
  }

  ghost predicate SameTest(r: Entry, s: Entry) {
    r.path == s.path && r.isCmd == s.isCmd && r.index == s.index && r.spans.Keys == s.spans.Keys
  }

  lemma FixedSame(was: seq<Entry>, now: seq<Entry>, path: string, e: Edit)
    requires AllFixed(was, now, path, e.le, e.ne - e.le)
    ensures forall i :: 0 <= i < |was| ==> SameTest(now[i], was[i])
  {
    forall i | 0 <= i < |was| ensures SameTest(now[i], was[i]) {
      assert Fixed(was[i], path, e.le, e.ne - e.le).spans.Keys == was[i].spans.Keys;
    }
  }

  lemma FixedSynced(was: seq<Entry>, now: seq<Entry>, path: string, ts: seq<CmdTest>, e: Edit)
    requires Synced(was, path, ts) && e.lb < e.le && AllFixed(was, now, path, e.le, e.ne - e.le)
    ensures Synced(now, path, MovedAll(ts, e))
  {
    forall i | 0 <= i < |was| ensures Matches(now[i], path, MovedAll(ts, e)) {
      FixedMatches(was[i], path, ts, e);
    }
  }

  // ----- interact_fix_cmd

  /** What a test printed to one stream, already filtered; None if nothing was captured. */
  type Stream = Option<string>

  /** It can be read back. */
  predicate Sane(o: Stream) {
    o.Some? ==> WellFormed(o.value)
  }

  /** Test `t'` is `t` with the two outputs as its EXPECT and EXPECT_ERR, as far as they were captured and it has these
      keys. */
  ghost predicate TookOutput(t: CmdTest, t': CmdTest, out: Stream, err: Stream) {
    && t'.strs.Keys == t.strs.Keys && t'.bools == t.bools && t'.nums == t.nums
    && forall key :: key in t.strs && key in t'.strs ==>
         t'.strs[key].value == if key == "EXPECT" && out.Some? then out.value
                               else if key == "EXPECT_ERR" && err.Some? then err.value
                               else t.strs[key].value
  }

  /** Only test number `j` took output. */
  ghost predicate OneTook(ts: seq<CmdTest>, ts': seq<CmdTest>, j: nat, out: Stream, err: Stream) {
    |ts'| == |ts| && forall i :: 0 <= i < |ts| ==> if i == j then TookOutput(ts[i], ts'[i], out, err)
                                                   else TookOutput(ts[i], ts'[i], None, None)
  }

  /** Replaces a key the test has by the captured output. */
  method FixKey(path: string, content: string, i: nat, key: string, o: Stream, results: array<Entry>,
                ghost k: Schema, ghost ts: seq<CmdTest>, ghost sane: bool)
    returns (newc: string, ghost ts': seq<CmdTest>)
    requires GoodSchema(k) && InStep(results[..], path, content, k, ts, sane) && key != "TOOL"
    requires i < results.Length && results[i].isCmd && results[i].path == path
    modifies results
    ensures InStep(results[..], path, newc, k, ts', sane && Sane(o)) && old(results[i].index) < |ts| == |ts'|
    ensures var j := old(results[i].index);
            sane ==> if o.Some? && key in ts[j].strs then ValueSet(ts, ts', j, key, o.value) else ts' == ts
    ensures forall n :: 0 <= n < results.Length ==> SameTest(results[n], old(results[n]))
  {
    assert results[..][i] == results[i] && Matches(results[i], path, ts);
    assert results[i].spans.Keys == ts[results[i].index].strs.Keys;
    if o.Some? && key in results[i].spans {
      newc, ts' := ReplaceKey(path, content, results[i], key, o.value, results, k, ts, sane);
    } else {
      newc, ts' := content, ts;
    }
  }

  /** Both edits compose: the second finds its lines although the first moved them. */
  method FixCmd(path: string, content: string, i: nat, out: Stream, err: Stream, results: array<Entry>,
                ghost k: Schema, ghost ts: seq<CmdTest>, ghost sane: bool)
    returns (newc: string, ghost ts': seq<CmdTest>)
    requires GoodSchema(k) && InStep(results[..], path, content, k, ts, sane)
    requires i < results.Length && results[i].isCmd && results[i].path == path
    modifies results
    ensures InStep(results[..], path, newc, k, ts', sane && Sane(out) && Sane(err)) && old(results[i].index) < |ts| == |ts'|
    ensures sane && (out.Some? ==> WellFormed(out.value)) ==> OneTook(ts, ts', old(results[i].index), out, err)
    ensures sane && (out.Some? ==> WellFormed(out.value)) && (err.Some? ==> WellFormed(err.value)) ==> Load(newc, k) == Some(ts')
    ensures forall n :: 0 <= n < results.Length ==> SameTest(results[n], old(results[n]))
  {
    ghost var j := results[i].index;
    newc, ts' := FixKey(path, content, i, "EXPECT", out, results, k, ts, sane);
    ghost var mid := ts';
    newc, ts' := FixKey(path, newc, i, "EXPECT_ERR", err, results, k, ts', sane && Sane(out));
    if sane && Sane(out) {
      TookBoth(ts, mid, ts', j, out, err);
    }
  }

  lemma TookBoth(ts: seq<CmdTest>, mid: seq<CmdTest>, ts': seq<CmdTest>, j: nat, out: Stream, err: Stream)
    requires j < |ts| == |mid|
    requires if out.Some? && "EXPECT" in ts[j].strs then ValueSet(ts, mid, j, "EXPECT", out.value) else mid == ts
    requires if err.Some? && "EXPECT_ERR" in mid[j].strs then ValueSet(mid, ts', j, "EXPECT_ERR", err.value) else ts' == mid
    ensures OneTook(ts, ts', j, out, err)
  {
    forall i | 0 <= i < |ts|
      ensures if i == j then TookOutput(ts[i], ts'[i], out, err) else TookOutput(ts[i], ts'[i], None, None)
    {
      SetsCompose(ts[i], mid[i], ts'[i], i == j, out, err);
    }
  }

  lemma SetsCompose(t: CmdTest, u: CmdTest, t': CmdTest, here: bool, out: Stream, err: Stream)
    requires u == t || (out.Some? && SetIn(t, u, here, "EXPECT", out.value))
    requires t' == u || (err.Some? && SetIn(u, t', here, "EXPECT_ERR", err.value))
    requires here && u == t && out.Some? && "EXPECT" in t.strs ==> t.strs["EXPECT"].value == out.value
    requires here && t' == u && err.Some? && "EXPECT_ERR" in u.strs ==> u.strs["EXPECT_ERR"].value == err.value
    ensures if here then TookOutput(t, t', out, err) else TookOutput(t, t', None, None)
  {
  }

  // ----- accept_all

  /** What a failed test left: nothing to accept when it did not run or exited with the wrong status. */
  datatype Output = TooHard | Output(out: Stream, err: Stream)

  ghost predicate Fixable(r: Entry, path: string, o: Output) {
    r.isCmd && r.path == path && o.Output?
  }

  /** Whatever is accepted for this file can be read back. */
  ghost predicate AllSane(rs: seq<Entry>, path: string, outs: seq<Output>, n: nat)
    requires n <= |rs| == |outs|
  {
    forall i :: 0 <= i < n && rs[i].isCmd && rs[i].path == path && outs[i].Output? ==>
      (outs[i].out.Some? ==> WellFormed(outs[i].out.value)) && (outs[i].err.Some? ==> WellFormed(outs[i].err.value))
  }

  /** Result `r` of this file replaces the value of `key` in test `j` by `v`. */
  ghost predicate Writes(r: Entry, path: string, o: Output, j: nat, key: string, v: string) {
    && r.isCmd && r.path == path && r.index == j && o.Output?
    && ((key == "EXPECT" && o.out == Some(v)) || (key == "EXPECT_ERR" && o.err == Some(v)))
  }

  /** Among the first `n` results, number `i` is the last that writes the key. */
  ghost predicate LastWrites(rs: seq<Entry>, path: string, outs: seq<Output>, n: nat, i: nat, j: nat, key: string, v: string)
    requires n <= |rs| == |outs|
  {
    && i < n && Writes(rs[i], path, outs[i], j, key, v)
    && forall m, w {:trigger Writes(rs[m], path, outs[m], j, key, w)} :: i < m < n ==> !Writes(rs[m], path, outs[m], j, key, w)
  }

  ghost predicate Unwritten(rs: seq<Entry>, path: string, outs: seq<Output>, n: nat, j: nat, key: string)
    requires n <= |rs| == |outs|
  {
    forall i, v {:trigger Writes(rs[i], path, outs[i], j, key, v)} :: 0 <= i < n ==> !Writes(rs[i], path, outs[i], j, key, v)
  }

  /** A value is what the last of the results wrote to its key, or the old one if none of them did. */
  ghost predicate ValueAccepted(v: string, v': string, rs: seq<Entry>, path: string, outs: seq<Output>, n: nat, j: nat, key: string)
    requires n <= |rs| == |outs|
  {
    && (forall i, w :: LastWrites(rs, path, outs, n, i, j, key, w) ==> v' == w)
    && (Unwritten(rs, path, outs, n, j, key) ==> v' == v)
  }

  /** So has every key of the test. */
  ghost predicate Accepted(t: CmdTest, t': CmdTest, rs: seq<Entry>, path: string, outs: seq<Output>, n: nat, j: nat)
    requires n <= |rs| == |outs|
  {
    && t'.strs.Keys == t.strs.Keys && t'.bools == t.bools && t'.nums == t.nums
    && forall key :: key in t.strs && key in t'.strs ==>
         ValueAccepted(t.strs[key].value, t'.strs[key].value, rs, path, outs, n, j, key)
  }

  ghost predicate AllAccepted(ts: seq<CmdTest>, ts': seq<CmdTest>, rs: seq<Entry>, path: string, outs: seq<Output>, n: nat)
    requires n <= |rs| == |outs|
  {
    |ts'| == |ts| && forall j :: 0 <= j < |ts| ==> Accepted(ts[j], ts'[j], rs, path, outs, n, j)
  }

  lemma AcceptedNone(ts: seq<CmdTest>, rs: seq<Entry>, path: string, outs: seq<Output>)
    requires |rs| == |outs|
    ensures AllAccepted(ts, ts, rs, path, outs, 0)
  {
  }

  /** One more result: what it writes is the last that was written. */
  lemma ValueNext(v: string, u: string, v': string, rs: seq<Entry>, path: string, outs: seq<Output>, n: nat, j: nat, key: string)
    requires n < |rs| == |outs| && ValueAccepted(v, u, rs, path, outs, n, j, key)
    requires forall w :: Writes(rs[n], path, outs[n], j, key, w) ==> v' == w
    requires (forall w :: !Writes(rs[n], path, outs[n], j, key, w)) ==> v' == u
    ensures ValueAccepted(v, v', rs, path, outs, n + 1, j, key)
  {
    var m := n + 1;
    forall i, w | LastWrites(rs, path, outs, m, i, j, key, w) ensures v' == w {
      LastOrBefore(rs, path, outs, n, i, j, key, w);
    }
    if Unwritten(rs, path, outs, n + 1, j, key) {
      UnwrittenBefore(rs, path, outs, n, j, key);
    }
  }

  lemma AcceptedNext(t: CmdTest, u: CmdTest, t': CmdTest, rs: seq<Entry>, path: string, outs: seq<Output>, n: nat, j: nat)
    requires n < |rs| == |outs| && Accepted(t, u, rs, path, outs, n, j)
    requires if Fixable(rs[n], path, outs[n]) && rs[n].index == j then TookOutput(u, t', outs[n].out, outs[n].err)
             else TookOutput(u, t', None, None)
    ensures Accepted(t, t', rs, path, outs, n + 1, j)
  {
    forall key | key in t.strs ensures ValueAccepted(t.strs[key].value, t'.strs[key].value, rs, path, outs, n + 1, j, key) {
      WritesOf(u, t', rs[n], path, outs[n], j, key);
      ValueNext(t.strs[key].value, u.strs[key].value, t'.strs[key].value, rs, path, outs, n, j, key);
    }
  }

  lemma WritesOf(u: CmdTest, t': CmdTest, r: Entry, path: string, o: Output, j: nat, key: string)
    requires if Fixable(r, path, o) && r.index == j then TookOutput(u, t', o.out, o.err) else TookOutput(u, t', None, None)
    requires key in u.strs
    ensures key in t'.strs && forall w :: Writes(r, path, o, j, key, w) ==> t'.strs[key].value == w
    ensures (forall w :: !Writes(r, path, o, j, key, w)) ==> t'.strs[key].value == u.strs[key].value
  {
    assert o.Output? && o.out.Some? && key == "EXPECT" && r.isCmd && r.path == path && r.index == j ==>
        Writes(r, path, o, j, key, o.out.value);
    assert o.Output? && o.err.Some? && key == "EXPECT_ERR" && r.isCmd && r.path == path && r.index == j ==>
        Writes(r, path, o, j, key, o.err.value);
  }

  lemma LastOrBefore(rs: seq<Entry>, path: string, outs: seq<Output>, n: nat, i: nat, j: nat, key: string, v: string)
    requires n < |rs| == |outs| && LastWrites(rs, path, outs, n + 1, i, j, key, v)
    ensures i == n || (LastWrites(rs, path, outs, n, i, j, key, v) && forall w :: !Writes(rs[n], path, outs[n], j, key, w))
  {
  }

  lemma UnwrittenBefore(rs: seq<Entry>, path: string, outs: seq<Output>, n: nat, j: nat, key: string)
    requires n < |rs| == |outs| && Unwritten(rs, path, outs, n + 1, j, key)
    ensures Unwritten(rs, path, outs, n, j, key) && forall w :: !Writes(rs[n], path, outs[n], j, key, w)
  {
  }

  lemma AllAcceptedNext(ts: seq<CmdTest>, us: seq<CmdTest>, ts': seq<CmdTest>, rs: seq<Entry>, path: string,
                        outs: seq<Output>, n: nat)
    requires n < |rs| == |outs| && AllAccepted(ts, us, rs, path, outs, n)
    requires if Fixable(rs[n], path, outs[n]) then OneTook(us, ts', rs[n].index, outs[n].out, outs[n].err) else ts' == us
    ensures AllAccepted(ts, ts', rs, path, outs, n + 1)
  {
    forall j | 0 <= j < |ts| ensures Accepted(ts[j], ts'[j], rs, path, outs, n + 1, j) {
      AcceptedNext(ts[j], us[j], ts'[j], rs, path, outs, n, j);
    }
  }

  /** `interact_fix` on one of the failed results. */
  method AcceptOne(path: string, content: string, i: nat, results: array<Entry>, o: Output,
                   ghost k: Schema, ghost ts: seq<CmdTest>, ghost sane: bool)
    returns (newc: string, ghost ts': seq<CmdTest>)
    requires GoodSchema(k) && InStep(results[..], path, content, k, ts, sane) && i < results.Length
    modifies results
    ensures var fine := Fixable(old(results[i]), path, o) ==> Sane(o.out) && Sane(o.err);
            InStep(results[..], path, newc, k, ts', sane && fine)
            && (sane && fine ==> if Fixable(old(results[i]), path, o) then OneTook(ts, ts', old(results[i]).index, o.out, o.err)
                                 else ts' == ts)
    ensures forall n :: 0 <= n < results.Length ==> SameTest(results[n], old(results[n]))
  {
    newc, ts' := content, ts;
    if results[i].isCmd && results[i].path == path && o.Output? {
      newc, ts' := FixCmd(path, newc, i, o.out, o.err, results, k, ts', sane);
    }
  }

  /** The outputs of the first `n` results were accepted. */
  ghost predicate Accepting(was: seq<Entry>, now: seq<Entry>, path: string, content: string, k: Schema,
                            ts0: seq<CmdTest>, ts: seq<CmdTest>, outs: seq<Output>, n: nat)
    requires n <= |was| == |outs|
  {
    && InStep(now, path, content, k, ts, AllSane(was, path, outs, n)) && AllSame(now, was)
    && (AllSane(was, path, outs, n) ==> AllAccepted(ts0, ts, was, path, outs, n))
  }

  ghost predicate AllSame(now: seq<Entry>, was: seq<Entry>) {
    |now| == |was| && forall n :: 0 <= n < |was| ==> SameTest(now[n], was[n])
  }

  lemma AllSaneNext(rs: seq<Entry>, path: string, outs: seq<Output>, n: nat)
    requires n < |rs| == |outs|
    ensures AllSane(rs, path, outs, n + 1) <==>
            AllSane(rs, path, outs, n) && (Fixable(rs[n], path, outs[n]) ==> Sane(outs[n].out) && Sane(outs[n].err))
  {
  }

  lemma AcceptingNext(was: seq<Entry>, mid: seq<Entry>, now: seq<Entry>, path: string, content: string, content': string,
                      k: Schema, ts0: seq<CmdTest>, ts: seq<CmdTest>, ts': seq<CmdTest>, outs: seq<Output>, n: nat)
    requires n < |was| == |outs| && Accepting(was, mid, path, content, k, ts0, ts, outs, n) && AllSame(now, mid)
    requires var fine := Fixable(mid[n], path, outs[n]) ==> Sane(outs[n].out) && Sane(outs[n].err);
             InStep(now, path, content', k, ts', AllSane(was, path, outs, n) && fine)
             && (AllSane(was, path, outs, n) && fine ==>
                   if Fixable(mid[n], path, outs[n]) then OneTook(ts, ts', mid[n].index, outs[n].out, outs[n].err) else ts' == ts)
    ensures Accepting(was, now, path, content', k, ts0, ts', outs, n + 1)
  {
    assert SameTest(mid[n], was[n]);
    AllSaneNext(was, path, outs, n);
    if AllSane(was, path, outs, n + 1) {
      AllAcceptedNext(ts0, ts, ts', was, path, outs, n);
    }
    forall m | 0 <= m < |was| ensures SameTest(now[m], was[m]) {
      assert SameTest(now[m], mid[m]) && SameTest(mid[m], was[m]);
    }
  }

  lemma AcceptingInStep(was: seq<Entry>, now: seq<Entry>, path: string, content: string, k: Schema,
                        ts0: seq<CmdTest>, ts: seq<CmdTest>, outs: seq<Output>, n: nat)
    requires n <= |was| == |outs| && Accepting(was, now, path, content, k, ts0, ts, outs, n)
    ensures InStep(now, path, content, k, ts, AllSane(was, path, outs, n))
  {
  }

  /** One turn of the loop. */
  method AcceptTurn(path: string, content: string, i: nat, results: array<Entry>, o: Output, ghost was: seq<Entry>,
                    ghost outs: seq<Output>, ghost k: Schema, ghost ts0: seq<CmdTest>, ghost ts: seq<CmdTest>)
    returns (newc: string, ghost ts': seq<CmdTest>)
    requires GoodSchema(k) && i < results.Length == |was| == |outs| && o == outs[i]
    requires Accepting(was, results[..], path, content, k, ts0, ts, outs, i)
    modifies results
    ensures Accepting(was, results[..], path, newc, k, ts0, ts', outs, i + 1)
  {
    ghost var mid := results[..];
    AcceptingInStep(was, mid, path, content, k, ts0, ts, outs, i);
    newc, ts' := AcceptOne(path, content, i, results, o, k, ts, AllSane(was, path, outs, i));
    AcceptingNext(was, mid, results[..], path, content, newc, k, ts0, ts, ts', outs, i);
  }

  lemma AllWereAccepted(was: seq<Entry>, now: seq<Entry>, path: string, content: string, k: Schema,
                        ts: seq<CmdTest>, ts': seq<CmdTest>, outs: seq<Output>)
    requires |was| == |outs| && Accepting(was, now, path, content, k, ts, ts', outs, |outs|)
    ensures InStep(now, path, content, k, ts', AllSane(was, path, outs, |outs|))
    ensures AllSane(was, path, outs, |outs|) ==>
            Load(content, k) == Some(ts') && AllAccepted(ts, ts', was, path, outs, |outs|)
  {
  }

  /** Accepts the outputs of all failed tests of a file, one after the other, on line numbers that were only ever fixed
      up and never reloaded. If all of them can be read back, the file loads with exactly the accepted values and the
      memory is what that load gives. */
  method AcceptAll(path: string, content: string, results: array<Entry>, outs: seq<Output>,
                   ghost k: Schema, ghost ts: seq<CmdTest>)
    returns (newc: string, ghost ts': seq<CmdTest>)
    requires GoodSchema(k) && Load(content, k) == Some(ts) && Synced(results[..], path, ts) && |outs| == results.Length
    modifies results
    ensures InStep(results[..], path, newc, k, ts', AllSane(old(results[..]), path, outs, |outs|))
    ensures AllSane(old(results[..]), path, outs, |outs|) ==>
            Load(newc, k) == Some(ts') && AllAccepted(ts, ts', old(results[..]), path, outs, |outs|)
  {
    newc, ts' := content, ts;
    ghost var was := results[..];
    StepBegins(was, path, content, k, ts);
    AcceptedNone(ts, was, path, outs);
    for i := 0 to results.Length
      invariant Accepting(was, results[..], path, newc, k, ts, ts', outs, i)
    {
      newc, ts' := AcceptTurn(path, newc, i, results, outs[i], was, outs, k, ts, ts');
    }
    AllWereAccepted(was, results[..], path, newc, k, ts, ts', outs);
  }
}
