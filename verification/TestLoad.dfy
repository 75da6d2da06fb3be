/** What the lines of a file say, and that a load is what they say. */
module TestLoad {
  import opened Machine
  import opened TextLines
  import opened TestFile
  import opened TestFormat
  import opened TestFixup

  // ----- one line

  /** `v` is the value without its comment and the blanks in front of that, of which one may remain as the only
      character. */
  ghost predicate Strips(val: string, v: string) {
    || ('#' !in val && v == val)
    || exists i :: CommentAt(val, v, i)
  }

  ghost predicate CommentAt(val: string, v: string, i: nat) {
    && i < |val| && val[i] == '#' && '#' !in val[..i] && |v| <= i && v == val[..|v|]
    && (forall m :: |v| <= m < i ==> val[m] == ' ')
    && (|v| > 1 ==> v[|v| - 1] != ' ') && (v == "" ==> i == 0)
  }

  /** The line sets a flag or number key to `v`. */
  ghost predicate Says(line: string, key: string, v: string) {
    Keyed(line, key) && Strips(line[|key| + 1..], v)
  }

  /** Cutting `s` down to `v` takes off blanks only, and all of them, but not the first character. */
  ghost predicate Trimmed(s: string, v: string) {
    && |v| <= |s| && v == s[..|v|] && (forall m :: |v| <= m < |s| ==> s[m] == ' ')
    && (|v| > 1 ==> v[|v| - 1] != ' ') && (v == "" ==> s == "")
  }

  lemma {:induction false} TrimExact(s: string, v: string)
    ensures TrimSpaces(s) == v <==> Trimmed(s, v)
  {
    if |s| > 1 && s[|s| - 1] == ' ' {
      TrimExact(s[..|s| - 1], v);
      TrimOne(s, v);
    }
  }

  lemma TrimOne(s: string, v: string)
    requires |s| > 1 && s[|s| - 1] == ' '
    ensures Trimmed(s, v) <==> Trimmed(s[..|s| - 1], v)
  {
    var n := |s| - 1;
    if |v| <= n {
      assert s[..n][..|v|] == s[..|v|];
      assert forall m :: 0 <= m < n ==> s[..n][m] == s[m];
    }
  }

  lemma StripsExact(val: string, v: string)
    ensures Uncommented(val) == v <==> Strips(val, v)
  {
    var k := IndexOf(val, '#');
    if k < |val| {
      TrimExact(val[..k], v);
      CommentHere(val, v, k);
      forall i | CommentAt(val, v, i) ensures i == k {
        OnlyComment(val, v, k, i);
      }
    }
  }

  lemma CommentHere(val: string, v: string, k: nat)
    requires k == IndexOf(val, '#') < |val|
    ensures CommentAt(val, v, k) <==> Trimmed(val[..k], v)
  {
    assert '#' !in val[..k];
    assert forall m :: 0 <= m < k ==> val[..k][m] == val[m];
    if |v| <= k {
      assert val[..k][..|v|] == val[..|v|];
    }
  }

  lemma OnlyComment(val: string, v: string, k: nat, i: nat)
    requires k == IndexOf(val, '#') < |val| && CommentAt(val, v, i)
    ensures i == k
  {
    forall m | 0 <= m < i ensures val[m] != '#' {
      assert val[..i][m] == val[m];
    }
  }

  /** The line begins with the key and an equals sign. */
  ghost predicate Keyed(line: string, key: string) {
    |key| < |line| && line[..|key|] == key && line[|key|] == '='
  }

  /** That is the key in front of the first equals sign. */
  lemma KeyOfLine(line: string, key: string)
    requires '=' !in key
    ensures IndexOf(line, '=') < |line| && line[..IndexOf(line, '=')] == key <==> Keyed(line, key)
    ensures Keyed(line, key) ==> ValueOf(line) == line[|key| + 1..]
  {
    if Keyed(line, key) {
      var eq := IndexOf(line, '=');
      assert forall m :: 0 <= m < |key| ==> line[m] == line[..|key|][m];
      assert eq == |key|;
    }
  }

  /** What a line says about a key that is no string key. */
  lemma ScalarLine(line: string, r: Option<(string, nat)>, k: Schema, key: string)
    requires KeyOk(key) && key !in k.strs && Keyed(line, key)
    ensures LineItem(line, r, k) == ScalarItem(key, line[|key| + 1..], k)
  {
    KeyOfLine(line, key);
    assert line[0] == line[..|key|][0] == key[0];
    assert IndexOf(line, '=') < |line| && line[..IndexOf(line, '=')] == key;
  }

  lemma OtherKey(line: string, r: Option<(string, nat)>, k: Schema, key: string)
    requires KeyOk(key) && !Keyed(line, key)
    ensures var item := LineItem(line, r, k); !(item.Flag? && item.key == key) && !(item.Num? && item.key == key)
  {
    KeyOfLine(line, key);
  }

  /** A flag is on if its line says 1 and off if it says 0. */
  lemma FlagLine(raw: seq<string>, i: nat, k: Schema, key: string, on: bool)
    requires i < |raw| && KeyOk(key) && key in k.bools && key !in k.strs
    ensures ItemOf(raw, i, k) == Flag(key, on) <==> Says(Content(raw, i), key, if on then "1" else "0")
  {
    var line := Content(raw, i);
    var r := ReadValue(raw, i + 1, ValueOf(line));
    if !Keyed(line, key) {
      OtherKey(line, r, k, key);
    } else {
      ScalarLine(line, r, k, key);
      FlagValue(line[|key| + 1..], k, key, on);
    }
  }

  lemma FlagValue(val: string, k: Schema, key: string, on: bool)
    requires key in k.bools
    ensures ScalarItem(key, val, k) == Flag(key, on) <==> Strips(val, if on then "1" else "0")
  {
    StripsExact(val, if on then "1" else "0");
  }

  /** A number key has the number its line gives. */
  lemma NumberLine(raw: seq<string>, i: nat, k: Schema, key: string, x: int)
    requires i < |raw| && KeyOk(key) && key in k.nums && key !in k.strs && key !in k.bools
    ensures ItemOf(raw, i, k) == Num(key, x) <==> exists v :: Says(Content(raw, i), key, v) && k.num(v) == Some(x)
  {
    var line := Content(raw, i);
    var r := ReadValue(raw, i + 1, ValueOf(line));
    if !Keyed(line, key) {
      OtherKey(line, r, k, key);
    } else {
      ScalarLine(line, r, k, key);
      var val := line[|key| + 1..];
      StripsExact(val, Uncommented(val));
      forall w | Says(line, key, w) ensures w == Uncommented(val) {
        StripsExact(val, w);
      }
    }
  }

  /** The loader's flag and number keys are of that kind only. */
  lemma ScalarKeysOk(num: string -> Option<int>, key: string)
    requires var k := CmdTestSchema(num); key in k.bools || key in k.nums
    ensures var k := CmdTestSchema(num); KeyOk(key) && key !in k.strs && (key in k.bools <==> key !in k.nums)
  {
    var bools, nums := ["BROKEN", "COLOR", "UTF8"], ["TIMEOUT", "EXIT_STATUS"];
    assert CmdTestSchema(num).bools == bools && CmdTestSchema(num).nums == nums;
    OneOfThree(key, bools);
    OneOfTwo(key, nums);
    ScalarKeyOk(key);
    NotAString(num, key);
  }

  lemma OneOfThree(key: string, s: seq<string>)
    requires |s| == 3
    ensures key in s <==> key == s[0] || key == s[1] || key == s[2]
  {
  }

  lemma OneOfTwo(key: string, s: seq<string>)
    requires |s| == 2
    ensures key in s <==> key == s[0] || key == s[1]
  {
  }

  lemma ScalarKeyOk(key: string)
    requires key == "BROKEN" || key == "COLOR" || key == "UTF8" || key == "TIMEOUT" || key == "EXIT_STATUS"
    ensures KeyOk(key)
  {
  }

  lemma NotAString(num: string -> Option<int>, key: string)
    requires key == "BROKEN" || key == "COLOR" || key == "UTF8" || key == "TIMEOUT" || key == "EXIT_STATUS"
    ensures key !in CmdTestSchema(num).strs
  {
  }

  /** Empty lines, comments and unknown keys say nothing, RUN needs no value, and any other line without one is an
      error. */
  lemma OtherLines(raw: seq<string>, i: nat, k: Schema, key: string)
    requires i < |raw| && KeyOk(key)
    ensures var line := Content(raw, i);
            && (line == "" || line[0] == '#' ==> ItemOf(raw, i, k) == Blank)
            && (line == "RUN" || Keyed(line, "RUN") ==> ItemOf(raw, i, k) == Run)
            && (line != "" && line[0] != '#' && line != "RUN" && '=' !in line ==> ItemOf(raw, i, k) == Bad)
            && (Keyed(line, key) && key !in k.strs && key !in k.bools && key !in k.nums ==> ItemOf(raw, i, k) == Blank)
  {
    var line := Content(raw, i);
    KeyOfLine(line, key);
    KeyOfLine(line, "RUN");
  }

  // ----- the lines a load gets to

  /** The loader, started at item `n`, gets to item `m`, or to the end. */
  ghost predicate Reaches(items: seq<Item>, n: nat, m: nat)
    requires Advancing(items)
    decreases |items| - n
  {
    n == m || (n < m && n < |items| && !items[n].Bad? && Reaches(items, After(items[n], n), m))
  }

  datatype Sort = OfStr | OfFlag | OfNum

  /** The item sets the key of this sort. */
  ghost predicate Sets(item: Item, sort: Sort, key: string) {
    match sort
    case OfStr => item.Str? && item.key == key
    case OfFlag => item.Flag? && item.key == key
    case OfNum => item.Num? && item.key == key
  }

  ghost predicate HasKey(t: CmdTest, sort: Sort, key: string) {
    match sort
    case OfStr => key in t.strs
    case OfFlag => key in t.bools
    case OfNum => key in t.nums
  }

  /** The test has what the item on line i + 1 says. */
  ghost predicate HasFrom(t: CmdTest, key: string, item: Item, i: nat) {
    match item
    case Str(_, v, next) => key in t.strs && t.strs[key].value == v && t.strs[key].begin == i + 1 && t.strs[key].end == next + 1
    case Flag(_, on) => key in t.bools && t.bools[key] == on
    case Num(_, x) => key in t.nums && t.nums[key] == x
    case _ => false
  }

  /** Of the lines the loader gets to between `start` and `n`, this is the last that sets the key. */
  ghost predicate LastSets(items: seq<Item>, start: nat, n: nat, sort: Sort, key: string, i: nat)
    requires Advancing(items) && n <= |items|
  {
    && start <= i < n && Reaches(items, start, i) && Sets(items[i], sort, key)
    && forall m: nat :: i < m < n && Reaches(items, start, m) ==> !Sets(items[m], sort, key)
  }

  /** The test has exactly the keys that the lines the loader gets to between `start` and `n` set, each from the last
      one that sets it. */
  ghost predicate ReadFrom(items: seq<Item>, start: nat, n: nat, t: CmdTest)
    requires Advancing(items) && n <= |items|
  {
    && Reaches(items, start, n)
    && (forall i: nat :: start <= i < n && Reaches(items, start, i) ==> !items[i].Run? && !items[i].Bad?)
    && (forall sort, key :: HasKey(t, sort, key) ==> exists i: nat :: LastSets(items, start, n, sort, key, i))
    && (forall sort, key, i: nat :: LastSets(items, start, n, sort, key, i) ==> HasFrom(t, key, items[i], i))
  }

  /** Between one line the loader gets to and the next there is none. */
  lemma {:induction false} ReachesNext(items: seq<Item>, start: nat, n: nat, i: nat)
    requires Advancing(items) && n < |items| && Reaches(items, start, n) && !items[n].Bad?
    ensures Reaches(items, start, After(items[n], n))
    ensures n < i < After(items[n], n) ==> !Reaches(items, start, i)
    decreases |items| - start
  {
    if start < n {
      ReachesNext(items, After(items[start], start), n, i);
    }
  }

  lemma LastSetsNext(items: seq<Item>, start: nat, n: nat, sort: Sort, key: string, i: nat)
    requires Advancing(items) && n < |items| && Reaches(items, start, n) && !items[n].Bad?
    ensures LastSets(items, start, After(items[n], n), sort, key, i) <==>
            if Sets(items[n], sort, key) then i == n else LastSets(items, start, n, sort, key, i)
  {
    var next := After(items[n], n);
    forall m: nat | n < m < next ensures !Reaches(items, start, m) {
      ReachesNext(items, start, n, m);
    }
  }

  lemma FilledKeys(t: CmdTest, item: Item, n: nat, sort: Sort, key: string)
    ensures HasKey(Filled(t, item, n), sort, key) <==> HasKey(t, sort, key) || Sets(item, sort, key)
  {
  }

  lemma ReadOne(items: seq<Item>, start: nat, n: nat, t: CmdTest)
    requires Advancing(items) && n < |items| && ReadFrom(items, start, n, t) && !items[n].Run? && !items[n].Bad?
    ensures ReadFrom(items, start, After(items[n], n), Filled(t, items[n], n))
  {
    var item, next, t' := items[n], After(items[n], n), Filled(t, items[n], n);
    ReachesNext(items, start, n, n);
    forall i: nat | start <= i < next && Reaches(items, start, i) ensures !items[i].Run? && !items[i].Bad? {
      ReachesNext(items, start, n, i);
    }
    forall sort, key | HasKey(t', sort, key) ensures exists i: nat :: LastSets(items, start, next, sort, key, i) {
      FilledKeys(t, item, n, sort, key);
      if Sets(item, sort, key) {
        LastSetsNext(items, start, n, sort, key, n);
      } else {
        var i: nat :| LastSets(items, start, n, sort, key, i);
        LastSetsNext(items, start, n, sort, key, i);
      }
    }
    forall sort, key, i: nat | LastSets(items, start, next, sort, key, i) ensures HasFrom(t', key, items[i], i) {
      LastSetsNext(items, start, n, sort, key, i);
    }
  }

  // ----- the whole load

  /** What RUN asks of a test, key by key. */
  ghost predicate Runnable(t: CmdTest, k: Schema) {
    && ("EXPECT" in t.strs || "EXPECT_ERR" in t.strs)
    && ("TOOL" !in t.strs || t.strs["TOOL"].value == "" ==> "CMDS" in t.strs)
    && ("TOOL" in t.strs && t.strs["TOOL"].value != "" ==> "ARGS" in t.strs && t.strs["TOOL"].value in k.tools)
  }

  lemma RunnableIff(t: CmdTest, k: Schema)
    ensures RunOk(t, k) <==> Runnable(t, k)
  {
  }

  /** Where the lines of test number `j` begin. */
  ghost function StartOf(ts: seq<CmdTest>, j: nat): nat
    requires j <= |ts|
  {
    if j == 0 then 0 else ts[j - 1].runLine
  }

  /** A test is what the lines since the RUN before say, and its own RUN found it complete. */
  ghost predicate FromLines(items: seq<Item>, k: Schema, start: nat, t: CmdTest)
    requires Advancing(items)
  {
    && 1 <= t.runLine <= |items| && items[t.runLine - 1].Run?
    && ReadFrom(items, start, t.runLine - 1, t) && Runnable(t, k)
  }

  ghost predicate AllFromLines(items: seq<Item>, k: Schema, ts: seq<CmdTest>)
    requires Advancing(items)
  {
    forall j :: 0 <= j < |ts| ==> FromLines(items, k, StartOf(ts, j), ts[j])
  }

  lemma ReadSame(items: seq<Item>, start: nat, n: nat, t: CmdTest, t': CmdTest)
    requires Advancing(items) && n <= |items| && ReadFrom(items, start, n, t)
    requires t'.strs == t.strs && t'.bools == t.bools && t'.nums == t.nums
    ensures ReadFrom(items, start, n, t')
  {
    forall sort, key ensures HasKey(t', sort, key) <==> HasKey(t, sort, key) {}
    forall key, item, i ensures HasFrom(t', key, item, i) <==> HasFrom(t, key, item, i) {}
  }

  lemma OneMore(items: seq<Item>, k: Schema, done: seq<CmdTest>, n: nat, cur: CmdTest)
    requires Advancing(items) && n < |items| && items[n].Run? && RunOk(cur, k)
    requires AllFromLines(items, k, done) && ReadFrom(items, StartOf(done, |done|), n, cur)
    ensures AllFromLines(items, k, done + [cur.(runLine := n + 1)])
  {
    var t := cur.(runLine := n + 1);
    var ts := done + [t];
    LastFrom(items, k, StartOf(done, |done|), n, cur);
    forall j | 0 <= j < |ts| ensures FromLines(items, k, StartOf(ts, j), ts[j]) {
      StartSnoc(done, t, j);
      if j < |done| {
        OneOf(items, k, done, j);
      }
    }
  }

  lemma StartSnoc(done: seq<CmdTest>, t: CmdTest, j: nat)
    requires j <= |done|
    ensures StartOf(done + [t], j) == StartOf(done, j) && (done + [t])[j] == if j < |done| then done[j] else t
  {
  }

  lemma OneOf(items: seq<Item>, k: Schema, ts: seq<CmdTest>, j: nat)
    requires Advancing(items) && AllFromLines(items, k, ts) && j < |ts|
    ensures FromLines(items, k, StartOf(ts, j), ts[j])
  {
  }

  lemma LastFrom(items: seq<Item>, k: Schema, start: nat, n: nat, cur: CmdTest)
    requires Advancing(items) && n < |items| && items[n].Run? && RunOk(cur, k) && ReadFrom(items, start, n, cur)
    ensures FromLines(items, k, start, cur.(runLine := n + 1))
  {
    RunnableIff(cur, k);
    ReadSame(items, start, n, cur, cur.(runLine := n + 1));
  }

  lemma ReadNothing(items: seq<Item>, n: nat)
    requires Advancing(items) && n <= |items|
    ensures ReadFrom(items, n, n, EMPTY)
  {
  }

  lemma {:induction false} LoadFromLines(items: seq<Item>, n: nat, k: Schema, done: seq<CmdTest>, cur: CmdTest, ts: seq<CmdTest>)
    requires Advancing(items) && n <= |items| && LoadFrom(items, n, k, done, cur) == Some(ts)
    requires AllFromLines(items, k, done) && ReadFrom(items, StartOf(done, |done|), n, cur)
    ensures AllFromLines(items, k, ts)
    ensures exists rest :: ReadFrom(items, StartOf(ts, |ts|), |items|, rest)
    decreases |items| - n
  {
    if n < |items| {
      if items[n].Run? {
        OneMore(items, k, done, n, cur);
        ReadNothing(items, n + 1);
        LoadFromLines(items, n + 1, k, done + [cur.(runLine := n + 1)], EMPTY, ts);
      } else {
        ReadOne(items, StartOf(done, |done|), n, cur);
        LoadFromLines(items, After(items[n], n), k, done, Filled(cur, items[n], n), ts);
      }
    }
  }

  /** A loaded file: each test has exactly the keys its own lines set, each from the last line that sets it, ends with
      the first RUN behind the one before, and passed the check there; no RUN comes behind the last test. */
  lemma LoadedByLines(text: string, k: Schema, ts: seq<CmdTest>)
    requires Load(text, k) == Some(ts)
    ensures var items := Items(Lines(text), k);
            AllFromLines(items, k, ts) && exists rest :: ReadFrom(items, StartOf(ts, |ts|), |items|, rest)
  {
    var items := Items(Lines(text), k);
    ReadNothing(items, 0);
    LoadFromLines(items, 0, k, [], EMPTY, ts);
  }

  /** The line is an error, or a RUN that finds the test read since `start` incomplete. */
  ghost predicate Rejects(items: seq<Item>, k: Schema, start: nat, n: nat, t: CmdTest)
    requires Advancing(items)
  {
    n < |items| && ReadFrom(items, start, n, t) && (items[n].Bad? || (items[n].Run? && !Runnable(t, k)))
  }

  lemma {:induction false} LoadRejects(items: seq<Item>, n: nat, k: Schema, start: nat, done: seq<CmdTest>, cur: CmdTest)
    returns (start': nat, n': nat, t: CmdTest)
    requires Advancing(items) && n <= |items| && LoadFrom(items, n, k, done, cur).None? && ReadFrom(items, start, n, cur)
    requires start == 0 || (0 < start <= |items| && items[start - 1].Run?)
    ensures Rejects(items, k, start', n', t) && (start' == 0 || (0 < start' <= |items| && items[start' - 1].Run?))
    decreases |items| - n
  {
    RunnableIff(cur, k);
    if items[n].Bad? || (items[n].Run? && !RunOk(cur, k)) {
      start', n', t := start, n, cur;
    } else if items[n].Run? {
      ReadNothing(items, n + 1);
      start', n', t := LoadRejects(items, n + 1, k, n + 1, done + [cur.(runLine := n + 1)], EMPTY);
    } else {
      ReadOne(items, start, n, cur);
      start', n', t := LoadRejects(items, After(items[n], n), k, start, done, Filled(cur, items[n], n));
    }
  }

  /** A file is only rejected for such a line. */
  lemma RejectedByLine(text: string, k: Schema) returns (start: nat, n: nat, t: CmdTest)
    requires Load(text, k).None?
    ensures var items := Items(Lines(text), k);
            Rejects(items, k, start, n, t) && (start == 0 || (0 < start <= |items| && items[start - 1].Run?))
  {
    var items := Items(Lines(text), k);
    ReadNothing(items, 0);
    start, n, t := LoadRejects(items, 0, k, 0, [], EMPTY);
  }
}
