/** A file of two tests on which the fixup of the RUN lines goes wrong. */
module TestDrift {
  import opened Machine
  import opened TextLines
  import opened TestFile
  import opened TestFormat
  import opened TestEdit
  import opened TestFixup
  import opened TestRepair

  lemma JoinedLines(ls: seq<string>)
    requires ls != [] && forall i :: 0 <= i < |ls| ==> '\n' !in ls[i]
    ensures Lines(Joined(ls)) == ls
  {
    var n := |ls| - 1;
    EndedLines(ls[..n], ls[n]);
    OneLine(ls[n]);
    assert ls == ls[..n] + [ls[n]];
  }

  /** A one-line value. */
  lemma PlainItem(raw: seq<string>, n: nat, k: Schema, key: string, c: char)
    requires n + 1 < |raw| && raw[n] == key + "=" + [c] && KeyOk(key) && key in k.strs && c != '\r'
    ensures ItemOf(raw, n, k) == Str(key, [c], n + 1)
  {
    KeyLineItem(raw, n, k, key, [c]);
    assert Chomp([c]) == [c];
  }

  lemma RunItem(raw: seq<string>, n: nat, k: Schema)
    requires n < |raw| && raw[n] == "RUN"
    ensures ItemOf(raw, n, k) == Run
  {
    assert Content(raw, n) == "RUN";
    assert IndexOf("RUN", '=') == 3;
  }

  /** The value is the line between the markers. */
  lemma HeredocItem(raw: seq<string>, n: nat, k: Schema, key: string)
    requires n + 3 < |raw| && raw[n] == key + "=" + "<<EOF" && raw[n + 1] == "d" && raw[n + 2] == "EOF"
    requires KeyOk(key) && key in k.strs
    ensures ItemOf(raw, n, k) == Str(key, "d\n", n + 3)
  {
    HeredocKey(raw, n, k, key);
    HeredocOfOne(raw, n + 1);
  }

  lemma HeredocOfOne(raw: seq<string>, n: nat)
    requires n + 2 < |raw| && raw[n] == "d" && raw[n + 1] == "EOF"
    ensures Heredoc(raw, n) == Some(("d\n", n + 2))
  {
    assert Content(raw, n) == "d" && Content(raw, n + 1) == "EOF";
    assert Heredoc(raw, n + 1) == Some(("", n + 2));
    assert !("EOF" <= "d");
    assert Heredoc(raw, n) == Prepend("d" + "\n", Some(("", n + 2)));
    assert "d" + "\n" + "" == "d\n";
  }

  const FIRST := CmdTest(map["CMDS" := Field("a", 1, 2), "EXPECT" := Field("b", 2, 3)], map[], map[], 3)
  const SECOND := CmdTest(map["CMDS" := Field("c", 4, 5), "EXPECT" := Field("d\n", 5, 8)], map[], map[], 8)

  function Kv(key: string, val: string): string {
    key + "=" + val
  }

  /** The lines of the file. */
  ghost predicate TwoTests(raw: seq<string>) {
    && |raw| == 8 && raw[0] == Kv("CMDS", ['a']) && raw[1] == Kv("EXPECT", ['b']) && raw[2] == "RUN"
    && raw[3] == Kv("CMDS", ['c']) && raw[4] == Kv("EXPECT", "<<EOF") && raw[5] == "d" && raw[6] == "EOF" && raw[7] == "RUN"
  }

  lemma KvOneLine(key: string, val: string)
    requires '\n' !in key && '\n' !in val
    ensures '\n' !in Kv(key, val)
  {
  }

  /** The items the loader visits in them. */
  ghost predicate TwoItems(items: seq<Item>) {
    && |items| == 8 && items[0] == Str("CMDS", "a", 1) && items[1] == Str("EXPECT", "b", 2) && items[2] == Run
    && items[3] == Str("CMDS", "c", 4) && items[4] == Str("EXPECT", "d\n", 7) && items[7] == Run
  }

  lemma PlainAt(raw: seq<string>, k: Schema, items: seq<Item>, n: nat, key: string, c: char)
    requires ReadAs(raw, k, items) && n + 1 < |raw| && raw[n] == Kv(key, [c]) && KeyOk(key) && key in k.strs && c != '\r'
    ensures items[n] == Str(key, [c], n + 1)
  {
    PlainItem(raw, n, k, key, c);
  }

  lemma RunAt(raw: seq<string>, k: Schema, items: seq<Item>, n: nat)
    requires ReadAs(raw, k, items) && n < |raw| && raw[n] == "RUN"
    ensures items[n] == Run
  {
    RunItem(raw, n, k);
  }

  lemma HeredocAt(raw: seq<string>, k: Schema, items: seq<Item>, n: nat, key: string)
    requires ReadAs(raw, k, items) && n + 3 < |raw| && raw[n] == Kv(key, "<<EOF") && raw[n + 1] == "d" && raw[n + 2] == "EOF"
    requires KeyOk(key) && key in k.strs
    ensures items[n] == Str(key, "d\n", n + 3)
  {
    HeredocItem(raw, n, k, key);
  }

  lemma TwoTestsItems(raw: seq<string>, k: Schema, items: seq<Item>)
    requires "CMDS" in k.strs && "EXPECT" in k.strs && KeyOk("CMDS") && KeyOk("EXPECT")
    requires TwoTests(raw) && ReadAs(raw, k, items)
    ensures TwoItems(items)
  {
    PlainAt(raw, k, items, 0, "CMDS", 'a');
    PlainAt(raw, k, items, 1, "EXPECT", 'b');
    RunAt(raw, k, items, 2);
    PlainAt(raw, k, items, 3, "CMDS", 'c');
    HeredocAt(raw, k, items, 4, "EXPECT");
    RunAt(raw, k, items, 7);
  }

  lemma LoadFirst(items: seq<Item>, k: Schema)
    requires TwoItems(items) && Advancing(items)
    ensures LoadFrom(items, 0, k, [], EMPTY) == LoadFrom(items, 3, k, [FIRST], EMPTY)
  {
    var t0 := Filled(EMPTY, items[0], 0);
    var t1 := Filled(t0, items[1], 1);
    assert t1.strs == FIRST.strs;
    assert LoadFrom(items, 0, k, [], EMPTY) == LoadFrom(items, 1, k, [], t0);
    assert LoadFrom(items, 1, k, [], t0) == LoadFrom(items, 2, k, [], t1);
    assert RunOk(t1, k) && t1.(runLine := 3) == FIRST && [] + [FIRST] == [FIRST];
    assert LoadFrom(items, 2, k, [], t1) == LoadFrom(items, 3, k, [FIRST], EMPTY);
  }

  lemma LoadSecond(items: seq<Item>, k: Schema)
    requires TwoItems(items) && Advancing(items)
    ensures LoadFrom(items, 3, k, [FIRST], EMPTY) == Some([FIRST, SECOND])
  {
    var t0 := Filled(EMPTY, items[3], 3);
    var t1 := Filled(t0, items[4], 4);
    assert t1.strs == SECOND.strs;
    assert LoadFrom(items, 3, k, [FIRST], EMPTY) == LoadFrom(items, 4, k, [FIRST], t0);
    assert LoadFrom(items, 4, k, [FIRST], t0) == LoadFrom(items, 7, k, [FIRST], t1);
    assert RunOk(t1, k) && t1.(runLine := 8) == SECOND && [FIRST] + [SECOND] == [FIRST, SECOND];
    assert LoadFrom(items, 7, k, [FIRST], t1) == LoadFrom(items, 8, k, [FIRST, SECOND], EMPTY);
  }

  lemma PlainWellFormed()
    ensures WellFormed("x") && Lines(FormatKv("EXPECT", "x")) == [Kv("EXPECT", "x")]
  {
    assert KeyOk("EXPECT") && '\n' !in "x";
    FormatLines("EXPECT", "x");
  }

  lemma TwoTestsLoad(raw: seq<string>, k: Schema)
    requires "CMDS" in k.strs && "EXPECT" in k.strs && GoodSchema(k) && TwoTests(raw)
    ensures LoadFrom(Items(raw, k), 0, k, [], EMPTY) == Some([FIRST, SECOND])
  {
    TwoTestsItems(raw, k, Items(raw, k));
    LoadFirst(Items(raw, k), k);
    LoadSecond(Items(raw, k), k);
  }

  lemma TwoTestsOneLine(raw: seq<string>)
    requires TwoTests(raw)
    ensures forall i :: 0 <= i < |raw| ==> '\n' !in raw[i]
  {
    KvOneLine("CMDS", ['a']);
    KvOneLine("EXPECT", ['b']);
    KvOneLine("CMDS", ['c']);
    KvOneLine("EXPECT", "<<EOF");
  }

  /** The edit of the second test's expected output, from three lines to one. */
  const SHRINK := Edit("EXPECT", "x", 5, 8, 6)

  lemma ShrunkLoad(raw: seq<string>, raw': seq<string>, k: Schema)
    requires "CMDS" in k.strs && "EXPECT" in k.strs && GoodSchema(k) && TwoTests(raw)
    requires raw' == raw[..4] + ([Kv("EXPECT", "x")] + raw[7..])
    ensures EditedText(raw, raw', SHRINK)
    ensures LoadFrom(Items(raw', k), 0, k, [], EMPTY) == Some(MovedAll([FIRST, SECOND], SHRINK))
  {
    PlainWellFormed();
    assert EditedText(raw, raw', SHRINK);
    TwoTestsLoad(raw, k);
    ReloadIff(raw, raw', k, [FIRST, SECOND], 1, SHRINK);
  }

  /** The two texts. */
  lemma DriftTexts() returns (text: string, text': string)
    ensures TwoTests(Lines(text)) && Lines(text') == Lines(text)[..4] + ([Kv("EXPECT", "x")] + Lines(text)[7..])
  {
    var raw := [Kv("CMDS", ['a']), Kv("EXPECT", ['b']), "RUN", Kv("CMDS", ['c']), Kv("EXPECT", "<<EOF"), "d", "EOF", "RUN"];
    TwoTestsOneLine(raw);
    KvOneLine("EXPECT", "x");
    text := TextOf(raw);
    text' := TextOf(raw[..4] + ([Kv("EXPECT", "x")] + raw[7..]));
  }

  lemma TextOf(ls: seq<string>) returns (text: string)
    requires ls != [] && forall i :: 0 <= i < |ls| ==> '\n' !in ls[i]
    ensures Lines(text) == ls
  {
    JoinedLines(ls);
    text := Joined(ls);
  }

  /** A reload leaves the first test's RUN on line 3; the fixup moves it to line 1. */
  lemma RunLineDrifts(k: Schema) returns (text: string, text': string)
    requires "CMDS" in k.strs && "EXPECT" in k.strs && GoodSchema(k)
    ensures Load(text, k) == Some([FIRST, SECOND]) && EditedText(Lines(text), Lines(text'), SHRINK)
    ensures Load(text', k) == Some(MovedAll([FIRST, SECOND], SHRINK)) && MovedTest(FIRST, SHRINK).runLine == 3
    ensures forall r: Entry :: r.isCmd && r.runLine == FIRST.runLine ==> Fixed(r, r.path, SHRINK.le, Grown(SHRINK)).runLine == 1
  {
    text, text' := DriftTexts();
    LoadsAs(text, text', k);
    DriftNumbers();
  }

  function Grown(e: Edit): (d: int)
    ensures e.le + d >= 0
  {
    e.ne - e.le
  }

  lemma DriftNumbers()
    ensures MovedTest(FIRST, SHRINK).runLine == 3
    ensures forall r: Entry :: r.isCmd && r.runLine == FIRST.runLine ==> Fixed(r, r.path, SHRINK.le, Grown(SHRINK)).runLine == 1
  {
  }

  lemma LoadsAs(text: string, text': string, k: Schema)
    requires "CMDS" in k.strs && "EXPECT" in k.strs && GoodSchema(k)
    requires TwoTests(Lines(text)) && Lines(text') == Lines(text)[..4] + ([Kv("EXPECT", "x")] + Lines(text)[7..])
    ensures Load(text, k) == Some([FIRST, SECOND]) && EditedText(Lines(text), Lines(text'), SHRINK)
    ensures Load(text', k) == Some(MovedAll([FIRST, SECOND], SHRINK))
  {
    TwoTestsLoad(Lines(text), k);
    ShrunkLoad(Lines(text), Lines(text'), k);
  }
}
