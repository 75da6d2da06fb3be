/** Loading command tests from a file. */
module TestFile {
  import opened Machine
  import opened TextLines

  // ----- data

  /** A string key of a test: its value and the lines [begin, end) it occupies, counted from 1. */
  datatype Field = Field(value: string, begin: nat, end: nat)

  datatype CmdTest = CmdTest(strs: map<string, Field>, bools: map<string, bool>, nums: map<string, int>, runLine: nat)

  const EMPTY := CmdTest(map[], map[], map[], 0)

  /** The keys of each kind, the tools a test may name, and `strtol` on a whole value. */
  datatype Schema = Schema(strs: seq<string>, bools: seq<string>, nums: seq<string>, tools: seq<string>,
                           num: string -> Option<int>)

  function CmdTestSchema(num: string -> Option<int>): Schema {
    Schema(["NAME", "FILE", "ARGS", "TOOL", "ENVS", "SOURCE", "CMDS", "EXPECT", "EXPECT_ERR",
            "REGEXP_FILTER_OUT", "REGEXP_FILTER_ERR"],
           ["BROKEN", "COLOR", "UTF8"],
           ["TIMEOUT", "EXIT_STATUS"],
           ["rizin", "rz-ar", "rz-asm", "rz-ax", "rz-bin", "rz-diff", "rz-find", "rz-gg", "rz-hash", "rz-run", "rz-sign",
            "rz-test"],
           num)
  }

  // ----- one line, one value

  predicate EndsWith(s: string, c: char): (r: bool)
    ensures r <==> |s| > 0 && s[|s| - 1] == c
  {
    s != "" && s[|s| - 1] == c
  }

  function Chomp(s: string): string {
    if EndsWith(s, '\r') then s[..|s| - 1] else s
  }

  /** What `readline` yields for line `i`: a carriage return is dropped only in front of a newline. */
  function Content(raw: seq<string>, i: nat): string
    requires i < |raw|
  {
    if i + 1 < |raw| then Chomp(raw[i]) else raw[i]
  }

  predicate Quoted(v: string): (r: bool)
    ensures r <==> |v| >= 2 && v[0] == '\'' && v[|v| - 1] == '\''
  {
    |v| > 1 && v[0] == '\'' && v[|v| - 1] == '\''
  }

  /** Lines from `n` up to one that starts with EOF; the value and the index of the line behind it. */
  function Heredoc(raw: seq<string>, n: nat): Option<(string, nat)>
    decreases |raw| - n
  {
    if n >= |raw| then None
    else if "EOF" <= Content(raw, n) then Some(("", n + 1))
    else Prepend(Content(raw, n) + "\n", Heredoc(raw, n + 1))
  }

  function Prepend(s: string, r: Option<(string, nat)>): Option<(string, nat)> {
    if r.None? then None else Some((s + r.value.0, r.value.1))
  }

  lemma PrependTwice(s: string, t: string, r: Option<(string, nat)>)
    ensures Prepend(s, Prepend(t, r)) == Prepend(s + t, r)
    ensures Prepend("", r) == r
  {
    if r.Some? {
      assert s + (t + r.value.0) == (s + t) + r.value.0;
      assert "" + r.value.0 == r.value.0;
    }
  }

  /** `read_string_val`: `n` is the index of the line behind the key. */
  function ReadValue(raw: seq<string>, n: nat, val: string): Option<(string, nat)> {
    if Quoted(val) then None
    else if "<<" <= val then
      if val[2..] == "EOF" then Heredoc(raw, n) else None
    else Some((val, n))
  }

  /** A flag or number value without its comment. */
  function Uncommented(val: string): string {
    var k := IndexOf(val, '#');
    if k == |val| then val else TrimSpaces(val[..k])
  }

  /** Blanks in front of the comment go, but the first character stays. */
  function TrimSpaces(v: string): string {
    if |v| > 1 && v[|v| - 1] == ' ' then TrimSpaces(v[..|v| - 1]) else v
  }

  // ----- items

  datatype Item =
    | Bad
    | Blank
    | Str(key: string, value: string, next: nat)
    | Flag(key: string, on: bool)
    | Num(key: string, number: int)
    | Run

  /** The part of a line behind the first equals sign. */
  function ValueOf(line: string): string {
    var eq := IndexOf(line, '=');
    if eq == |line| then "" else line[eq + 1..]
  }

  function ScalarItem(key: string, val: string, k: Schema): Item {
    if key in k.bools then
      if Uncommented(val) == "1" then Flag(key, true)
      else if Uncommented(val) == "0" then Flag(key, false)
      else Bad
    else if key in k.nums then
      var number := k.num(Uncommented(val));
      if number.None? then Bad else Num(key, number.value)
    else Blank
  }

  /** What a line says; `r` is the string value that begins on it. */
  function LineItem(line: string, r: Option<(string, nat)>, k: Schema): Item {
    if line == "" || line[0] == '#' then Blank
    else
      var eq := IndexOf(line, '=');
      var key, val := line[..eq], ValueOf(line);
      if key == "RUN" then Run
      else if eq == |line| then Bad
      else if key in k.strs then
        if r.None? then Bad else Str(key, r.value.0, r.value.1)
      else ScalarItem(key, val, k)
  }

  /** What stands on line n + 1. */
  function ItemOf(raw: seq<string>, n: nat, k: Schema): Item
    requires n < |raw|
  {
    var line := Content(raw, n);
    LineItem(line, ReadValue(raw, n + 1, ValueOf(line)), k)
  }

  function After(item: Item, n: nat): nat {
    if item.Str? then item.next else n + 1
  }

  // ----- the whole file

  function Value(t: CmdTest, key: string): string {
    if key in t.strs then t.strs[key].value else ""
  }

  /** What RUN checks: commands or a known tool with arguments, and something to expect. */
  predicate RunOk(t: CmdTest, k: Schema) {
    && (if Value(t, "TOOL") == "" then "CMDS" in t.strs else "ARGS" in t.strs && Value(t, "TOOL") in k.tools)
    && ("EXPECT" in t.strs || "EXPECT_ERR" in t.strs)
  }

  /** The test being filled after an item other than RUN on line n + 1. */
  function Filled(t: CmdTest, item: Item, n: nat): CmdTest {
    match item
    case Str(key, value, next) => t.(strs := t.strs[key := Field(value, n + 1, next + 1)])
    case Flag(key, on) => t.(bools := t.bools[key := on])
    case Num(key, number) => t.(nums := t.nums[key := number])
    case _ => t
  }

  lemma {:induction false} HeredocAfter(raw: seq<string>, n: nat)
    ensures Heredoc(raw, n).Some? ==> n < Heredoc(raw, n).value.1 <= |raw|
    decreases |raw| - n
  {
    if n < |raw| {
      HeredocAfter(raw, n + 1);
    }
  }

  lemma LineItemStr(line: string, r: Option<(string, nat)>, k: Schema)
    ensures LineItem(line, r, k).Str? ==> r == Some((LineItem(line, r, k).value, LineItem(line, r, k).next))
  {
  }

  lemma ReadValueAfter(raw: seq<string>, n: nat, val: string)
    requires n <= |raw|
    ensures ReadValue(raw, n, val).Some? ==> n <= ReadValue(raw, n, val).value.1 <= |raw|
  {
    HeredocAfter(raw, n);
  }

  lemma AfterAdvances(raw: seq<string>, n: nat, k: Schema)
    requires n < |raw|
    ensures n < After(ItemOf(raw, n, k), n) <= |raw|
  {
    var line := Content(raw, n);
    var r := ReadValue(raw, n + 1, ValueOf(line));
    ReadValueAfter(raw, n + 1, ValueOf(line));
    LineItemStr(line, r, k);
  }

  /** Every item ends behind its first line. */
  ghost predicate Advancing(items: seq<Item>) {
    forall i :: 0 <= i < |items| ==> i < After(items[i], i) <= |items|
  }

  /** What each line is read as when the loader gets to it. */
  ghost function Items(raw: seq<string>, k: Schema): (r: seq<Item>)
    ensures |r| == |raw| && Advancing(r) && forall i :: 0 <= i < |raw| ==> r[i] == ItemOf(raw, i, k)
  {
    var r := seq(|raw|, i requires 0 <= i < |raw| => ItemOf(raw, i, k));
    assert Advancing(r) by {
      forall i | 0 <= i < |r| ensures i < After(r[i], i) <= |r| { AfterAdvances(raw, i, k); }
    }
    r
  }

  /** Loads from item `n` on, with the tests done and the one being filled so far; None if the file is rejected. */
  ghost function LoadFrom(items: seq<Item>, n: nat, k: Schema, done: seq<CmdTest>, cur: CmdTest): Option<seq<CmdTest>>
    requires Advancing(items) && n <= |items|
    decreases |items| - n
  {
    if n == |items| then Some(done)
    else if items[n].Bad? then None
    else if items[n].Run? then
      if RunOk(cur, k) then LoadFrom(items, n + 1, k, done + [cur.(runLine := n + 1)], EMPTY) else None
    else LoadFrom(items, After(items[n], n), k, done, Filled(cur, items[n], n))
  }

  ghost function Load(text: string, k: Schema): Option<seq<CmdTest>> {
    LoadFrom(Items(Lines(text), k), 0, k, [], EMPTY)
  }

  // ----- the loader as it runs

  /** Cuts the first line off a text; `next` is None behind the last line. */
  method ReadLine(buf: string) returns (line: string, next: Option<string>)
    ensures line == Content(Lines(buf), 0)
    ensures next.Some? <==> |Lines(buf)| > 1
    ensures next.Some? ==> Lines(next.value) == Lines(buf)[1..]
  {
    FirstLine(buf);
    var end := IndexOf(buf, '\n');
    if end < |buf| {
      line := buf[..end];
      if |line| > 0 && line[|line| - 1] == '\r' {
        line := line[..|line| - 1];
      }
      next := Some(buf[end + 1..]);
    } else {
      line, next := buf, None;
    }
  }

  /** What is left of the file behind the first `n` lines. */
  ghost predicate At(raw: seq<string>, n: nat, rest: Option<string>) {
    n <= |raw| && (rest.Some? <==> n < |raw|) && (rest.Some? ==> Lines(rest.value) == raw[n..])
  }

  method NextLine(ghost raw: seq<string>, ghost n: nat, rest: string) returns (line: string, rest': Option<string>)
    requires At(raw, n, Some(rest))
    ensures n < |raw| && line == Content(raw, n) && At(raw, n + 1, rest')
  {
    line, rest' := ReadLine(rest);
    assert raw[n..][0] == raw[n] && raw[n..][1..] == raw[n + 1..];
  }

  lemma HeredocTurn(raw: seq<string>, n: nat, buf: string)
    requires n < |raw|
    ensures Prepend(buf, Heredoc(raw, n)) ==
            if "EOF" <= Content(raw, n) then Some((buf, n + 1))
            else Prepend(buf + (Content(raw, n) + "\n"), Heredoc(raw, n + 1))
  {
    var line := Content(raw, n);
    if "EOF" <= line {
      assert Heredoc(raw, n) == Some(("", n + 1)) && buf + "" == buf;
    } else {
      assert Heredoc(raw, n) == Prepend(line + "\n", Heredoc(raw, n + 1));
      PrependTwice(buf, line + "\n", Heredoc(raw, n + 1));
    }
  }

  /** The loop of `read_string_val`. The source dereferences NULL when the opening line is the last; here that is None. */
  method ReadHeredoc(ghost raw: seq<string>, n0: nat, rest0: Option<string>)
    returns (value: Option<string>, rest: Option<string>, n: nat)
    requires At(raw, n0, rest0)
    ensures Heredoc(raw, n0) == if value.None? then None else Some((value.value, n))
    ensures value.Some? ==> At(raw, n, rest)
  {
    var buf := "";
    rest, n := rest0, n0;
    ghost var full := Heredoc(raw, n0);
    PendingBegins(raw, n);
    while rest.Some?
      invariant At(raw, n, rest) && Pending(full, raw, n, buf)
      decreases |raw| - n
    {
      var stop, buf';
      stop, buf', rest := HeredocLine(raw, n, rest.value, buf, full);
      n := n + 1;
      if stop {
        assert full == Some((buf, n));
        return Some(buf), rest, n;
      }
      buf := buf';
    }
    PendingEnd(full, raw, n, buf);
    value := None;
  }

  /** `buf` was read so far, and reading on from line `n` gives the rest. */
  ghost predicate Pending(full: Option<(string, nat)>, raw: seq<string>, n: nat, buf: string) {
    full == Prepend(buf, Heredoc(raw, n))
  }

  lemma PendingBegins(raw: seq<string>, n: nat)
    ensures Pending(Heredoc(raw, n), raw, n, "")
  {
    PrependTwice("", "", Heredoc(raw, n));
  }

  lemma PendingEnd(full: Option<(string, nat)>, raw: seq<string>, n: nat, buf: string)
    requires Pending(full, raw, n, buf) && n >= |raw|
    ensures full == None
  {
  }

  /** One line of the loop; `full` is the result of the whole loop. */
  method HeredocLine(ghost raw: seq<string>, ghost n: nat, rest: string, buf: string, ghost full: Option<(string, nat)>)
    returns (stop: bool, buf': string, rest': Option<string>)
    requires At(raw, n, Some(rest)) && Pending(full, raw, n, buf)
    ensures n < |raw| && At(raw, n + 1, rest')
    ensures if stop then full == Some((buf, n + 1)) else Pending(full, raw, n + 1, buf')
  {
    var line;
    line, rest' := NextLine(raw, n, rest);
    HeredocTurn(raw, n, buf);
    stop, buf' := "EOF" <= line, buf + (line + "\n");
  }

  method ReadStringVal(ghost raw: seq<string>, n0: nat, rest0: Option<string>, val: string)
    returns (value: Option<string>, rest: Option<string>, n: nat)
    requires At(raw, n0, rest0)
    ensures ReadValue(raw, n0, val) == if value.None? then None else Some((value.value, n))
    ensures value.Some? ==> At(raw, n, rest)
  {
    rest, n := rest0, n0;
    if |val| > 1 && val[0] == '\'' && val[|val| - 1] == '\'' {
      return None, rest, n;
    }
    if |val| >= 2 && val[0] == '<' && val[1] == '<' {
      assert "<<" <= val;
      if val[2..] != "EOF" {
        return None, rest, n;
      }
      value, rest, n := ReadHeredoc(raw, n0, rest0);
    } else {
      value := Some(val);
    }
  }

  /** One turn of the key loop: the item on the current line, and what is left behind it. */
  method ReadItem(ghost raw: seq<string>, n0: nat, rest0: string, k: Schema)
    returns (item: Item, rest: Option<string>)
    requires At(raw, n0, Some(rest0))
    ensures n0 < |raw| && item == ItemOf(raw, n0, k)
    ensures !item.Bad? ==> At(raw, After(item, n0), rest)
  {
    var line;
    line, rest := NextLine(raw, n0, rest0);
    if line == "" || line[0] == '#' {
      return Blank, rest;
    }
    var eq := IndexOf(line, '=');
    var key := line[..eq];
    if key == "RUN" {
      return Run, rest;
    }
    if eq == |line| {
      return Bad, rest;
    }
    var val := ValueOf(line);
    if key in k.strs {
      var value, n;
      value, rest, n := ReadStringVal(raw, n0 + 1, rest, val);
      item := if value.None? then Bad else Str(key, value.value, n);
    } else {
      item := ReadScalar(key, val, k);
    }
  }

  /** A flag, a number, or a key the loader does not know. */
  method ReadScalar(key: string, val: string, k: Schema) returns (item: Item)
    ensures item == ScalarItem(key, val, k)
  {
    if key in k.bools {
      var v := Uncommented(val);
      item := if v == "1" then Flag(key, true) else if v == "0" then Flag(key, false) else Bad;
    } else if key in k.nums {
      var v := k.num(Uncommented(val));
      item := if v.None? then Bad else Num(key, v.value);
    } else {
      item := Blank;
    }
  }

  method LoadCmdTests(text: string, k: Schema) returns (tests: Option<seq<CmdTest>>)
    ensures tests == Load(text, k)
  {
    ghost var raw := Lines(text);
    ghost var items := Items(raw, k);
    var rest, n, done, cur := Some(text), 0, [], EMPTY;
    while rest.Some?
      invariant At(raw, n, rest)
      invariant LoadFrom(items, n, k, done, cur) == Load(text, k)
      decreases |raw| - n
    {
      var item;
      item, rest := ReadItem(raw, n, rest.value, k);
      if item.Bad? {
        return None;
      }
      if item.Run? {
        if !RunOk(cur, k) {
          return None;
        }
        done, cur := done + [cur.(runLine := n + 1)], EMPTY;
      } else {
        cur := Filled(cur, item, n);
      }
      n := After(item, n);
    }
    tests := Some(done);
  }
}
