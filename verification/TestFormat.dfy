/** Printing a key and reading it back. */
module TestFormat {
  import opened Machine
  import opened TextLines
  import opened TestFile

  function FormatKv(key: string, val: string): string {
    key + "=" + if '\n' in val then "<<EOF\n" + val + "EOF" else val
  }

  /** A key that stands alone in front of the equals sign. */
  predicate KeyOk(key: string) {
    key != "" && key[0] != '#' && '=' !in key && '\n' !in key && key != "RUN"
  }

  /** All lines of the value but the one behind its last newline. */
  function Body(v: string): seq<string> {
    var ls := Lines(v); ls[..|ls| - 1]
  }

  function LastLine(v: string): string {
    var ls := Lines(v); ls[|ls| - 1]
  }

  predicate NoEof(ls: seq<string>) {
    forall i :: 0 <= i < |ls| ==> !("EOF" <= ls[i])
  }

  predicate NoCr(ls: seq<string>) {
    forall i :: 0 <= i < |ls| ==> !EndsWith(ls[i], '\r')
  }

  /** The values that survive printing and reading. */
  predicate WellFormed(v: string) {
    if '\n' in v then LastLine(v) == "" && NoEof(Body(v)) && NoCr(Body(v))
    else !Quoted(v) && !("<<" <= v) && !EndsWith(v, '\r')
  }

  // ----- the printed lines

  lemma {:induction false} LinesSuffix(v: string, x: string)
    requires '\n' !in x
    ensures Lines(v + x) == Body(v) + [LastLine(v) + x]
  {
    if v == "" {
      assert v + x == x;
      OneLine(x);
      assert "" + x == x;
    } else {
      LinesSuffix(v[1..], x);
      assert (v + x)[0] == v[0] && (v + x)[1..] == v[1..] + x;
      var r := Lines(v[1..]);
      if v[0] == '\n' {
        assert Body(v) == [""] + Body(v[1..]) && LastLine(v) == LastLine(v[1..]);
      } else {
        GlueLast(v[0], r, x);
      }
    }
  }

  lemma GlueLast(c: char, r: seq<string>, x: string)
    requires r != []
    ensures var g := Glue(c, r);
            Glue(c, r[..|r| - 1] + [r[|r| - 1] + x]) == g[..|r| - 1] + [g[|r| - 1] + x]
  {
    if |r| == 1 {
      assert [c] + (r[0] + x) == ([c] + r[0]) + x;
    }
  }

  lemma FormatLines(key: string, v: string)
    requires KeyOk(key)
    ensures '\n' !in v ==> Lines(FormatKv(key, v)) == [key + "=" + v]
    ensures '\n' in v ==> Lines(FormatKv(key, v)) == [key + "=" + "<<EOF"] + (Body(v) + [LastLine(v) + "EOF"])
  {
    if '\n' !in v {
      OneLine(key + "=" + v);
    } else {
      var head := key + "=" + "<<EOF";
      assert FormatKv(key, v) == head + "\n" + (v + "EOF");
      LinesJoin(head, v + "EOF");
      OneLine(head);
      LinesSuffix(v, "EOF");
    }
  }

  // ----- reading the key line

  lemma IndexOfSplit(a: string, c: char, b: string)
    requires c !in a
    ensures IndexOf(a + [c] + b, c) == |a|
  {
    var s := a + [c] + b;
    assert s[|a|] == c;
    assert forall i :: 0 <= i < |a| ==> s[i] == a[i] && a[i] in a;
  }

  lemma ChompTail(pre: string, v: string)
    requires pre != "" && !EndsWith(pre, '\r')
    ensures Chomp(pre + v) == pre + Chomp(v)
  {
    if v == "" {
      assert pre + v == pre;
    } else {
      assert (pre + v)[|pre + v| - 1] == v[|v| - 1];
    }
  }

  lemma KeyLineItem(raw: seq<string>, n: nat, k: Schema, key: string, val: string)
    requires n + 1 < |raw| && raw[n] == key + "=" + val && KeyOk(key) && key in k.strs
    ensures ItemOf(raw, n, k) == var r := ReadValue(raw, n + 1, Chomp(val));
                                 if r.None? then Bad else Str(key, r.value.0, r.value.1)
  {
    ChompTail(key + "=", val);
    var v := Chomp(val);
    var line := key + "=" + v;
    assert Content(raw, n) == line;
    IndexOfSplit(key, '=', v);
    assert line == key + ['='] + v;
    assert line[..|key|] == key && line[|key| + 1..] == v && line[0] == key[0];
  }

  // ----- reading a single-line value

  lemma SingleLineIff(raw: seq<string>, n: nat, v: string)
    requires '\n' !in v
    ensures ReadValue(raw, n, Chomp(v)) == Some((v, n)) <==> WellFormed(v)
  {
    HeredocAfter(raw, n);
  }

  // ----- reading a multi-line value

  function Chomped(ls: seq<string>): (r: seq<string>)
    ensures |r| == |ls| && forall i :: 0 <= i < |ls| ==> r[i] == Chomp(ls[i])
  {
    seq(|ls|, i requires 0 <= i < |ls| => Chomp(ls[i]))
  }

  lemma ChompEof(l: string)
    ensures "EOF" <= Chomp(l) <==> "EOF" <= l
  {
  }

  /** `ls` stands at line `m`, and something follows. */
  ghost predicate StandsAt(raw: seq<string>, m: nat, ls: seq<string>) {
    m + |ls| < |raw| && forall i :: 0 <= i < |ls| ==> raw[m + i] == ls[i]
  }

  lemma HeredocLineRead(raw: seq<string>, m: nat, l: string)
    requires m + 1 < |raw| && raw[m] == l && !("EOF" <= l)
    ensures Heredoc(raw, m) == Prepend(Chomp(l) + "\n", Heredoc(raw, m + 1))
  {
    ChompEof(l);
  }

  lemma EndedChomped(ls: seq<string>)
    requires ls != []
    ensures Ended(Chomped(ls)) == (Chomp(ls[0]) + "\n") + Ended(Chomped(ls[1..]))
  {
    assert Chomped(ls)[0] == Chomp(ls[0]) && Chomped(ls)[1..] == Chomped(ls[1..]);
  }

  lemma {:induction false} HeredocWalk(raw: seq<string>, m: nat, ls: seq<string>)
    requires StandsAt(raw, m, ls) && NoEof(ls)
    ensures Heredoc(raw, m) == Prepend(Ended(Chomped(ls)), Heredoc(raw, m + |ls|))
    decreases |ls|
  {
    if ls == [] {
      PrependTwice("", "", Heredoc(raw, m));
    } else {
      var rest := ls[1..];
      assert ls == [ls[0]] + rest;
      StandsBehind(raw, m, ls[0], rest);
      HeredocLineRead(raw, m, ls[0]);
      HeredocWalk(raw, m + 1, rest);
      EndedChomped(ls);
      PrependTwice(Chomp(ls[0]) + "\n", Ended(Chomped(rest)), Heredoc(raw, m + |ls|));
    }
  }

  /** A here-document stops at its first EOF line. */
  lemma HeredocStops(raw: seq<string>, m: nat, ls: seq<string>, j: nat)
    requires StandsAt(raw, m, ls) && j < |ls| && "EOF" <= ls[j] && NoEof(ls[..j])
    ensures Heredoc(raw, m) == Some((Ended(Chomped(ls[..j])), m + j + 1))
  {
    HeredocWalk(raw, m, ls[..j]);
    assert raw[m + j] == ls[j];
    ChompEof(ls[j]);
    assert Heredoc(raw, m + j) == Some(("", m + j + 1));
    assert Ended(Chomped(ls[..j])) + "" == Ended(Chomped(ls[..j]));
  }

  lemma FirstEof(ls: seq<string>) returns (j: nat)
    requires !NoEof(ls)
    ensures j < |ls| && "EOF" <= ls[j] && NoEof(ls[..j])
  {
    j := 0;
    while !("EOF" <= ls[j])
      invariant j < |ls| && NoEof(ls[..j])
      invariant exists i :: j <= i < |ls| && "EOF" <= ls[i]
      decreases |ls| - j
    {
      assert ls[..j + 1] == ls[..j] + [ls[j]];
      var i :| j <= i < |ls| && "EOF" <= ls[i];
      assert j + 1 <= i;
      j := j + 1;
    }
  }

  lemma {:induction false} ChompedLength(ls: seq<string>)
    ensures |Ended(Chomped(ls))| <= |Ended(ls)|
    ensures |Ended(Chomped(ls))| == |Ended(ls)| <==> NoCr(ls)
    ensures NoCr(ls) ==> Chomped(ls) == ls
  {
    if ls != [] {
      ChompedLength(ls[1..]);
      assert Chomped(ls)[1..] == Chomped(ls[1..]);
      assert NoCr(ls) <==> !EndsWith(ls[0], '\r') && NoCr(ls[1..]);
    }
  }

  lemma {:induction false} HeredocEndsLine(raw: seq<string>, n: nat)
    ensures Heredoc(raw, n).Some? ==> Heredoc(raw, n).value.0 == "" || EndsWith(Heredoc(raw, n).value.0, '\n')
    decreases |raw| - n
  {
    if n < |raw| {
      HeredocEndsLine(raw, n + 1);
    }
  }

  /** The text of a value that is not ended by a newline does not end with one either. */
  lemma UnendedValue(v: string)
    requires '\n' in v && LastLine(v) != ""
    ensures v != "" && !EndsWith(v, '\n')
  {
    LinesInverse(v);
    LinesHaveNoNewline(v);
    var last := LastLine(v);
    assert last in Lines(v);
    assert v == Ended(Body(v)) + last;
    assert v[|v| - 1] == last[|last| - 1] && last[|last| - 1] in last;
  }

  lemma MultiLineIff(raw: seq<string>, m: nat, v: string)
    requires '\n' in v && StandsAt(raw, m, Body(v) + [LastLine(v) + "EOF"])
    ensures Heredoc(raw, m) == Some((v, m + |Body(v)| + 1)) <==> WellFormed(v)
  {
    var ls, last := Body(v), LastLine(v);
    if !NoEof(ls) {
      EofInside(raw, m, v);
    } else if last != "" {
      UnendedValue(v);
      HeredocEndsLine(raw, m);
    } else {
      EofBehind(raw, m, v);
    }
  }

  lemma EofInside(raw: seq<string>, m: nat, v: string)
    requires '\n' in v && StandsAt(raw, m, Body(v) + [LastLine(v) + "EOF"]) && !NoEof(Body(v))
    ensures Heredoc(raw, m) != Some((v, m + |Body(v)| + 1))
  {
    var ls, all := Body(v), Body(v) + [LastLine(v) + "EOF"];
    var j := FirstEof(ls);
    assert all[j] == ls[j] && all[..j] == ls[..j];
    HeredocStops(raw, m, all, j);
  }

  lemma EofBehind(raw: seq<string>, m: nat, v: string)
    requires '\n' in v && StandsAt(raw, m, Body(v) + [LastLine(v) + "EOF"]) && NoEof(Body(v)) && LastLine(v) == ""
    ensures Heredoc(raw, m) == Some((v, m + |Body(v)| + 1)) <==> NoCr(Body(v))
  {
    var ls, all := Body(v), Body(v) + [LastLine(v) + "EOF"];
    assert all[..|ls|] == ls && all[|ls|] == "EOF";
    HeredocStops(raw, m, all, |ls|);
    LinesInverse(v);
    assert v == Ended(ls);
    ChompedLength(ls);
  }

  lemma ReadBackSingle(raw: seq<string>, n: nat, k: Schema, key: string, v: string)
    requires KeyOk(key) && key in k.strs && '\n' !in v && n + 1 < |raw| && raw[n] == key + "=" + v
    ensures ItemOf(raw, n, k) == Str(key, v, n + 1) <==> WellFormed(v)
  {
    KeyLineItem(raw, n, k, key, v);
    SingleLineIff(raw, n + 1, v);
  }

  lemma ReadBackMulti(raw: seq<string>, n: nat, k: Schema, key: string, v: string, next: nat, ok: bool)
    requires KeyOk(key) && key in k.strs && n + 1 < |raw| && raw[n] == key + "=" + "<<EOF"
    requires Heredoc(raw, n + 1) == Some((v, next)) <==> ok
    ensures ItemOf(raw, n, k) == Str(key, v, next) <==> ok
  {
    HeredocKey(raw, n, k, key);
  }

  lemma ReadEof(raw: seq<string>, n: nat)
    ensures ReadValue(raw, n, Chomp("<<EOF")) == Heredoc(raw, n)
  {
    assert Chomp("<<EOF") == "<<EOF" && "<<EOF"[2..] == "EOF";
  }

  lemma HeredocKey(raw: seq<string>, n: nat, k: Schema, key: string)
    requires KeyOk(key) && key in k.strs && n + 1 < |raw| && raw[n] == key + "=" + "<<EOF"
    ensures ItemOf(raw, n, k) == var r := Heredoc(raw, n + 1); if r.None? then Bad else Str(key, r.value.0, r.value.1)
  {
    KeyLineItem(raw, n, k, key, "<<EOF");
    ReadEof(raw, n + 1);
  }

  lemma ReadBackLines(raw: seq<string>, n: nat, v: string, first: string)
    requires '\n' in v && StandsAt(raw, n, [first] + (Body(v) + [LastLine(v) + "EOF"]))
    ensures n + 1 < |raw| && raw[n] == first && (Heredoc(raw, n + 1) == Some((v, n + |Body(v)| + 2)) <==> WellFormed(v))
  {
    var rest := Body(v) + [LastLine(v) + "EOF"];
    assert raw[n + 0] == ([first] + rest)[0];
    StandsBehind(raw, n, first, rest);
    MultiLineIff(raw, n + 1, v);
  }

  /** Wherever the printed key stands, followed by another line, reading it gives the value back and consumes exactly
      its lines if and only if the value is well formed. */
  lemma ReadBackIff(raw: seq<string>, n: nat, k: Schema, key: string, v: string)
    requires KeyOk(key) && key in k.strs && StandsAt(raw, n, Lines(FormatKv(key, v)))
    ensures ItemOf(raw, n, k) == Str(key, v, n + |Lines(FormatKv(key, v))|) <==> WellFormed(v)
  {
    FormatLines(key, v);
    ReadBackOf(raw, n, k, key, v, Lines(FormatKv(key, v)));
  }

  lemma ReadBackOf(raw: seq<string>, n: nat, k: Schema, key: string, v: string, ls: seq<string>)
    requires KeyOk(key) && key in k.strs && StandsAt(raw, n, ls)
    requires '\n' !in v ==> ls == [key + "=" + v]
    requires '\n' in v ==> ls == [key + "=" + "<<EOF"] + (Body(v) + [LastLine(v) + "EOF"])
    ensures ItemOf(raw, n, k) == Str(key, v, n + |ls|) <==> WellFormed(v)
  {
    if '\n' !in v {
      ReadBackShort(raw, n, k, key, v);
    } else {
      ReadBackLong(raw, n, k, key, v);
    }
  }

  lemma ReadBackShort(raw: seq<string>, n: nat, k: Schema, key: string, v: string)
    requires KeyOk(key) && key in k.strs && '\n' !in v && StandsAt(raw, n, [key + "=" + v])
    ensures ItemOf(raw, n, k) == Str(key, v, n + 1) <==> WellFormed(v)
  {
    assert raw[n + 0] == [key + "=" + v][0];
    ReadBackSingle(raw, n, k, key, v);
  }

  lemma ReadBackLong(raw: seq<string>, n: nat, k: Schema, key: string, v: string)
    requires KeyOk(key) && key in k.strs && '\n' in v
    requires StandsAt(raw, n, [key + "=" + "<<EOF"] + (Body(v) + [LastLine(v) + "EOF"]))
    ensures ItemOf(raw, n, k) == Str(key, v, n + |Body(v)| + 2) <==> WellFormed(v)
  {
    var next, ok := n + |Body(v)| + 2, WellFormed(v);
    ReadBackLines(raw, n, v, key + "=" + "<<EOF");
    assert Heredoc(raw, n + 1) == Some((v, next)) <==> ok;
    ReadBackMulti(raw, n, k, key, v, next, ok);
  }

  lemma StandsBehind(raw: seq<string>, n: nat, first: string, rest: seq<string>)
    requires StandsAt(raw, n, [first] + rest)
    ensures StandsAt(raw, n + 1, rest) && n + 1 < |raw| && raw[n] == first
  {
    assert raw[n + 0] == ([first] + rest)[0];
    var ls := [first] + rest;
    forall i | 0 <= i < |rest| ensures raw[n + 1 + i] == rest[i] {
      assert raw[n + (i + 1)] == ls[i + 1];
    }
  }

  /** The keys of the loader have the shape the printer relies on. */
  lemma SchemaKeysOk(num: string -> Option<int>, key: string)
    requires key in CmdTestSchema(num).strs
    ensures KeyOk(key)
  {
    assert key == "NAME" || key == "FILE" || key == "ARGS" || key == "TOOL" || key == "ENVS" || key == "SOURCE"
        || key == "CMDS" || key == "EXPECT" || key == "EXPECT_ERR" || key == "REGEXP_FILTER_OUT" || key == "REGEXP_FILTER_ERR";
  }
}
