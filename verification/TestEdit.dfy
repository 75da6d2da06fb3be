/** Replacing lines of a test file, and what that leaves of the items in it. */
module TestEdit {
  import opened Machine
  import opened TextLines
  import opened TestFile
  import opened TestFormat

  // ----- replace_lines

  lemma {:induction false} EndedLines(ls: seq<string>, t: string)
    requires forall i :: 0 <= i < |ls| ==> '\n' !in ls[i]
    ensures Lines(Ended(ls) + t) == ls + Lines(t)
  {
    if ls == [] {
      assert Ended(ls) + t == t;
    } else {
      EndedLines(ls[1..], t);
      var rest := Ended(ls[1..]) + t;
      Regroup(ls[0] + "\n", Ended(ls[1..]), t);
      LinesAhead(ls[0], rest, ls[1..], Lines(t));
      assert ls == [ls[0]] + ls[1..];
    }
  }

  lemma LinesAhead(l: string, rest: string, ls: seq<string>, q: seq<string>)
    requires '\n' !in l && Lines(rest) == ls + q
    ensures Lines((l + "\n") + rest) == ([l] + ls) + q
  {
    LinesJoin(l, rest);
    OneLine(l);
    assert [l] + (ls + q) == ([l] + ls) + q;
  }

  /** Behind the first `n` lines of the text. */
  ghost predicate Behind(src: string, n: nat, pre: string, suf: string) {
    n < |Lines(src)| && pre == Ended(Lines(src)[..n]) && src == pre + suf && Lines(suf) == Lines(src)[n..]
  }

  lemma EndedSnoc(ls: seq<string>, l: string)
    ensures Ended(ls + [l]) == Ended(ls) + (l + "\n")
  {
    EndedConcat(ls, [l]);
    assert Ended([l]) == l + "\n" + Ended([]);
    assert l + "\n" + "" == l + "\n";
  }

  lemma Regroup(a: string, b: string, c: string)
    ensures a + (b + c) == (a + b) + c
  {
  }

  lemma CutLine(suf: string, k: nat)
    requires k < |suf| && suf[k] == '\n'
    ensures suf == suf[..k + 1] + suf[k + 1..] && suf[..k + 1] == suf[..k] + "\n"
  {
  }

  lemma BehindStep(src: string, n: nat, pre: string, suf: string)
    requires Behind(src, n, pre, suf) && IndexOf(suf, '\n') < |suf|
    ensures var k := IndexOf(suf, '\n') + 1; Behind(src, n + 1, pre + suf[..k], suf[k..])
  {
    FirstLine(suf);
    var raw, k := Lines(src), IndexOf(suf, '\n');
    CutLine(suf, k);
    NextOf(raw, n, Lines(suf));
    assert suf[..k] == raw[n];
    EndedSnoc(raw[..n], raw[n]);
    Regroup(pre, suf[..k + 1], suf[k + 1..]);
  }

  lemma NextOf(raw: seq<string>, n: nat, rest: seq<string>)
    requires n < |raw| && rest == raw[n..]
    ensures rest[0] == raw[n] && rest[1..] == raw[n + 1..] && raw[..n + 1] == raw[..n] + [raw[n]]
  {
  }

  /** Skips lines from `line` up to `to`; None when the text has fewer. */
  method SkipTo(ghost src: string, ghost pre0: string, suf0: string, line0: nat, to: nat)
    returns (suf: Option<string>, line: nat, ghost pre: string)
    requires line0 >= 1 && Behind(src, line0 - 1, pre0, suf0)
    ensures suf.Some? <==> to <= |Lines(src)|
    ensures suf.Some? ==> line == (if to > line0 then to else line0) && Behind(src, line - 1, pre, suf.value)
  {
    var begin := suf0;
    line, pre := line0, pre0;
    while line < to
      invariant line0 <= line && (line <= to || line == line0) && Behind(src, line - 1, pre, begin)
    {
      var k := IndexOf(begin, '\n');
      FirstLine(begin);
      if k == |begin| {
        return None, line, pre;
      }
      BehindStep(src, line - 1, pre, begin);
      pre, begin := pre + begin[..k + 1], begin[k + 1..];
      line := line + 1;
    }
    suf := Some(begin);
  }

  /** The lines of the result: those before `from`, the new ones, and those from `to` on. */
  method ReplaceLines(src: string, from: nat, to: nat, news: string) returns (r: Option<string>)
    requires 1 <= from <= to
    ensures r.Some? <==> from <= |Lines(src)|
    ensures r.Some? ==>
              Lines(r.value) ==
              Lines(src)[..from - 1] + (Lines(news) + if to <= |Lines(src)| then Lines(src)[to - 1..] else [""])
  {
    assert Behind(src, 0, "", src) by { assert src == "" + src; }
    ghost var pre;
    var begin, line;
    begin, line, pre := SkipTo(src, "", src, 1, from);
    if begin.None? {
      return None;
    }
    var tail := CutTail(src, pre, begin.value, line, to);
    r := Some(src[..|src| - |begin.value|] + (news + "\n" + tail));
    ReplaceResult(src, from - 1, pre, begin.value, news, tail);
  }

  /** What is left from line `to` on, nothing if there are fewer lines. */
  method CutTail(ghost src: string, ghost pre: string, begin: string, line: nat, to: nat) returns (tail: string)
    requires 1 <= line <= to && Behind(src, line - 1, pre, begin)
    ensures Lines(tail) == if to <= |Lines(src)| then Lines(src)[to - 1..] else [""]
  {
    ghost var pre';
    var end, line';
    end, line', pre' := SkipTo(src, pre, begin, line, to);
    tail := if end.Some? then end.value else "";
  }

  lemma ReplaceResult(src: string, n: nat, pre: string, suf: string, news: string, tail: string)
    requires Behind(src, n, pre, suf)
    ensures Lines(src[..|src| - |suf|] + (news + "\n" + tail)) == Lines(src)[..n] + (Lines(news) + Lines(tail))
  {
    assert src[..|src| - |suf|] == pre;
    LinesHaveNoNewline(src);
    ReplacedLines(Lines(src)[..n], pre, news, tail);
  }

  lemma ReplacedLines(ls: seq<string>, head: string, news: string, tail: string)
    requires head == Ended(ls) && forall i :: 0 <= i < |ls| ==> '\n' !in ls[i]
    ensures Lines(head + (news + "\n" + tail)) == ls + (Lines(news) + Lines(tail))
  {
    EndedLines(ls, news + "\n" + tail);
    LinesJoin(news, tail);
  }

  // ----- items do not depend on where they stand

  lemma {:induction false} HeredocShift(raw: seq<string>, n: nat, raw': seq<string>, n': nat)
    requires n <= |raw| && n' <= |raw'| && raw[n..] == raw'[n'..]
    ensures Heredoc(raw', n') == var r := Heredoc(raw, n); if r.None? then None else Some((r.value.0, r.value.1 - n + n'))
    decreases |raw| - n
  {
    HeredocAfter(raw, n);
    HeredocAfter(raw, n + 1);
    assert |raw| - n == |raw'| - n';
    if n < |raw| {
      assert raw[n..][0] == raw'[n'..][0];
      assert raw[n..][1..] == raw[n + 1..] && raw'[n'..][1..] == raw'[n' + 1..];
      HeredocShift(raw, n + 1, raw', n' + 1);
    }
  }

  function ShiftedItem(item: Item, n: nat, n': nat): Item
    requires item.Str? ==> item.next >= n
  {
    if item.Str? then item.(next := item.next - n + n') else item
  }

  lemma ItemShift(raw: seq<string>, n: nat, raw': seq<string>, n': nat, k: Schema)
    requires n < |raw| && n' < |raw'| && raw[n..] == raw'[n'..]
    ensures var item := ItemOf(raw, n, k);
            (item.Str? ==> item.next > n) && ItemOf(raw', n', k) == ShiftedItem(item, n, n')
  {
    assert raw[n..][0] == raw'[n'..][0];
    SameSuffix(raw, n, raw', n', n + 1);
    assert Content(raw, n) == Content(raw', n');
    ValueShift(raw, n + 1, raw', n' + 1);
    ItemByValue(raw, n, raw', n', k);
  }

  lemma ValueShift(raw: seq<string>, n: nat, raw': seq<string>, n': nat)
    requires n <= |raw| && n' <= |raw'| && raw[n..] == raw'[n'..]
    ensures SameReads(raw, n, raw', n')
  {
    HeredocShift(raw, n, raw', n');
    HeredocAfter(raw, n);
  }

  /** Same value, ending equally far behind. */
  ghost predicate SameValue(r: Option<(string, nat)>, n: nat, r': Option<(string, nat)>, n': nat) {
    if r.None? then r'.None?
    else r.value.1 >= n && r' == Some((r.value.0, r.value.1 - n + n'))
  }

  ghost predicate SameReads(raw: seq<string>, m: nat, raw': seq<string>, m': nat) {
    forall val :: SameValue(ReadValue(raw, m, val), m, ReadValue(raw', m', val), m')
  }

  /** An item is determined by its line and, for a string key, by the value read behind it. */
  lemma ItemByValue(raw: seq<string>, n: nat, raw': seq<string>, n': nat, k: Schema)
    requires n < |raw| && n' < |raw'| && Content(raw, n) == Content(raw', n')
    requires SameReads(raw, n + 1, raw', n' + 1)
    ensures var item := ItemOf(raw, n, k);
            (item.Str? ==> item.next > n) && ItemOf(raw', n', k) == ShiftedItem(item, n, n')
  {
    var val := ValueOf(Content(raw, n));
    assert SameValue(ReadValue(raw, n + 1, val), n + 1, ReadValue(raw', n' + 1, val), n' + 1);
  }

  /** The texts agree on the lines n to m and both go on behind them. */
  ghost predicate Agree(raw: seq<string>, raw': seq<string>, n: nat, m: nat) {
    m < |raw| && m < |raw'| && forall i :: n <= i < m ==> raw[i] == raw'[i]
  }

  lemma {:induction false} HeredocSame(raw: seq<string>, raw': seq<string>, n: nat, m: nat)
    requires Agree(raw, raw', n, m) && Heredoc(raw, n).Some? && Heredoc(raw, n).value.1 <= m
    ensures Heredoc(raw', n) == Heredoc(raw, n)
    decreases |raw| - n
  {
    HeredocAfter(raw, n);
    if !("EOF" <= Content(raw, n)) {
      HeredocSame(raw, raw', n + 1, m);
    }
  }

  lemma ReadValueSame(raw: seq<string>, raw': seq<string>, n: nat, m: nat, val: string)
    requires Agree(raw, raw', n, m) && ReadValue(raw, n, val).Some? && ReadValue(raw, n, val).value.1 <= m
    ensures ReadValue(raw', n, val) == ReadValue(raw, n, val)
  {
    if "<<" <= val {
      HeredocSame(raw, raw', n, m);
    }
  }

  /** An item that ends before the texts part is the same in both. */
  lemma ItemSame(raw: seq<string>, raw': seq<string>, n: nat, m: nat, k: Schema)
    requires n < m && Agree(raw, raw', n, m) && !ItemOf(raw, n, k).Bad? && After(ItemOf(raw, n, k), n) <= m
    ensures ItemOf(raw', n, k) == ItemOf(raw, n, k)
  {
    var line := Content(raw, n);
    assert Content(raw', n) == line;
    var r, r' := ReadValue(raw, n + 1, ValueOf(line)), ReadValue(raw', n + 1, ValueOf(line));
    if r.Some? && r.value.1 <= m {
      ReadValueSame(raw, raw', n + 1, m, ValueOf(line));
    }
    LineItemSame(line, r, r', n, m, k);
  }

  lemma LineItemSame(line: string, r: Option<(string, nat)>, r': Option<(string, nat)>, n: nat, m: nat, k: Schema)
    requires !LineItem(line, r, k).Bad? && After(LineItem(line, r, k), n) <= m
    requires r.Some? && r.value.1 <= m ==> r' == r
    ensures LineItem(line, r', k) == LineItem(line, r, k)
  {
  }

  lemma SameSuffix(raw: seq<string>, n: nat, raw': seq<string>, n': nat, m: nat)
    requires n <= m <= |raw| && n' <= |raw'| && raw[n..] == raw'[n'..]
    ensures m - n + n' <= |raw'| && raw[m..] == raw'[m - n + n'..]
  {
    assert raw[m..] == raw[n..][m - n..];
    assert raw'[m - n + n'..] == raw'[n'..][m - n..];
  }
}
