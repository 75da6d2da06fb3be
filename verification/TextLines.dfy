/** Texts as lists of lines. */
module TextLines {

  /** Puts a character in front of the first line. */
  function Glue(c: char, r: seq<string>): seq<string>
    requires r != []
  {
    [[c] + r[0]] + r[1..]
  }

  /** The lines after one more character in front. */
  function WithFirst(c: char, r: seq<string>): seq<string>
    requires r != []
  {
    if c == '\n' then [""] + r else Glue(c, r)
  }

  /** The lines of a text: one more than it has newlines. */
  function Lines(s: string): (r: seq<string>)
    ensures |r| >= 1
  {
    if s == "" then [""] else WithFirst(s[0], Lines(s[1..]))
  }

  /** `strchr`: the first position of `c`, or the length if there is none. */
  function IndexOf(s: string, c: char): (r: nat)
    ensures r <= |s| && (r < |s| ==> s[r] == c) && (forall i :: 0 <= i < r ==> s[i] != c)
    ensures r == |s| <==> c !in s
  {
    if s == "" then 0 else if s[0] == c then 0 else 1 + IndexOf(s[1..], c)
  }

  lemma {:induction false} OneLine(s: string)
    requires '\n' !in s
    ensures Lines(s) == [s]
  {
    if s != "" {
      assert s[0] in s && s == [s[0]] + s[1..];
      OneLine(s[1..]);
    }
  }

  lemma GlueConcat(c: char, r: seq<string>, q: seq<string>)
    requires r != []
    ensures Glue(c, r + q) == Glue(c, r) + q
  {
  }

  lemma LinesOf(c: char, rest: string)
    ensures Lines([c] + rest) == WithFirst(c, Lines(rest))
  {
    assert ([c] + rest)[1..] == rest;
  }

  lemma FirstMore(c: char, r: seq<string>, q: seq<string>)
    requires r != []
    ensures WithFirst(c, r + q) == WithFirst(c, r) + q
  {
    if c == '\n' {
      assert [""] + (r + q) == ([""] + r) + q;
    } else {
      GlueConcat(c, r, q);
    }
  }

  /** A newline between two texts separates their lines. */
  lemma {:induction false} LinesJoin(a: string, b: string)
    ensures Lines(a + "\n" + b) == Lines(a) + Lines(b)
  {
    var t := a + "\n" + b;
    if a == "" {
      assert t == "\n" + b && t[1..] == b;
    } else {
      LinesJoin(a[1..], b);
      assert t == [a[0]] + (a[1..] + "\n" + b);
      LinesOf(a[0], a[1..] + "\n" + b);
      LinesOf(a[0], a[1..]);
      assert a == [a[0]] + a[1..];
      FirstMore(a[0], Lines(a[1..]), Lines(b));
    }
  }

  /** Cutting at the first newline gives the first line and the rest. */
  lemma FirstLine(s: string)
    ensures Lines(s)[0] == s[..IndexOf(s, '\n')]
    ensures IndexOf(s, '\n') < |s| ==> Lines(s)[1..] == Lines(s[IndexOf(s, '\n') + 1..])
    ensures IndexOf(s, '\n') == |s| ==> |Lines(s)| == 1
  {
    var k := IndexOf(s, '\n');
    var first := s[..k];
    assert '\n' !in first;
    OneLine(first);
    if k < |s| {
      var rest := s[k + 1..];
      assert s == first + "\n" + rest;
      LinesJoin(first, rest);
    } else {
      assert s == first;
    }
  }

  function Newlines(s: string): nat {
    if s == "" then 0 else (if s[0] == '\n' then 1 else 0) + Newlines(s[1..])
  }

  lemma {:induction false} NewlinesCountLines(s: string)
    ensures |Lines(s)| == Newlines(s) + 1
  {
    if s != "" {
      NewlinesCountLines(s[1..]);
    }
  }

  /** The text of lines that are each ended by a newline. */
  function Ended(ls: seq<string>): string {
    if ls == [] then "" else ls[0] + "\n" + Ended(ls[1..])
  }

  lemma {:induction false} EndedConcat(a: seq<string>, b: seq<string>)
    ensures Ended(a + b) == Ended(a) + Ended(b)
  {
    if a == [] {
      assert a + b == b;
    } else {
      EndedConcat(a[1..], b);
      assert (a + b)[0] == a[0] && (a + b)[1..] == a[1..] + b;
      assert (a[0] + "\n") + (Ended(a[1..]) + Ended(b)) == (a[0] + "\n" + Ended(a[1..])) + Ended(b);
    }
  }

  /** The text of lines that are separated by newlines. */
  function Joined(ls: seq<string>): string
    requires ls != []
  {
    Ended(ls[..|ls| - 1]) + ls[|ls| - 1]
  }

  lemma FrontOf(l: string, rest: seq<string>)
    requires rest != []
    ensures ([l] + rest)[..|rest|] == [l] + rest[..|rest| - 1] && ([l] + rest)[|rest|] == rest[|rest| - 1]
  {
  }

  lemma JoinedGlue(c: char, r: seq<string>)
    requires r != []
    ensures Joined(Glue(c, r)) == [c] + Joined(r)
  {
    if |r| > 1 {
      var m := r[1..|r| - 1];
      assert r[1..][..|r| - 2] == m;
      FrontOf([c] + r[0], r[1..]);
      FrontOf(r[0], r[1..]);
      assert r == [r[0]] + r[1..];
      assert Ended([[c] + r[0]] + m) == ([c] + r[0]) + "\n" + Ended(m);
      assert Ended([r[0]] + m) == r[0] + "\n" + Ended(m);
      assert ([c] + r[0]) + "\n" + Ended(m) == [c] + (r[0] + "\n" + Ended(m));
    }
  }

  lemma JoinedBlank(r: seq<string>)
    requires r != []
    ensures Joined([""] + r) == "\n" + Joined(r)
  {
    assert ([""] + r)[..|r|] == [""] + r[..|r| - 1];
    assert Ended([""] + r[..|r| - 1]) == "" + "\n" + Ended(r[..|r| - 1]);
  }

  /** A text is its lines put together again. */
  lemma {:induction false} LinesInverse(s: string)
    ensures Joined(Lines(s)) == s
  {
    if s != "" {
      LinesInverse(s[1..]);
      assert s == [s[0]] + s[1..];
      if s[0] == '\n' {
        JoinedBlank(Lines(s[1..]));
      } else {
        JoinedGlue(s[0], Lines(s[1..]));
      }
    }
  }

  /** No line holds a newline. */
  lemma {:induction false} LinesHaveNoNewline(s: string)
    ensures forall l :: l in Lines(s) ==> '\n' !in l
  {
    if s != "" {
      LinesHaveNoNewline(s[1..]);
      var r := Lines(s[1..]);
      if s[0] != '\n' {
        forall l | l in Lines(s) ensures '\n' !in l {
          if l == [s[0]] + r[0] {
            assert r[0] in r;
          }
        }
      }
    }
  }
}
