/** The decision code generated from the trie, and what it does when it runs. */
module ExtensionCode {
  import opened Machine
  import opened ExtensionTrie

  // ----- the generated lines

  /** A line of generated C. ElseIf and Else also close the branch before them. */
  datatype Line =
    | StopWithMatch(enum: string)
    | StopWithoutMatch
    | DoIfNotAnyOf(chars: string, enum: string)
    | If(c: char)
    | ElseIf(c: char)
    | Else
    | Close
    | Advance
    | Note

  ghost predicate IsMin(cs: set<char>, c: char) {
    c in cs && forall d :: d in cs ==> c <= d
  }

  function MinChar(cs: set<char>): (c: char)
    requires cs != {}
    ensures IsMin(cs, c)
  {
    SomeMin(cs);
    var c :| c in cs && forall d :: d in cs ==> c <= d; c
  }

  lemma {:induction false} SomeMin(cs: set<char>)
    requires cs != {}
    ensures exists c :: IsMin(cs, c)
    decreases cs
  {
    var c :| c in cs;
    var rest := cs - {c};
    if rest == {} {
      assert cs == {c};
      assert IsMin(cs, c);
    } else {
      SomeMin(rest);
      var m :| IsMin(rest, m);
      assert cs == rest + {c};
      assert IsMin(cs, if m <= c then m else c);
    }
  }

  /** `sorted` on the characters of the children. */
  function SortedKeys(cs: set<char>): (ks: string)
    ensures forall c :: c in ks <==> c in cs
    ensures forall i, j :: 0 <= i < j < |ks| ==> ks[i] < ks[j]
    ensures cs != {} ==> ks != ""
    decreases cs
  {
    if cs == {} then ""
    else
      var c := MinChar(cs);
      var rest := SortedKeys(cs - {c});
      assert forall d :: d in rest ==> c < d;
      [c] + rest
  }

  function StopLine(e: Option<string>): Line {
    if e.Some? then StopWithMatch(e.value) else StopWithoutMatch
  }

  function Head(node: Node, ks: string): seq<Line> {
    if node.enum.Some? then [DoIfNotAnyOf(ks, node.enum.value), Note, Note] else [Note]
  }

  function GenerateNode(nodes: seq<Node>, i: nat): seq<Line>
    requires NodesOk(nodes) && i < |nodes|
    decreases |nodes| - i, 1, 0
  {
    if nodes[i].children == map[] then [StopLine(nodes[i].enum)]
    else
      var ks := SortedKeys(nodes[i].children.Keys);
      Head(nodes[i], ks) + GenerateArms(nodes, i, ks, 0)
  }

  /** The branches for the children from number `j` on, and the final else. */
  function GenerateArms(nodes: seq<Node>, i: nat, ks: string, j: nat): seq<Line>
    requires NodesOk(nodes) && i < |nodes| && j <= |ks| && forall c :: c in ks ==> c in nodes[i].children
    decreases |nodes| - i, 0, |ks| - j
  {
    if j == |ks| then [Else, Note, StopLine(nodes[i].enum), Close]
    else
      [if j == 0 then If(ks[j]) else ElseIf(ks[j]), Advance]
      + (GenerateNode(nodes, nodes[i].children[ks[j]]) + GenerateArms(nodes, i, ks, j + 1))
  }

  function GenerateBody(nodes: seq<Node>): seq<Line>
    requires NodesOk(nodes)
  {
    if nodes[0].children == map[] then [] else GenerateNode(nodes, 0) + [Note, Note, StopWithoutMatch]
  }

  // ----- running them

  datatype Why = AtEnd | AtNumber | AtUnderscore | AtUnexpected

  /** What the parser returns: whether it matched and why it stopped, with the new index. */
  datatype Outcome = Stop(enum: Option<string>, idx: nat, why: Why) | NoReturn

  /** The character under the pointer. */
  function CharAt(s: string, p: nat): char
    requires p <= |s|
  {
    if p < |s| then s[p] else '\0'
  }

  function WhyAt(s: string, p: nat): Why
    requires p <= |s|
  {
    var c := CharAt(s, p);
    if c == '\0' then AtEnd else if '0' <= c <= '9' then AtNumber else if c == '_' then AtUnderscore else AtUnexpected
  }

  function StopAt(e: Option<string>, s: string, p: nat): Outcome
    requires p <= |s|
  {
    Stop(e, p, WhyAt(s, p))
  }

  /** Runs the lines. Behind the last one, or with the pointer behind the string, there is nothing to return. */
  function Run(code: seq<Line>, s: string, p: nat): Outcome
    requires p <= |s|
    decreases |code|
  {
    if code == [] then NoReturn
    else
      var rest := code[1..];
      match code[0]
      case StopWithMatch(e) => StopAt(Some(e), s, p)
      case StopWithoutMatch => StopAt(None, s, p)
      case DoIfNotAnyOf(cs, e) => if CharAt(s, p) in cs then Run(rest, s, p) else StopAt(Some(e), s, p)
      case If(c) => if CharAt(s, p) == c then Run(rest, s, p) else Seek(rest, 0, s, p)
      case ElseIf(_) => Leave(rest, 0, s, p)
      case Else => Leave(rest, 0, s, p)
      case Close => Run(rest, s, p)
      case Advance => if p < |s| then Run(rest, s, p + 1) else NoReturn
      case Note => Run(rest, s, p)
  }

  /** A condition failed: looks for the next branch of the same chain, over `d` open inner chains. */
  function Seek(code: seq<Line>, d: nat, s: string, p: nat): Outcome
    requires p <= |s|
    decreases |code|
  {
    if code == [] then NoReturn
    else
      var rest := code[1..];
      match code[0]
      case If(_) => Seek(rest, d + 1, s, p)
      case ElseIf(c) => if d == 0 && CharAt(s, p) == c then Run(rest, s, p) else Seek(rest, d, s, p)
      case Else => if d == 0 then Run(rest, s, p) else Seek(rest, d, s, p)
      case Close => if d == 0 then Run(rest, s, p) else Seek(rest, d - 1, s, p)
      case _ => Seek(rest, d, s, p)
  }

  /** A branch was run to its end: leaves the chain. */
  function Leave(code: seq<Line>, d: nat, s: string, p: nat): Outcome
    requires p <= |s|
    decreases |code|
  {
    if code == [] then NoReturn
    else
      var rest := code[1..];
      match code[0]
      case If(_) => Leave(rest, d + 1, s, p)
      case Close => if d == 0 then Run(rest, s, p) else Leave(rest, d - 1, s, p)
      case _ => Leave(rest, d, s, p)
  }

  // ----- walking the trie

  /** The same by following the children. */
  function Descended(nodes: seq<Node>, i: nat, s: string, p: nat): Outcome
    requires NodesOk(nodes) && i < |nodes| && p <= |s|
    decreases |s| - p
  {
    if p < |s| && s[p] in nodes[i].children then Descended(nodes, nodes[i].children[s[p]], s, p + 1)
    else StopAt(nodes[i].enum, s, p)
  }

  /** A skipped node leaves no trace. */
  lemma {:induction false} SeekNode(nodes: seq<Node>, i: nat, post: seq<Line>, d: nat, s: string, p: nat)
    requires NodesOk(nodes) && i < |nodes| && p <= |s|
    ensures Seek(GenerateNode(nodes, i) + post, d, s, p) == Seek(post, d, s, p)
    decreases |nodes| - i, 1, 0
  {
    if nodes[i].children == map[] {
      SeekOne(StopLine(nodes[i].enum), post, d, s, p);
      assert [StopLine(nodes[i].enum)] + post == GenerateNode(nodes, i) + post;
    } else {
      var ks := SortedKeys(nodes[i].children.Keys);
      SeekHead(nodes[i], ks, GenerateArms(nodes, i, ks, 0), post, d, s, p);
      SeekArmsOver(nodes, i, ks, 0, post, d, s, p);
    }
  }

  predicate Plain(l: Line) {
    !l.If? && !l.ElseIf? && !l.Else? && !l.Close?
  }

  lemma SeekOne(l: Line, post: seq<Line>, d: nat, s: string, p: nat)
    requires Plain(l) && p <= |s|
    ensures Seek([l] + post, d, s, p) == Seek(post, d, s, p)
  {
    assert ([l] + post)[1..] == post;
  }

  lemma Regroup(a: seq<Line>, b: seq<Line>, c: seq<Line>)
    ensures (a + b) + c == a + (b + c)
  {
  }

  lemma SeekPlain(ls: seq<Line>, post: seq<Line>, d: nat, s: string, p: nat)
    requires p <= |s| && forall i :: 0 <= i < |ls| ==> Plain(ls[i])
    ensures Seek(ls + post, d, s, p) == Seek(post, d, s, p)
    decreases |ls|
  {
    if ls == [] {
      assert ls + post == post;
    } else {
      assert ls + post == [ls[0]] + (ls[1..] + post);
      SeekOne(ls[0], ls[1..] + post, d, s, p);
      SeekPlain(ls[1..], post, d, s, p);
    }
  }

  lemma SeekHead(node: Node, ks: string, arms: seq<Line>, post: seq<Line>, d: nat, s: string, p: nat)
    requires p <= |s|
    ensures Seek((Head(node, ks) + arms) + post, d, s, p) == Seek(arms + post, d, s, p)
  {
    Regroup(Head(node, ks), arms, post);
    SeekPlain(Head(node, ks), arms + post, d, s, p);
  }

  /** A whole chain is skipped together with what is nested in it. */
  lemma {:induction false} SeekArmsOver(nodes: seq<Node>, i: nat, ks: string, j: nat, post: seq<Line>, d: nat, s: string, p: nat)
    requires NodesOk(nodes) && i < |nodes| && j <= |ks| && (forall c :: c in ks ==> c in nodes[i].children) && p <= |s|
    requires ks != ""
    ensures Seek(GenerateArms(nodes, i, ks, j) + post, Depth(d, j), s, p) == Seek(post, d, s, p)
    decreases |nodes| - i, 0, |ks| - j
  {
    if j == |ks| {
      SeekElse(StopLine(nodes[i].enum), post, d, s, p);
    } else {
      var child := nodes[i].children[ks[j]];
      var rest := GenerateArms(nodes, i, ks, j + 1);
      SeekArmsOver(nodes, i, ks, j + 1, post, d, s, p);
      SeekNode(nodes, child, rest + post, d + 1, s, p);
      SeekArmStart(ks[j], j, GenerateNode(nodes, child) + (rest + post), d, s, p);
      ArmLines(nodes, i, ks, j, post);
    }
  }

  /** Inside a chain there is one more to close. */
  function Depth(d: nat, j: nat): nat {
    if j == 0 then d else d + 1
  }

  function ArmStart(c: char, first: bool): seq<Line> {
    [if first then If(c) else ElseIf(c), Advance]
  }

  lemma ArmLines(nodes: seq<Node>, i: nat, ks: string, j: nat, post: seq<Line>)
    requires NodesOk(nodes) && i < |nodes| && j < |ks| && forall c :: c in ks ==> c in nodes[i].children
    ensures GenerateArms(nodes, i, ks, j) + post
            == ArmStart(ks[j], j == 0)
               + (GenerateNode(nodes, nodes[i].children[ks[j]]) + (GenerateArms(nodes, i, ks, j + 1) + post))
  {
    var a, b := GenerateNode(nodes, nodes[i].children[ks[j]]), GenerateArms(nodes, i, ks, j + 1);
    Regroup(ArmStart(ks[j], j == 0), a + b, post);
    Regroup(a, b, post);
  }

  lemma SeekElse(stop: Line, post: seq<Line>, d: nat, s: string, p: nat)
    requires p <= |s| && Plain(stop)
    ensures Seek([Else, Note, stop, Close] + post, d + 1, s, p) == Seek(post, d, s, p)
  {
    var code := [Else, Note, stop, Close] + post;
    assert code[1..] == [Note, stop, Close] + post;
    SeekPlain([Note, stop], [Close] + post, d + 1, s, p);
    assert [Note, stop, Close] + post == [Note, stop] + ([Close] + post);
    assert ([Close] + post)[1..] == post;
  }

  lemma SeekArmStart(c: char, j: nat, post: seq<Line>, d: nat, s: string, p: nat)
    requires p <= |s|
    ensures Seek(ArmStart(c, j == 0) + post, Depth(d, j), s, p) == Seek(post, d + 1, s, p)
  {
    var code := ArmStart(c, j == 0) + post;
    assert code[1..] == [Advance] + post;
    SeekOne(Advance, post, d + 1, s, p);
  }

  // ----- the code does what the walk does

  lemma {:induction false} RunNode(nodes: seq<Node>, i: nat, post: seq<Line>, s: string, p: nat)
    requires NodesOk(nodes) && NoNul(nodes) && i < |nodes| && p <= |s|
    ensures Run(GenerateNode(nodes, i) + post, s, p) == Descended(nodes, i, s, p)
    decreases |nodes| - i, 1, 0
  {
    var node := nodes[i];
    if node.children == map[] {
      assert (GenerateNode(nodes, i) + post)[0] == StopLine(node.enum);
    } else {
      var ks := SortedKeys(node.children.Keys);
      var arms := GenerateArms(nodes, i, ks, 0);
      assert CharAt(s, p) in ks <==> p < |s| && s[p] in node.children;
      RunHead(node, ks, arms, post, s, p);
      if CharAt(s, p) in ks || node.enum.None? {
        RunArms(nodes, i, ks, post, s, p);
      }
    }
  }

  lemma RunHead(node: Node, ks: string, arms: seq<Line>, post: seq<Line>, s: string, p: nat)
    requires p <= |s|
    ensures Run((Head(node, ks) + arms) + post, s, p) ==
            if node.enum.Some? && CharAt(s, p) !in ks then StopAt(node.enum, s, p) else Run(arms + post, s, p)
  {
    Regroup(Head(node, ks), arms, post);
    var q := arms + post;
    RunNote(q, s, p);
    if node.enum.Some? {
      var first := DoIfNotAnyOf(ks, node.enum.value);
      RunNote([Note] + q, s, p);
      assert [Note] + ([Note] + q) == [Note, Note] + q;
      assert ([first, Note, Note] + q)[1..] == [Note, Note] + q;
    }
  }

  lemma RunNote(post: seq<Line>, s: string, p: nat)
    requires p <= |s|
    ensures Run([Note] + post, s, p) == Run(post, s, p)
  {
    assert ([Note] + post)[1..] == post;
  }

  lemma RunArmStart(c: char, post: seq<Line>, s: string, p: nat)
    requires p < |s| && s[p] == c
    ensures Run(ArmStart(c, true) + post, s, p) == Run(post, s, p + 1)
    ensures Seek(ArmStart(c, false) + post, 0, s, p) == Run(post, s, p + 1)
  {
    assert (ArmStart(c, true) + post)[1..] == [Advance] + post;
    assert (ArmStart(c, false) + post)[1..] == [Advance] + post;
    assert ([Advance] + post)[1..] == post;
  }

  lemma MissArmStart(c: char, post: seq<Line>, s: string, p: nat)
    requires p <= |s| && CharAt(s, p) != c
    ensures Run(ArmStart(c, true) + post, s, p) == Seek(post, 0, s, p)
    ensures Seek(ArmStart(c, false) + post, 0, s, p) == Seek(post, 0, s, p)
  {
    assert (ArmStart(c, true) + post)[1..] == [Advance] + post;
    assert (ArmStart(c, false) + post)[1..] == [Advance] + post;
    SeekOne(Advance, post, 0, s, p);
  }

  lemma RunElse(e: Option<string>, post: seq<Line>, s: string, p: nat)
    requires p <= |s|
    ensures Seek([Else, Note, StopLine(e), Close] + post, 0, s, p) == StopAt(e, s, p)
  {
    var code := [Else, Note, StopLine(e), Close] + post;
    var stop := [StopLine(e), Close] + post;
    assert code[1..] == [Note] + stop;
    RunNote(stop, s, p);
    assert stop[0] == StopLine(e);
  }

  lemma StepDown(nodes: seq<Node>, i: nat, s: string, p: nat, c: char)
    requires NodesOk(nodes) && NoNul(nodes) && i < |nodes| && p <= |s| && c in nodes[i].children && CharAt(s, p) == c
    ensures p < |s| && s[p] == c && Descended(nodes, i, s, p) == Descended(nodes, nodes[i].children[c], s, p + 1)
  {
  }

  lemma NoArm(nodes: seq<Node>, i: nat, ks: string, s: string, p: nat)
    requires NodesOk(nodes) && i < |nodes| && p <= |s| && (forall c :: c in ks <==> c in nodes[i].children)
    requires CharAt(s, p) !in ks
    ensures Descended(nodes, i, s, p) == StopAt(nodes[i].enum, s, p)
  {
  }

  lemma NotAmong(ks: string, j: nat, c: char)
    requires j < |ks| && c !in ks[..j] && ks[j] != c
    ensures c !in ks[..j + 1]
  {
    assert ks[..j + 1] == ks[..j] + [ks[j]];
  }

  /** A character that has a child is not the end of the string. */
  lemma TakenInside(nodes: seq<Node>, i: nat, s: string, p: nat, c: char)
    requires NodesOk(nodes) && NoNul(nodes) && i < |nodes| && p <= |s| && c in nodes[i].children && CharAt(s, p) == c
    ensures p < |s| && nodes[i].children[c] < |nodes|
  {
  }

  lemma NoArmLeft(nodes: seq<Node>, i: nat, ks: string, post: seq<Line>, s: string, p: nat)
    requires NodesOk(nodes) && i < |nodes| && p <= |s| && (forall c :: c in ks <==> c in nodes[i].children)
    requires CharAt(s, p) !in ks
    ensures Seek(GenerateArms(nodes, i, ks, |ks|) + post, 0, s, p) == Descended(nodes, i, s, p)
  {
    NoArm(nodes, i, ks, s, p);
    RunElse(nodes[i].enum, post, s, p);
  }

  lemma {:induction false} RunArms(nodes: seq<Node>, i: nat, ks: string, post: seq<Line>, s: string, p: nat)
    requires NodesOk(nodes) && NoNul(nodes) && i < |nodes| && p <= |s| && ks != ""
    requires forall c :: c in ks <==> c in nodes[i].children
    ensures Run(GenerateArms(nodes, i, ks, 0) + post, s, p) == Descended(nodes, i, s, p)
    decreases |nodes| - i, 0, |ks|
  {
    var child := nodes[i].children[ks[0]];
    var rest := GenerateArms(nodes, i, ks, 1);
    if CharAt(s, p) == ks[0] {
      StepDown(nodes, i, s, p, ks[0]);
      RunNode(nodes, child, rest + post, s, p + 1);
      RunArmStart(ks[0], GenerateNode(nodes, child) + (rest + post), s, p);
    } else {
      SeekArms(nodes, i, ks, 1, post, s, p);
      SeekNode(nodes, child, rest + post, 0, s, p);
      MissArmStart(ks[0], GenerateNode(nodes, child) + (rest + post), s, p);
    }
    ArmLines(nodes, i, ks, 0, post);
  }

  lemma {:induction false} SeekArms(nodes: seq<Node>, i: nat, ks: string, j: nat, post: seq<Line>, s: string, p: nat)
    requires NodesOk(nodes) && NoNul(nodes) && i < |nodes| && p <= |s| && (forall c :: c in ks <==> c in nodes[i].children)
    requires 1 <= j <= |ks| && CharAt(s, p) !in ks[..j]
    ensures Seek(GenerateArms(nodes, i, ks, j) + post, 0, s, p) == Descended(nodes, i, s, p)
    decreases |nodes| - i, 0, |ks| - j
  {
    if j == |ks| {
      assert CharAt(s, p) !in ks by { assert ks[..j] == ks; }
      NoArmLeft(nodes, i, ks, post, s, p);
    } else {
      var child := nodes[i].children[ks[j]];
      var behind := GenerateArms(nodes, i, ks, j + 1) + post;
      if CharAt(s, p) == ks[j] {
        TakenInside(nodes, i, s, p, ks[j]);
        RunNode(nodes, child, behind, s, p + 1);
        ArmTaken(nodes, i, ks, j, post, s, p);
      } else {
        NotAmong(ks, j, CharAt(s, p));
        SeekArms(nodes, i, ks, j + 1, post, s, p);
        SeekNode(nodes, child, behind, 0, s, p);
        ArmMissed(nodes, i, ks, j, post, s, p);
      }
    }
  }

  lemma ArmTaken(nodes: seq<Node>, i: nat, ks: string, j: nat, post: seq<Line>, s: string, p: nat)
    requires NodesOk(nodes) && NoNul(nodes) && i < |nodes| && p < |s| && (forall c :: c in ks <==> c in nodes[i].children)
    requires 1 <= j < |ks| && CharAt(s, p) == ks[j]
    requires var child := nodes[i].children[ks[j]];
             Run(GenerateNode(nodes, child) + (GenerateArms(nodes, i, ks, j + 1) + post), s, p + 1)
             == Descended(nodes, child, s, p + 1)
    ensures Seek(GenerateArms(nodes, i, ks, j) + post, 0, s, p) == Descended(nodes, i, s, p)
  {
    StepDown(nodes, i, s, p, ks[j]);
    RunArmStart(ks[j], GenerateNode(nodes, nodes[i].children[ks[j]]) + (GenerateArms(nodes, i, ks, j + 1) + post), s, p);
    ArmLines(nodes, i, ks, j, post);
  }

  lemma ArmMissed(nodes: seq<Node>, i: nat, ks: string, j: nat, post: seq<Line>, s: string, p: nat)
    requires NodesOk(nodes) && i < |nodes| && p <= |s| && (forall c :: c in ks <==> c in nodes[i].children)
    requires 1 <= j < |ks| && CharAt(s, p) != ks[j]
    requires Seek(GenerateNode(nodes, nodes[i].children[ks[j]]) + (GenerateArms(nodes, i, ks, j + 1) + post), 0, s, p)
             == Descended(nodes, i, s, p)
    ensures Seek(GenerateArms(nodes, i, ks, j) + post, 0, s, p) == Descended(nodes, i, s, p)
  {
    MissArmStart(ks[j], GenerateNode(nodes, nodes[i].children[ks[j]]) + (GenerateArms(nodes, i, ks, j + 1) + post), s, p);
    ArmLines(nodes, i, ks, j, post);
  }

  // ----- the parser

  /** The generated function on a string and an index into it. */
  function Parse(code: seq<Line>, s: string, idx: nat): Outcome
    requires idx <= |s|
  {
    if CharAt(s, idx) == '\0' then StopAt(None, s, idx) else Run(code, s, idx)
  }

  /** The reason given is the kind of character the parser stopped at. */
  ghost predicate RightReason(s: string, p: nat, why: Why) {
    && (why == AtEnd <==> p >= |s| || s[p] == '\0')
    && (why == AtNumber <==> p < |s| && '0' <= s[p] <= '9')
    && (why == AtUnderscore <==> p < |s| && s[p] == '_')
  }

  /** The outcome ends the longest beginning of the rest that begins some name. It is a match if that is a name itself,
      with the enum of its last entry, unless that is empty. */
  ghost predicate Meaning(names: seq<Name>, s: string, idx: nat, r: Outcome)
    requires idx <= |s|
  {
    && r.Stop? && idx <= r.idx <= |s| && RightReason(s, r.idx, r.why)
    && (s[idx..r.idx] == "" || IsPrefix(names, s[idx..r.idx]))
    && (forall q :: r.idx < q <= |s| ==> !IsPrefix(names, s[idx..q]))
    && (forall e :: r.enum == Some(e) <==>
          e != "" && exists i :: 0 <= i < |names| && names[i] == Name(s[idx..r.idx], e)
                                 && forall j :: i < j < |names| ==> names[j].text != s[idx..r.idx])
  }

  lemma PrefixClosed(names: seq<Name>, s: string, a: nat, p: nat, q: nat)
    requires a <= p <= q <= |s| && IsPrefix(names, s[a..q])
    ensures IsPrefix(names, s[a..p])
  {
    var i :| 0 <= i < |names| && s[a..q] <= names[i].text;
    assert s[a..p] == s[a..q][..p - a] == names[i].text[..p - a];
  }

  lemma {:induction false} DescendedMeaning(nodes: seq<Node>, names: seq<Name>, i: nat, s: string, idx: nat, p: nat)
    requires Holds(nodes, names) && idx <= p <= |s| && Walk(nodes, s[idx..p]) == Some(i)
    ensures Meaning(names, s, idx, Descended(nodes, i, s, p))
    decreases |s| - p
  {
    if p < |s| {
      assert s[idx..p + 1] == s[idx..p] + [s[p]];
      WalkSnoc(nodes, s[idx..p], s[p]);
    }
    if p < |s| && s[p] in nodes[i].children {
      DescendedMeaning(nodes, names, nodes[i].children[s[p]], s, idx, p + 1);
    } else {
      assert EnumAt(nodes, s[idx..p]) == nodes[i].enum;
      StopMeaning(names, s, idx, p, nodes[i].enum);
    }
  }

  lemma StopMeaning(names: seq<Name>, s: string, idx: nat, p: nat, e: Option<string>)
    requires idx <= p <= |s| && (s[idx..p] == "" || IsPrefix(names, s[idx..p])) 
    requires forall x :: e == Some(x) <==> Named(names, s[idx..p], x)
    requires p < |s| ==> !IsPrefix(names, s[idx..p + 1])
    ensures Meaning(names, s, idx, StopAt(e, s, p))
  {
    forall q | p < q <= |s| ensures !IsPrefix(names, s[idx..q]) {
      if IsPrefix(names, s[idx..q]) {
        PrefixClosed(names, s, idx, p + 1, q);
      }
    }
  }

  /** Generates the parser for a list of names; there is none without a name to look for. */
  method GenerateParser(names: seq<Name>) returns (code: seq<Line>)
    requires forall i :: 0 <= i < |names| ==> '\0' !in names[i].text
    ensures (forall i :: 0 <= i < |names| ==> names[i].text == "") <==> code == []
    ensures code != [] ==> forall s, idx :: 0 <= idx < |s| && '\0' !in s ==> Meaning(names, s, idx, Parse(code, s, idx))
    ensures forall s :: Parse(code, s, |s|) == Stop(None, |s|, AtEnd)
  {
    var trie := BuildTrie(names);
    code := GenerateBody(trie.nodes);
    EmptyIff(trie.nodes, names);
    if code != [] {
      forall s, idx | 0 <= idx < |s| && '\0' !in s ensures Meaning(names, s, idx, Parse(code, s, idx)) {
        ParserMeaning(trie.nodes, names, s, idx);
      }
    }
  }

  lemma ParserMeaning(nodes: seq<Node>, names: seq<Name>, s: string, idx: nat)
    requires Holds(nodes, names) && NoNul(nodes) && nodes[0].children != map[] && idx <= |s| && '\0' !in s
    ensures if idx < |s| then Meaning(names, s, idx, Parse(GenerateBody(nodes), s, idx))
            else Parse(GenerateBody(nodes), s, idx) == Stop(None, idx, AtEnd)
  {
    if idx == |s| {
      return;
    }
    RunNode(nodes, 0, [Note, Note, StopWithoutMatch], s, idx);
    assert s[idx..idx] == "";
    DescendedMeaning(nodes, names, 0, s, idx, idx);
    assert s[idx] in s;
  }

  lemma EmptyIff(nodes: seq<Node>, names: seq<Name>)
    requires Holds(nodes, names)
    ensures (forall i :: 0 <= i < |names| ==> names[i].text == "") <==> GenerateBody(nodes) == []
  {
    if i :| 0 <= i < |names| && names[i].text != "" {
      var c := names[i].text[0];
      assert [c] <= names[i].text;
      assert IsPrefix(names, [c]);
      WalkSnoc(nodes, "", c);
      assert "" + [c] == [c];
    } else if nodes[0].children != map[] {
      ChildIsName(nodes, names);
    }
  }

  lemma ChildIsName(nodes: seq<Node>, names: seq<Name>)
    requires Holds(nodes, names) && nodes[0].children != map[]
    ensures exists i :: 0 <= i < |names| && names[i].text != ""
  {
    var c :| c in nodes[0].children;
    WalkSnoc(nodes, "", c);
    assert "" + [c] == [c];
    assert IsPrefix(names, [c]);
    var i :| 0 <= i < |names| && [c] <= names[i].text;
    assert names[i].text != "";
  }
}
