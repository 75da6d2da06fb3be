/** The trie of extension names, built node by node. */
module ExtensionTrie {
  import opened Machine

  datatype Node = Node(children: map<char, nat>, enum: Option<string>)

  const LEAF := Node(map[], None)

  /** Children come behind their parents. Node 0 is the root. */
  ghost predicate NodesOk(nodes: seq<Node>) {
    |nodes| >= 1 && forall i, c :: 0 <= i < |nodes| && c in nodes[i].children ==> i < nodes[i].children[c] < |nodes|
  }

  /** `paths` spells out the way from the root to each node. */
  ghost predicate PathsOk(nodes: seq<Node>, paths: seq<string>) {
    && NodesOk(nodes) && |paths| == |nodes| && paths[0] == ""
    && forall i, c :: 0 <= i < |nodes| && c in nodes[i].children ==> paths[nodes[i].children[c]] == paths[i] + [c]
  }

  /** No child hangs on the character that ends a C string. */
  ghost predicate NoNul(nodes: seq<Node>) {
    forall i :: 0 <= i < |nodes| ==> '\0' !in nodes[i].children
  }

  /** The node at the end of a string, if the trie has it. */
  ghost function Walk(nodes: seq<Node>, s: string): (r: Option<nat>)
    requires NodesOk(nodes)
    ensures r.Some? ==> r.value < |nodes|
    decreases |s|
  {
    if s == "" then Some(0)
    else
      var r, c := Walk(nodes, s[..|s| - 1]), s[|s| - 1];
      if r.Some? && c in nodes[r.value].children then Some(nodes[r.value].children[c]) else None
  }

  ghost function EnumAt(nodes: seq<Node>, s: string): Option<string>
    requires NodesOk(nodes)
  {
    var r := Walk(nodes, s); if r.Some? then nodes[r.value].enum else None
  }

  lemma WalkSnoc(nodes: seq<Node>, s: string, c: char)
    requires NodesOk(nodes)
    ensures Walk(nodes, s + [c]) ==
            var r := Walk(nodes, s);
            if r.Some? && c in nodes[r.value].children then Some(nodes[r.value].children[c]) else None
  {
    assert (s + [c])[..|s|] == s;
  }

  /** A node is at the end of one string only. */
  lemma {:induction false} WalkPath(nodes: seq<Node>, paths: seq<string>, s: string)
    requires PathsOk(nodes, paths) && Walk(nodes, s).Some?
    ensures paths[Walk(nodes, s).value] == s
    decreases |s|
  {
    if s != "" {
      var t, c := s[..|s| - 1], s[|s| - 1];
      WalkPath(nodes, paths, t);
      assert s == t + [c];
    }
  }

  // ----- what was inserted

  datatype Name = Name(text: string, enum: string)

  /** An empty enum is as good as none. */
  function Truthy(enum: string): Option<string> {
    if enum == "" then None else Some(enum)
  }

  /** `s` is a name, and the last time it was inserted with the non-empty enum `e`. */
  ghost predicate Named(names: seq<Name>, s: string, e: string) {
    e != "" && exists i :: 0 <= i < |names| && names[i] == Name(s, e) && forall j :: i < j < |names| ==> names[j].text != s
  }

  ghost predicate IsPrefix(names: seq<Name>, s: string) {
    exists i :: 0 <= i < |names| && s <= names[i].text
  }

  /** The trie holds exactly these names. */
  ghost predicate Holds(nodes: seq<Node>, names: seq<Name>) {
    && NodesOk(nodes)
    && (forall s :: Walk(nodes, s).Some? <==> s == "" || IsPrefix(names, s))
    && (forall s, e :: EnumAt(nodes, s) == Some(e) <==> Named(names, s, e))
  }

  // ----- one step of an insertion

  function WithChild(nodes: seq<Node>, i: nat, c: char): seq<Node>
    requires i < |nodes|
  {
    nodes[i := Node(nodes[i].children[c := |nodes|], nodes[i].enum)] + [LEAF]
  }

  lemma WithChildOk(nodes: seq<Node>, paths: seq<string>, i: nat, c: char)
    requires PathsOk(nodes, paths) && i < |nodes|
    ensures PathsOk(WithChild(nodes, i, c), paths + [paths[i] + [c]])
    ensures NoNul(nodes) && c != '\0' ==> NoNul(WithChild(nodes, i, c))
  {
  }

  /** A new child makes exactly one more string known, and it has no enum. */
  lemma {:induction false} WithChildWalk(nodes: seq<Node>, paths: seq<string>, i: nat, c: char, s: string)
    requires PathsOk(nodes, paths) && i < |nodes| && c !in nodes[i].children && Walk(nodes, paths[i]) == Some(i)
    ensures NodesOk(WithChild(nodes, i, c))
    ensures Walk(WithChild(nodes, i, c), s) == if s == paths[i] + [c] then Some(|nodes|) else Walk(nodes, s)
    decreases |s|
  {
    WithChildOk(nodes, paths, i, c);
    var nodes', p := WithChild(nodes, i, c), paths[i];
    if s != "" {
      var t, d := s[..|s| - 1], s[|s| - 1];
      assert s == t + [d];
      WithChildWalk(nodes, paths, i, c, t);
      WithChildWalkStep(nodes, paths, i, c, t, d);
      WalkSnoc(nodes', t, d);
      WalkSnoc(nodes, t, d);
    }
  }

  lemma WithChildWalkStep(nodes: seq<Node>, paths: seq<string>, i: nat, c: char, t: string, d: char)
    requires PathsOk(nodes, paths) && i < |nodes| && c !in nodes[i].children && Walk(nodes, paths[i]) == Some(i)
    ensures t + [d] == paths[i] + [c] <==> t == paths[i] && d == c
    ensures t == paths[i] <==> Walk(nodes, t) == Some(i)
    ensures t == paths[i] + [c] ==> Walk(nodes, t).None?
  {
    assert (t + [d])[..|t|] == t && (paths[i] + [c])[..|paths[i]|] == paths[i];
    assert (t + [d])[|t|] == d && (paths[i] + [c])[|paths[i]|] == c;
    if Walk(nodes, t) == Some(i) {
      WalkPath(nodes, paths, t);
    }
    WalkSnoc(nodes, paths[i], c);
  }

  lemma {:induction false} SetEnumWalk(nodes: seq<Node>, i: nat, e: Option<string>, s: string)
    requires NodesOk(nodes) && i < |nodes|
    ensures NodesOk(nodes[i := nodes[i].(enum := e)])
    ensures Walk(nodes[i := nodes[i].(enum := e)], s) == Walk(nodes, s)
    decreases |s|
  {
    if s != "" {
      SetEnumWalk(nodes, i, e, s[..|s| - 1]);
    }
  }

  // ----- the trie

  class Trie {
    var nodes: seq<Node>
    ghost var paths: seq<string>

    ghost predicate Valid()
      reads this
    {
      PathsOk(nodes, paths) && NoNul(nodes)
    }

    constructor ()
      ensures Valid() && Holds(nodes, [])
    {
      nodes, paths := [LEAF], [""];
      new;
      forall s ensures Walk(nodes, s).Some? <==> s == "" {
        if s != "" {
          RootOnly(s);
        }
      }
      forall s, e ensures EnumAt(nodes, s) != Some(e) {
        if s != "" {
          RootOnly(s);
        }
      }
    }

    /** Goes to a child, which is made if it is not there. */
    method Descend(node: nat, c: char, ghost was: seq<Node>, ghost s: string) returns (child: nat)
      requires Valid() && Walk(nodes, s) == Some(node) && Grown(was, nodes, s) && c != '\0'
      modifies this
      ensures Valid() && Walk(nodes, s + [c]) == Some(child) && Grown(was, nodes, s + [c])
    {
      WalkPath(nodes, paths, s);
      WalkSnoc(nodes, s, c);
      if c !in nodes[node].children {
        WithChildOk(nodes, paths, node, c);
        GrowChild(was, nodes, paths, s, node, c);
        nodes, paths := WithChild(nodes, node, c), paths + [paths[node] + [c]];
      } else {
        GrowKnown(was, nodes, s, c);
      }
      child := nodes[node].children[c];
    }

    method Insert(text: string, enum: string, ghost names: seq<Name>)
      requires Valid() && Holds(nodes, names) && '\0' !in text
      modifies this
      ensures Valid() && Holds(nodes, names + [Name(text, enum)])
    {
      var node := 0;
      ghost var was := nodes;
      for k := 0 to |text|
        invariant Valid() && Walk(nodes, text[..k]) == Some(node)
        invariant Grown(was, nodes, text[..k])
      {
        assert text[..k + 1] == text[..k] + [text[k]];
        node := Descend(node, text[k], was, text[..k]);
      }
      assert text[..|text|] == text;
      ghost var grown := nodes;
      WalkPath(nodes, paths, text);
      nodes := nodes[node := Node(nodes[node].children, Truthy(enum))];
      assert nodes == grown[node := grown[node].(enum := Truthy(enum))];
      InsertHolds(was, grown, paths, node, names, text, enum);
    }
  }

  lemma RootOnly(s: string)
    requires s != ""
    ensures Walk([LEAF], s).None?
  {
  }

  /** Only the beginnings of `s` were added. */
  ghost predicate Grown(was: seq<Node>, now: seq<Node>, s: string) {
    && NodesOk(was) && NodesOk(now)
    && (forall t :: Walk(now, t).Some? <==> Walk(was, t).Some? || t <= s)
    && (forall t :: EnumAt(now, t) == EnumAt(was, t))
  }

  lemma PrefixSnoc(t: string, s: string, c: char)
    ensures t <= s + [c] <==> t <= s || t == s + [c]
  {
    if t <= s + [c] && |t| <= |s| {
      assert t == (s + [c])[..|t|] == s[..|t|];
    }
    if t <= s {
      assert t == s[..|t|] == (s + [c])[..|t|];
    }
  }

  lemma GrowKnown(was: seq<Node>, now: seq<Node>, s: string, c: char)
    requires Grown(was, now, s) && Walk(now, s + [c]).Some?
    ensures Grown(was, now, s + [c])
  {
    forall t ensures Walk(now, t).Some? <==> Walk(was, t).Some? || t <= s + [c] {
      PrefixSnoc(t, s, c);
    }
  }

  lemma GrowChildAt(now: seq<Node>, paths: seq<string>, s: string, i: nat, c: char, t: string)
    requires PathsOk(now, paths) && Walk(now, s) == Some(i) && paths[i] == s && c !in now[i].children
    ensures NodesOk(WithChild(now, i, c))
    ensures Walk(WithChild(now, i, c), t).Some? <==> Walk(now, t).Some? || t == s + [c]
    ensures EnumAt(WithChild(now, i, c), t) == EnumAt(now, t)
  {
    WithChildWalk(now, paths, i, c, t);
    if t == s + [c] {
      WalkSnoc(now, s, c);
    }
  }

  lemma GrowChild(was: seq<Node>, now: seq<Node>, paths: seq<string>, s: string, i: nat, c: char)
    requires Grown(was, now, s) && PathsOk(now, paths) && Walk(now, s) == Some(i) && paths[i] == s
    requires c !in now[i].children
    ensures Grown(was, WithChild(now, i, c), s + [c])
    ensures Walk(WithChild(now, i, c), s + [c]) == Some(|now|)
  {
    WithChildWalk(now, paths, i, c, s + [c]);
    var now' := WithChild(now, i, c);
    forall t ensures Walk(now', t).Some? <==> Walk(was, t).Some? || t <= s + [c] {
      PrefixSnoc(t, s, c);
      GrowChildAt(now, paths, s, i, c, t);
    }
    forall t ensures EnumAt(now', t) == EnumAt(was, t) {
      GrowChildAt(now, paths, s, i, c, t);
    }
  }

  lemma InsertHolds(was: seq<Node>, grown: seq<Node>, paths: seq<string>, i: nat, names: seq<Name>, text: string, enum: string)
    requires Holds(was, names) && Grown(was, grown, text) && PathsOk(grown, paths) && Walk(grown, text) == Some(i)
    ensures Holds(grown[i := grown[i].(enum := Truthy(enum))], names + [Name(text, enum)])
  {
    var e := Truthy(enum);
    var now, names' := grown[i := grown[i].(enum := e)], names + [Name(text, enum)];
    SetEnumWalk(grown, i, e, "");
    forall s ensures Walk(now, s).Some? <==> s == "" || IsPrefix(names', s) {
      SetEnumWalk(grown, i, e, s);
      PrefixMore(names, Name(text, enum), s);
    }
    forall s, x ensures EnumAt(now, s) == Some(x) <==> Named(names', s, x) {
      assert EnumAt(grown, s) == EnumAt(was, s);
      NamedMore(names, Name(text, enum), s, x);
      SetEnumAt(grown, paths, i, e, text, s);
    }
  }

  lemma SetEnumAt(grown: seq<Node>, paths: seq<string>, i: nat, e: Option<string>, text: string, s: string)
    requires PathsOk(grown, paths) && Walk(grown, text) == Some(i)
    ensures NodesOk(grown[i := grown[i].(enum := e)])
    ensures EnumAt(grown[i := grown[i].(enum := e)], s) == if s == text then e else EnumAt(grown, s)
  {
    SetEnumWalk(grown, i, e, s);
    if Walk(grown, s) == Some(i) {
      WalkPath(grown, paths, s);
      WalkPath(grown, paths, text);
    }
  }

  /** A later entry of the same name takes the place of the earlier ones. */
  lemma NamedMore(names: seq<Name>, n: Name, s: string, e: string)
    ensures Named(names + [n], s, e) <==> if s == n.text then e == n.enum && e != "" else Named(names, s, e)
  {
    var names' := names + [n];
    if s == n.text && e == n.enum && e != "" {
      assert names'[|names|] == Name(s, e);
    }
    if s != n.text && Named(names, s, e) {
      var i :| 0 <= i < |names| && names[i] == Name(s, e) && forall j :: i < j < |names| ==> names[j].text != s;
      assert names'[i] == Name(s, e);
    }
    if s == n.text && Named(names', s, e) {
      var i :| 0 <= i < |names'| && names'[i] == Name(s, e) && forall j :: i < j < |names'| ==> names'[j].text != s;
      assert names'[|names|].text == s;
    }
    if s != n.text && Named(names', s, e) {
      var i :| 0 <= i < |names'| && names'[i] == Name(s, e) && forall j :: i < j < |names'| ==> names'[j].text != s;
      forall j | i < j < |names| ensures names[j].text != s {
        assert names'[j] == names[j];
      }
      assert names[i] == Name(s, e);
    }
  }

  lemma PrefixMore(names: seq<Name>, n: Name, s: string)
    ensures IsPrefix(names + [n], s) <==> IsPrefix(names, s) || s <= n.text
  {
    var names' := names + [n];
    if IsPrefix(names, s) {
      var i :| 0 <= i < |names| && s <= names[i].text;
      assert s <= names'[i].text;
    }
    if s <= n.text {
      assert s <= names'[|names|].text;
    }
  }

  method BuildTrie(names: seq<Name>) returns (trie: Trie)
    requires forall i :: 0 <= i < |names| ==> '\0' !in names[i].text
    ensures fresh(trie) && trie.Valid() && Holds(trie.nodes, names)
  {
    trie := new Trie();
    for i := 0 to |names|
      invariant fresh(trie) && trie.Valid() && Holds(trie.nodes, names[..i])
    {
      assert names[..i + 1] == names[..i] + [Name(names[i].text, names[i].enum)];
      trie.Insert(names[i].text, names[i].enum, names[..i]);
    }
    assert names[..|names|] == names;
  }
}
