/** The search tree of all blocks by start address, augmented with the greatest block end of each subtree. */
module BlockIndex {
  import opened Machine

  datatype Tree = Leaf | Node(left: Tree, addr: U64, size: nat, maxEnd: nat, right: Tree)

  datatype Extent = Extent(addr: U64, size: nat)

  // ----- what a tree means

  /** The blocks of the tree: start address to size. */
  ghost function Extents(t: Tree): map<U64, nat> {
    match t
    case Leaf => map[]
    case Node(l, a, s, _, r) => Join(Extents(l), a, s, Extents(r))
  }

  ghost function Join(l: map<U64, nat>, a: U64, s: nat, r: map<U64, nat>): map<U64, nat> {
    (l + r)[a := s]
  }

  lemma JoinUpdate(l: map<U64, nat>, a: U64, s: nat, r: map<U64, nat>, k: U64, v: nat)
    requires k != a
    ensures Join(l, a, s, r[k := v]) == Join(l, a, s, r)[k := v]
    ensures k !in r ==> Join(l[k := v], a, s, r) == Join(l, a, s, r)[k := v]
  {
    assert l + r[k := v] == (l + r)[k := v];
    if k !in r {
      assert l[k := v] + r == (l + r)[k := v];
    }
    UpdateCommutes(l + r, a, s, k, v);
  }

  lemma UpdateCommutes(m: map<U64, nat>, a: U64, s: nat, k: U64, v: nat)
    requires k != a
    ensures m[k := v][a := s] == m[a := s][k := v]
  {
  }

  lemma JoinRemove(l: map<U64, nat>, a: U64, s: nat, r: map<U64, nat>, k: U64)
    requires k != a
    ensures k !in r ==> Join(l - {k}, a, s, r) == Join(l, a, s, r) - {k}
    ensures k !in l ==> Join(l, a, s, r - {k}) == Join(l, a, s, r) - {k}
  {
  }

  /** Deleting the root: either one side is empty, or an entry of the left side moves up. */
  lemma JoinRemoveRoot(l: map<U64, nat>, a: U64, s: nat, r: map<U64, nat>, k: U64)
    requires a !in l && a !in r && k !in r
    ensures l == map[] ==> Join(l, a, s, r) - {a} == r
    ensures k in l ==> Join(l - {k}, k, l[k], r) == Join(l, a, s, r) - {a}
  {
  }

  /** Smaller start addresses to the left, greater ones to the right: no two blocks share a start. */
  ghost predicate Ordered(t: Tree) {
    t.Node? ==>
      && Ordered(t.left) && Ordered(t.right)
      && (forall k :: k in Extents(t.left) ==> k < t.addr)
      && (forall k :: k in Extents(t.right) ==> t.addr < k)
  }

  ghost predicate IsMaxEnd(e: map<U64, nat>, max: nat) {
    (forall k :: k in e ==> k + e[k] <= max) && (exists k :: k in e && k + e[k] == max)
  }

  /** Every node records the greatest end of its subtree. */
  ghost predicate Exact(t: Tree) {
    t.Node? ==> Exact(t.left) && Exact(t.right) && IsMaxEnd(Extents(t), t.maxEnd)
  }

  ghost predicate Valid(t: Tree) {
    Ordered(t) && Exact(t)
  }

  // ----- __max_end

  function ChildEnd(t: Tree, end: nat): nat {
    if t.Node? && t.maxEnd > end then t.maxEnd else end
  }

  /** A node whose recorded end is computed from its own extent and its children's records. */
  function Summed(l: Tree, a: U64, s: nat, r: Tree): Tree {
    Node(l, a, s, ChildEnd(r, ChildEnd(l, a + s)), r)
  }

  lemma MaxOfThree(e1: map<U64, nat>, e2: map<U64, nat>, a: U64, s: nat, max: nat)
    requires a !in e1 && a !in e2 && e1.Keys !! e2.Keys
    requires forall k :: k in e1 ==> k + e1[k] <= max
    requires forall k :: k in e2 ==> k + e2[k] <= max
    requires a + s <= max
    requires a + s == max || IsMaxEnd(e1, max) || IsMaxEnd(e2, max)
    ensures IsMaxEnd(Join(e1, a, s, e2), max)
  {
    var e := Join(e1, a, s, e2);
    assert forall k :: k in e1 ==> k in e && e[k] == e1[k];
    assert forall k :: k in e2 ==> k in e && e[k] == e2[k];
    if a + s == max {
      assert a in e && a + e[a] == max;
    } else if IsMaxEnd(e1, max) {
      var k :| k in e1 && k + e1[k] == max;
      assert k in e && k + e[k] == max;
    } else {
      var k :| k in e2 && k + e2[k] == max;
      assert k in e && k + e[k] == max;
    }
  }

  /** Two valid trees around a key give a valid tree. */
  lemma SummedValid(l: Tree, a: U64, s: nat, r: Tree)
    requires Valid(l) && Valid(r)
    requires (forall k :: k in Extents(l) ==> k < a) && (forall k :: k in Extents(r) ==> a < k)
    ensures Valid(Summed(l, a, s, r))
  {
    MaxOfThree(Extents(l), Extents(r), a, s, Summed(l, a, s, r).maxEnd);
  }

  // ----- find, insert, resize, delete

  function Find(t: Tree, a: U64): Option<Extent> {
    if t.Leaf? then None
    else if a < t.addr then Find(t.left, a)
    else if a > t.addr then Find(t.right, a)
    else Some(Extent(t.addr, t.size))
  }

  function Insert(t: Tree, a: U64, s: nat): Tree {
    if t.Leaf? then Summed(Leaf, a, s, Leaf)
    else if a < t.addr then Summed(Insert(t.left, a, s), t.addr, t.size, t.right)
    else Summed(t.left, t.addr, t.size, Insert(t.right, a, s))
  }

  /** Changes a block's size and recomputes the records on the path to it. */
  function Resize(t: Tree, a: U64, s: nat): Tree {
    if t.Leaf? then Leaf
    else if a < t.addr then Summed(Resize(t.left, a, s), t.addr, t.size, t.right)
    else if a > t.addr then Summed(t.left, t.addr, t.size, Resize(t.right, a, s))
    else Summed(t.left, a, s, t.right)
  }

  function Last(t: Tree): Extent
    requires t.Node?
  {
    if t.right.Node? then Last(t.right) else Extent(t.addr, t.size)
  }

  function WithoutLast(t: Tree): Tree
    requires t.Node?
  {
    if t.right.Node? then Summed(t.left, t.addr, t.size, WithoutLast(t.right)) else t.left
  }

  /** The in-order predecessor takes the place of a deleted inner node. */
  function Delete(t: Tree, a: U64): Tree {
    if t.Leaf? then Leaf
    else if a < t.addr then Summed(Delete(t.left, a), t.addr, t.size, t.right)
    else if a > t.addr then Summed(t.left, t.addr, t.size, Delete(t.right, a))
    else if t.left.Leaf? then t.right
    else var last := Last(t.left); Summed(WithoutLast(t.left), last.addr, last.size, t.right)
  }

  lemma {:induction false} FindExact(t: Tree, a: U64)
    requires Ordered(t)
    ensures Find(t, a) == if a in Extents(t) then Some(Extent(a, Extents(t)[a])) else None
  {
    if t.Node? {
      FindExact(t.left, a);
      FindExact(t.right, a);
    }
  }

  lemma {:induction false} InsertValid(t: Tree, a: U64, s: nat)
    requires Valid(t) && a !in Extents(t)
    ensures Valid(Insert(t, a, s)) && Extents(Insert(t, a, s)) == Extents(t)[a := s]
  {
    if t.Leaf? {
      SummedValid(Leaf, a, s, Leaf);
    } else {
      JoinUpdate(Extents(t.left), t.addr, t.size, Extents(t.right), a, s);
    }
    if t.Leaf? {
    } else if a < t.addr {
      InsertValid(t.left, a, s);
      SummedValid(Insert(t.left, a, s), t.addr, t.size, t.right);
    } else {
      InsertValid(t.right, a, s);
      SummedValid(t.left, t.addr, t.size, Insert(t.right, a, s));
    }
  }

  lemma {:induction false} ResizeValid(t: Tree, a: U64, s: nat)
    requires Valid(t) && a in Extents(t)
    ensures Valid(Resize(t, a, s)) && Extents(Resize(t, a, s)) == Extents(t)[a := s]
  {
    if a != t.addr {
      JoinUpdate(Extents(t.left), t.addr, t.size, Extents(t.right), a, s);
    }
    if a < t.addr {
      ResizeValid(t.left, a, s);
      SummedValid(Resize(t.left, a, s), t.addr, t.size, t.right);
    } else if a > t.addr {
      ResizeValid(t.right, a, s);
      SummedValid(t.left, t.addr, t.size, Resize(t.right, a, s));
    } else {
      SummedValid(t.left, a, s, t.right);
    }
  }

  lemma {:induction false} WithoutLastValid(t: Tree)
    requires Valid(t) && t.Node?
    ensures Last(t).addr in Extents(t) && Extents(t)[Last(t).addr] == Last(t).size
    ensures forall k :: k in Extents(t) ==> k <= Last(t).addr
    ensures Valid(WithoutLast(t)) && Extents(WithoutLast(t)) == Extents(t) - {Last(t).addr}
  {
    if t.right.Node? {
      WithoutLastValid(t.right);
      JoinRemove(Extents(t.left), t.addr, t.size, Extents(t.right), Last(t).addr);
      SummedValid(t.left, t.addr, t.size, WithoutLast(t.right));
    }
  }

  lemma {:induction false} DeleteValid(t: Tree, a: U64)
    requires Valid(t)
    ensures Valid(Delete(t, a)) && Extents(Delete(t, a)) == Extents(t) - {a}
  {
    if t.Leaf? {
    } else if a < t.addr {
      DeleteValid(t.left, a);
      JoinRemove(Extents(t.left), t.addr, t.size, Extents(t.right), a);
      SummedValid(Delete(t.left, a), t.addr, t.size, t.right);
    } else if a > t.addr {
      DeleteValid(t.right, a);
      JoinRemove(Extents(t.left), t.addr, t.size, Extents(t.right), a);
      SummedValid(t.left, t.addr, t.size, Delete(t.right, a));
    } else {
      DeleteRootValid(t);
    }
  }

  lemma DeleteRootValid(t: Tree)
    requires Valid(t) && t.Node?
    ensures Valid(Delete(t, t.addr)) && Extents(Delete(t, t.addr)) == Extents(t) - {t.addr}
  {
    if t.left.Leaf? {
      assert Extents(t.left) == map[];
      JoinRemoveRoot(Extents(t.left), t.addr, t.size, Extents(t.right), t.addr);
    } else {
      WithoutLastValid(t.left);
      MoveLastUp(t.left, t.addr, t.size, t.right, WithoutLast(t.left), Last(t.left));
    }
  }

  lemma MoveLastUp(l: Tree, a: U64, s: nat, r: Tree, rest: Tree, last: Extent)
    requires Valid(l) && Valid(r) && Valid(rest)
    requires (forall k :: k in Extents(l) ==> k < a) && (forall k :: k in Extents(r) ==> a < k)
    requires last.addr in Extents(l) && Extents(l)[last.addr] == last.size
    requires forall k :: k in Extents(l) ==> k <= last.addr
    requires Extents(rest) == Extents(l) - {last.addr}
    ensures Valid(Summed(rest, last.addr, last.size, r))
    ensures Extents(Summed(rest, last.addr, last.size, r)) == Join(Extents(l), a, s, Extents(r)) - {a}
  {
    assert forall k :: k in Extents(rest) ==> k < last.addr;
    assert last.addr < a;
    SummedValid(rest, last.addr, last.size, r);
    JoinRemoveRoot(Extents(l), a, s, Extents(r), last.addr);
  }

  // ----- rotations, as the balancing does them

  function Rotated(t: Tree, toLeft: bool): Tree {
    if toLeft && t.Node? && t.right.Node? then
      Summed(Summed(t.left, t.addr, t.size, t.right.left), t.right.addr, t.right.size, t.right.right)
    else if !toLeft && t.Node? && t.left.Node? then
      Summed(t.left.left, t.left.addr, t.left.size, Summed(t.left.right, t.addr, t.size, t.right))
    else t
  }

  /** A rotation at the node the path leads to (true: left child), with the records above recomputed. */
  function RotatedAt(t: Tree, path: seq<bool>, toLeft: bool): Tree {
    if path == [] then Rotated(t, toLeft)
    else if t.Leaf? then t
    else if path[0] then Summed(RotatedAt(t.left, path[1..], toLeft), t.addr, t.size, t.right)
    else Summed(t.left, t.addr, t.size, RotatedAt(t.right, path[1..], toLeft))
  }

  lemma JoinAssoc(x: map<U64, nat>, a: U64, s: nat, y: map<U64, nat>, b: U64, u: nat, z: map<U64, nat>)
    requires a != b && a !in y && a !in z && b !in x && b !in y
    ensures Join(x, a, s, Join(y, b, u, z)) == Join(Join(x, a, s, y), b, u, z)
  {
  }

  lemma RotatedValid(t: Tree, toLeft: bool)
    requires Valid(t)
    ensures Valid(Rotated(t, toLeft)) && Extents(Rotated(t, toLeft)) == Extents(t)
  {
    if toLeft && t.Node? && t.right.Node? {
      Parts(t);
      Parts(t.right);
      RotateParts(t.left, t.addr, t.size, t.right.left, t.right.addr, t.right.size, t.right.right);
    } else if !toLeft && t.Node? && t.left.Node? {
      Parts(t);
      Parts(t.left);
      RotateParts(t.left.left, t.left.addr, t.left.size, t.left.right, t.addr, t.size, t.right);
    }
  }

  lemma Parts(t: Tree)
    requires Valid(t) && t.Node?
    ensures Valid(t.left) && Valid(t.right) && t.addr in Extents(t)
    ensures forall k :: k in Extents(t.left) ==> k in Extents(t) && k < t.addr
    ensures forall k :: k in Extents(t.right) ==> k in Extents(t) && t.addr < k
  {
  }

  /** Both ways of grouping three ordered trees around two keys are valid and hold the same blocks. */
  lemma RotateParts(x: Tree, a: U64, s: nat, y: Tree, b: U64, u: nat, z: Tree)
    requires Valid(x) && Valid(y) && Valid(z) && a < b
    requires (forall k :: k in Extents(x) ==> k < a) && (forall k :: k in Extents(z) ==> b < k)
    requires forall k :: k in Extents(y) ==> a < k < b
    ensures Valid(Summed(Summed(x, a, s, y), b, u, z)) && Valid(Summed(x, a, s, Summed(y, b, u, z)))
    ensures Extents(Summed(Summed(x, a, s, y), b, u, z)) == Extents(Summed(x, a, s, Summed(y, b, u, z)))
    ensures Extents(Summed(x, a, s, Summed(y, b, u, z))) == Join(Extents(x), a, s, Join(Extents(y), b, u, Extents(z)))
  {
    SummedValid(x, a, s, y);
    SummedValid(Summed(x, a, s, y), b, u, z);
    SummedValid(y, b, u, z);
    SummedValid(x, a, s, Summed(y, b, u, z));
    JoinAssoc(Extents(x), a, s, Extents(y), b, u, Extents(z));
  }

  lemma {:induction false} RotatedAtValid(t: Tree, path: seq<bool>, toLeft: bool)
    requires Valid(t)
    ensures Valid(RotatedAt(t, path, toLeft)) && Extents(RotatedAt(t, path, toLeft)) == Extents(t)
    decreases |path|
  {
    if path == [] {
      RotatedValid(t, toLeft);
    } else if t.Leaf? {
    } else if path[0] {
      RotatedAtValid(t.left, path[1..], toLeft);
      SummedValid(RotatedAt(t.left, path[1..], toLeft), t.addr, t.size, t.right);
    } else {
      RotatedAtValid(t.right, path[1..], toLeft);
      SummedValid(t.left, t.addr, t.size, RotatedAt(t.right, path[1..], toLeft));
    }
  }

  // ----- runs

  datatype Op =
    | Create(a: U64, size: nat)
    | SetSize(a: U64, size: nat)
    | Relocate(a: U64, to: U64, size: nat)
    | Split(a: U64, at: U64)
    | Unref(a: U64)
    | Rotate(path: seq<bool>, toLeft: bool)

  /** The block exists, and the end of a new extent does not wrap. `Unref` is one that takes the last reference. */
  predicate Allowed(t: Tree, op: Op) {
    match op
    case Create(a, size) => a + size <= UT64_MAX
    case SetSize(a, size) => Find(t, a).Some? && a + size <= UT64_MAX
    case Relocate(a, to, size) => Find(t, a).Some? && to + size <= UT64_MAX
    case Split(a, at) => Find(t, a).Some? && a <= at < a + Find(t, a).value.size
    case Unref(a) => Find(t, a).Some?
    case Rotate(_, _) => true
  }

  function CreateIn(t: Tree, a: U64, size: nat): Tree {
    if Find(t, a).Some? then t else Insert(t, a, size)
  }

  function RelocateIn(t: Tree, a: U64, to: U64, size: nat): Tree {
    if to == a then Resize(t, a, size)
    else if Find(t, to).Some? then t
    else Insert(Delete(t, a), to, size)
  }

  /** Shrinks the first block, then inserts the second. */
  function SplitIn(t: Tree, a: U64, at: U64, size: nat): Tree
    requires a <= at <= a + size
  {
    if at == a || Find(t, at).Some? then t else Insert(Resize(t, a, at - a), at, a + size - at)
  }

  function Apply(t: Tree, op: Op): Tree
    requires Allowed(t, op)
  {
    match op
    case Create(a, size) => CreateIn(t, a, size)
    case SetSize(a, size) => Resize(t, a, size)
    case Relocate(a, to, size) => RelocateIn(t, a, to, size)
    case Split(a, at) => SplitIn(t, a, at, Find(t, a).value.size)
    case Unref(a) => Delete(t, a)
    case Rotate(path, toLeft) => RotatedAt(t, path, toLeft)
  }

  ghost function FlatRelocate(e: map<U64, nat>, a: U64, to: U64, size: nat): map<U64, nat> {
    if to != a && to in e then e else (e - {a})[to := size]
  }

  ghost function FlatSplit(e: map<U64, nat>, a: U64, at: U64, size: nat): map<U64, nat>
    requires a <= at <= a + size
  {
    if at in e then e else e[a := at - a][at := a + size - at]
  }

  /** What an operation means without a tree. */
  ghost function Flat(e: map<U64, nat>, op: Op): map<U64, nat>
    requires op.Split? ==> op.a in e && op.a <= op.at <= op.a + e[op.a]
  {
    match op
    case Create(a, size) => if a in e then e else e[a := size]
    case SetSize(a, size) => e[a := size]
    case Relocate(a, to, size) => FlatRelocate(e, a, to, size)
    case Split(a, at) => FlatSplit(e, a, at, e[a])
    case Unref(a) => e - {a}
    case Rotate(_, _) => e
  }

  ghost predicate InRange(e: map<U64, nat>) {
    forall k :: k in e ==> k + e[k] <= UT64_MAX
  }

  lemma CreateValid(t: Tree, a: U64, size: nat)
    requires Valid(t)
    ensures Valid(CreateIn(t, a, size))
    ensures Extents(CreateIn(t, a, size)) == if a in Extents(t) then Extents(t) else Extents(t)[a := size]
  {
    FindExact(t, a);
    if a !in Extents(t) {
      InsertValid(t, a, size);
    }
  }

  lemma RelocateValid(t: Tree, a: U64, to: U64, size: nat)
    requires Valid(t) && a in Extents(t)
    ensures Valid(RelocateIn(t, a, to, size))
    ensures Extents(RelocateIn(t, a, to, size)) == FlatRelocate(Extents(t), a, to, size)
  {
    FindExact(t, to);
    if to == a {
      ResizeValid(t, a, size);
      assert Extents(t)[a := size] == (Extents(t) - {a})[a := size];
    } else if to !in Extents(t) {
      DeleteValid(t, a);
      InsertValid(Delete(t, a), to, size);
    }
  }

  lemma HalvesValid(t: Tree, a: U64, first: nat, at: U64, second: nat)
    requires Valid(t) && a in Extents(t) && at != a && at !in Extents(t)
    ensures Valid(Insert(Resize(t, a, first), at, second))
    ensures Extents(Insert(Resize(t, a, first), at, second)) == Extents(t)[a := first][at := second]
  {
    ResizeValid(t, a, first);
    var t1 := Resize(t, a, first);
    assert at !in Extents(t1);
    InsertValid(t1, at, second);
  }

  lemma SplitValid(t: Tree, a: U64, at: U64, size: nat)
    requires Valid(t) && a in Extents(t) && a <= at <= a + size
    ensures Valid(SplitIn(t, a, at, size)) && Extents(SplitIn(t, a, at, size)) == FlatSplit(Extents(t), a, at, size)
  {
    FindExact(t, at);
    if at in Extents(t) {
      assert SplitIn(t, a, at, size) == t;
    } else {
      var first: nat, second: nat := at - a, a + size - at;
      assert SplitIn(t, a, at, size) == Insert(Resize(t, a, first), at, second);
      assert FlatSplit(Extents(t), a, at, size) == Extents(t)[a := first][at := second];
      HalvesValid(t, a, first, at, second);
    }
  }

  /** Every operation keeps start addresses unique and every record exact, and does to the set of blocks what its flat
      meaning says. */
  lemma ApplyValid(t: Tree, op: Op)
    requires Valid(t) && Allowed(t, op)
    ensures op.Split? ==> op.a in Extents(t) && op.a <= op.at <= op.a + Extents(t)[op.a]
    ensures Valid(Apply(t, op)) && Extents(Apply(t, op)) == Flat(Extents(t), op)
  {
    match op
    case Create(a, size) => CreateValid(t, a, size);
    case SetSize(a, size) =>
      FindExact(t, a);
      ResizeValid(t, a, size);
    case Relocate(a, to, size) =>
      FindExact(t, a);
      RelocateValid(t, a, to, size);
    case Split(a, at) =>
      FindExact(t, a);
      SplitValid(t, a, at, Extents(t)[a]);
    case Unref(a) => DeleteValid(t, a);
    case Rotate(path, toLeft) => RotatedAtValid(t, path, toLeft);
  }

  lemma ApplyInRange(t: Tree, op: Op)
    requires Valid(t) && InRange(Extents(t)) && Allowed(t, op)
    ensures InRange(Extents(Apply(t, op)))
  {
    ApplyValid(t, op);
    if !op.Rotate? {
      FindExact(t, op.a);
    }
  }

  predicate AllAllowed(t: Tree, ops: seq<Op>)
    decreases |ops|
  {
    ops != [] ==> Allowed(t, ops[0]) && AllAllowed(Apply(t, ops[0]), ops[1..])
  }

  function ApplyAll(t: Tree, ops: seq<Op>): Tree
    requires AllAllowed(t, ops)
    decreases |ops|
  {
    if ops == [] then t else ApplyAll(Apply(t, ops[0]), ops[1..])
  }

  lemma {:induction false} RunValid(t: Tree, ops: seq<Op>)
    requires Valid(t) && InRange(Extents(t)) && AllAllowed(t, ops)
    ensures Valid(ApplyAll(t, ops)) && InRange(Extents(ApplyAll(t, ops)))
    decreases |ops|
  {
    if ops != [] {
      ApplyValid(t, ops[0]);
      ApplyInRange(t, ops[0]);
      RunValid(Apply(t, ops[0]), ops[1..]);
    }
  }

  // ----- queries

  /** The linear scan: all blocks, a node before its left and then its right subtree. */
  function Scan(t: Tree): seq<Extent> {
    if t.Leaf? then [] else [Extent(t.addr, t.size)] + Scan(t.left) + Scan(t.right)
  }

  /** The block starts before `end` and ends behind `lo`. */
  predicate Hits(e: Extent, lo: nat, end: nat) {
    e.addr < end && lo < e.addr + e.size
  }

  function Hitting(s: seq<Extent>, lo: nat, end: nat): seq<Extent> {
    if s == [] then [] else (if Hits(s[0], lo, end) then [s[0]] else []) + Hitting(s[1..], lo, end)
  }

  lemma {:induction false} HittingConcat(s: seq<Extent>, u: seq<Extent>, lo: nat, end: nat)
    ensures Hitting(s + u, lo, end) == Hitting(s, lo, end) + Hitting(u, lo, end)
  {
    if s == [] {
      assert s + u == u;
    } else {
      HittingConcat(s[1..], u, lo, end);
      assert (s + u)[0] == s[0] && (s + u)[1..] == s[1..] + u;
      var first := if Hits(s[0], lo, end) then [s[0]] else [];
      assert first + (Hitting(s[1..], lo, end) + Hitting(u, lo, end)) == first + Hitting(s[1..], lo, end) + Hitting(u, lo, end);
    }
  }

  lemma {:induction false} NoHits(s: seq<Extent>, lo: nat, end: nat)
    requires forall e :: e in s ==> !Hits(e, lo, end)
    ensures Hitting(s, lo, end) == []
  {
    if s != [] {
      NoHits(s[1..], lo, end);
    }
  }

  /** The scan lists every block of the tree once. */
  lemma {:induction false} ScanExact(t: Tree)
    requires Ordered(t)
    ensures Lists(Scan(t), Extents(t))
  {
    if t.Node? {
      ScanExact(t.left);
      ScanExact(t.right);
      ListsJoin(Scan(t.left), Extents(t.left), Extent(t.addr, t.size), Scan(t.right), Extents(t.right));
    }
  }

  lemma JoinLookup(l: map<U64, nat>, a: U64, s: nat, r: map<U64, nat>, e: Extent)
    requires a !in l && a !in r && l.Keys !! r.Keys
    ensures e.addr in Join(l, a, s, r) && Join(l, a, s, r)[e.addr] == e.size <==>
            || e == Extent(a, s)
            || (e.addr in l && l[e.addr] == e.size)
            || (e.addr in r && r[e.addr] == e.size)
  {
  }

  ghost predicate Lists(s: seq<Extent>, m: map<U64, nat>) {
    Distinct(s) && forall e :: e in s <==> e.addr in m && m[e.addr] == e.size
  }

  lemma ListsJoin(s: seq<Extent>, l: map<U64, nat>, root: Extent, u: seq<Extent>, r: map<U64, nat>)
    requires Lists(s, l) && Lists(u, r)
    requires (forall k :: k in l ==> k < root.addr) && (forall k :: k in r ==> root.addr < k)
    ensures Lists([root] + s + u, Join(l, root.addr, root.size, r))
  {
    assert forall e :: e in s ==> e.addr < root.addr;
    assert forall e :: e in u ==> root.addr < e.addr;
    DistinctConcat([root], s);
    DistinctConcat([root] + s, u);
    forall e ensures e in [root] + s + u <==>
                     e.addr in Join(l, root.addr, root.size, r) && Join(l, root.addr, root.size, r)[e.addr] == e.size
    {
      JoinLookup(l, root.addr, root.size, r, e);
    }
  }

  lemma DistinctConcat(s: seq<Extent>, u: seq<Extent>)
    requires Distinct(s) && Distinct(u) && forall e :: e in s ==> e !in u
    ensures Distinct(s + u)
  {
    forall i, j | 0 <= i < j < |s + u| ensures (s + u)[i] != (s + u)[j] {
      if i < |s| <= j {
        assert s[i] in s && u[j - |s|] in u;
      }
    }
  }

  /** What lies right of a node that starts at or behind `end`, and the node itself, cannot hit. */
  lemma DescendLeft(t: Tree, lo: nat, end: nat)
    requires t.Node? && Ordered(t) && end <= t.addr
    ensures Hitting(Scan(t), lo, end) == Hitting(Scan(t.left), lo, end)
  {
    var root := [Extent(t.addr, t.size)];
    HittingConcat(root + Scan(t.left), Scan(t.right), lo, end);
    HittingConcat(root, Scan(t.left), lo, end);
    ScanExact(t.right);
    NoHits(Scan(t.right), lo, end);
    NoHits(root, lo, end);
  }

  /** A subtree whose recorded end is not behind `lo` cannot hit. */
  lemma PrunedByEnd(t: Tree, lo: nat, end: nat)
    requires t.Node? && Valid(t) && lo >= t.maxEnd
    ensures Hitting(Scan(t), lo, end) == []
  {
    ScanExact(t);
    forall e | e in Scan(t) ensures !Hits(e, lo, end) {
      assert e.addr in Extents(t) && e.addr + Extents(t)[e.addr] <= t.maxEnd;
    }
    NoHits(Scan(t), lo, end);
  }

  lemma HittingNode(t: Tree, lo: nat, end: nat)
    requires t.Node?
    ensures Hitting(Scan(t), lo, end) ==
            NodeHit(t, lo, end) + Hitting(Scan(t.left), lo, end) + Hitting(Scan(t.right), lo, end)
  {
    var root := [Extent(t.addr, t.size)];
    HittingConcat(root + Scan(t.left), Scan(t.right), lo, end);
    HittingConcat(root, Scan(t.left), lo, end);
  }

  function NodeHit(t: Tree, lo: nat, end: nat): seq<Extent>
    requires t.Node?
  {
    if Hits(Extent(t.addr, t.size), lo, end) then [Extent(t.addr, t.size)] else []
  }

  /** The part of the list that gets visited when the callback may stop the visit. */
  function Visited(s: seq<Extent>, cb: Extent -> bool): seq<Extent> {
    if s == [] then [] else if cb(s[0]) then [s[0]] + Visited(s[1..], cb) else [s[0]]
  }

  predicate AllPass(s: seq<Extent>, cb: Extent -> bool) {
    forall e :: e in s ==> cb(e)
  }

  lemma {:induction false} VisitedConcat(s: seq<Extent>, u: seq<Extent>, cb: Extent -> bool)
    ensures AllPass(s, cb) ==> Visited(s + u, cb) == s + Visited(u, cb)
    ensures !AllPass(s, cb) ==> Visited(s + u, cb) == Visited(s, cb)
  {
    if s == [] {
      assert s + u == u;
    } else {
      VisitedConcat(s[1..], u, cb);
      assert (s + u)[0] == s[0] && (s + u)[1..] == s[1..] + u;
      assert forall e :: e in s <==> e == s[0] || e in s[1..];
    }
  }

  lemma {:induction false} VisitedAll(s: seq<Extent>, cb: Extent -> bool)
    requires AllPass(s, cb)
    ensures Visited(s, cb) == s
  {
    if s != [] {
      VisitedAll(s[1..], cb);
    }
  }

  /** A visit of three lists in a row goes on to the next only when the callback passed the one before. */
  lemma VisitedThree(h: seq<Extent>, l: seq<Extent>, r: seq<Extent>, cb: Extent -> bool)
    ensures Visited(h + l + r, cb) == if !AllPass(h, cb) then Visited(h, cb)
                                      else if !AllPass(l, cb) then h + Visited(l, cb)
                                      else h + l + Visited(r, cb)
    ensures AllPass(h + l + r, cb) <==> AllPass(h, cb) && AllPass(l, cb) && AllPass(r, cb)
  {
    VisitedConcat(h + l, r, cb);
    VisitedConcat(h, l, cb);
    assert AllPass(h + l, cb) <==> AllPass(h, cb) && AllPass(l, cb);
  }

  /**
   * All blocks that contain `addr`, node first, until the callback refuses one: exactly what filtering the linear scan
   * gives, in the same order, for overlapping blocks too.
   */
  method AllIn(t: Tree, addr: U64, cb: Extent -> bool) returns (ok: bool, visited: seq<Extent>)
    requires Valid(t)
    ensures visited == Visited(Hitting(Scan(t), addr, addr + 1), cb)
    ensures ok == AllPass(Hitting(Scan(t), addr, addr + 1), cb)
    decreases t, 1
  {
    var node := t;
    while node.Node? && addr < node.addr
      invariant Valid(node) && (node == t || node < t)
      invariant Hitting(Scan(node), addr, addr + 1) == Hitting(Scan(t), addr, addr + 1)
      decreases node
    {
      DescendLeft(node, addr, addr + 1);
      node := node.left;
    }
    if node.Leaf? {
      return true, [];
    }
    if addr >= node.maxEnd {
      PrunedByEnd(node, addr, addr + 1);
      return true, [];
    }
    ok, visited := AllInNode(node, addr, cb);
  }

  /** The rest of `all_in`, once a node that may contain the address is found. */
  method AllInNode(node: Tree, addr: U64, cb: Extent -> bool) returns (ok: bool, visited: seq<Extent>)
    requires Valid(node) && node.Node? && addr >= node.addr
    ensures visited == Visited(Hitting(Scan(node), addr, addr + 1), cb)
    ensures ok == AllPass(Hitting(Scan(node), addr, addr + 1), cb)
    decreases node, 0
  {
    Parts(node);
    HittingNode(node, addr, addr + 1);
    ghost var h, l, r := NodeHit(node, addr, addr + 1), Hitting(Scan(node.left), addr, addr + 1),
                         Hitting(Scan(node.right), addr, addr + 1);
    VisitedThree(h, l, r, cb);
    var root := Extent(node.addr, node.size);
    visited := [];
    if addr < node.addr + node.size {
      visited := [root];
      if !cb(root) {
        return false, visited;
      }
    }
    assert AllPass(h, cb) && visited == h;
    var more;
    ok, more := AllIn(node.left, addr, cb);
    visited := visited + more;
    if !ok {
      return;
    }
    VisitedAll(l, cb);
    ok, more := AllIn(node.right, addr, cb);
    visited := visited + more;
  }

  /** All blocks that start before the end of the query and end behind its start. The query's end wraps at 2^64. */
  method AllIntersect(t: Tree, addr: U64, size: U64) returns (visited: seq<Extent>)
    requires Valid(t)
    ensures visited == Hitting(Scan(t), addr, (addr + size) % (UT64_MAX + 1))
    decreases t
  {
    var end := (addr + size) % (UT64_MAX + 1);
    var node := t;
    while node.Node? && end <= node.addr
      invariant Valid(node) && (node == t || node < t)
      invariant Hitting(Scan(node), addr, end) == Hitting(Scan(t), addr, end)
      decreases node
    {
      DescendLeft(node, addr, end);
      node := node.left;
    }
    if node.Leaf? {
      return [];
    }
    if addr >= node.maxEnd {
      PrunedByEnd(node, addr, end);
      return [];
    }
    Parts(node);
    HittingNode(node, addr, end);
    visited := if addr < node.addr + node.size then [Extent(node.addr, node.size)] else [];
    var left := AllIntersect(node.left, addr, size);
    var right := AllIntersect(node.right, addr, size);
    visited := visited + left + right;
  }

  predicate Covers(addr: nat, size: nat, x: nat) {
    addr <= x < addr + size
  }

  /** A query that does not wrap reports a block exactly when the two share an address, if neither is empty. */
  lemma HitsMeansOverlap(e: Extent, addr: U64, size: nat)
    requires size > 0 && e.size > 0
    ensures Hits(e, addr, addr + size) <==> exists x: nat :: Covers(e.addr, e.size, x) && Covers(addr, size, x)
  {
    if Hits(e, addr, addr + size) {
      var x: nat := if e.addr < addr then addr else e.addr;
      assert Covers(e.addr, e.size, x) && Covers(addr, size, x);
    }
  }

  /** A query for one address reports the blocks that cover it. */
  lemma HitsMeansContains(e: Extent, addr: U64)
    ensures Hits(e, addr, addr + 1) <==> e.addr <= addr < e.addr + e.size
  {
  }

  /** The visit goes on as long as the callback agrees, and ends with the first block that it refuses. */
  lemma {:induction false} VisitedExact(s: seq<Extent>, cb: Extent -> bool)
    ensures Visited(s, cb) <= s && (|Visited(s, cb)| == |s| || (Visited(s, cb) != [] && !cb(Visited(s, cb)[|Visited(s, cb)| - 1])))
    ensures forall i :: 0 <= i < |Visited(s, cb)| - 1 ==> cb(s[i])
  {
    if s != [] && cb(s[0]) {
      VisitedExact(s[1..], cb);
      var v := Visited(s[1..], cb);
      assert s[1..][..|v|] == v && s == [s[0]] + s[1..];
      forall i | 0 <= i < |v| ensures cb(s[i]) {
        if i > 0 {
          assert cb(s[1..][i - 1]);
        }
      }
    }
  }

  /** Each block that hits is in the filtered scan, once, and nothing else is. */
  lemma {:induction false} HittingExact(s: seq<Extent>, lo: nat, end: nat)
    ensures forall e :: e in Hitting(s, lo, end) <==> e in s && Hits(e, lo, end)
    ensures Distinct(s) ==> Distinct(Hitting(s, lo, end))
  {
    if s != [] {
      HittingExact(s[1..], lo, end);
      var rest := Hitting(s[1..], lo, end);
      if Distinct(s) {
        assert Distinct(s[1..]) && s[0] !in s[1..];
        assert Hits(s[0], lo, end) ==> Distinct([s[0]] + rest);
      }
    }
  }

  /** After any run the filtered scan, and so the pruned query, holds exactly the blocks of the store that hit, each
      once. */
  lemma QueryAfterRun(ops: seq<Op>, lo: nat, end: nat)
    requires AllAllowed(Leaf, ops)
    ensures Valid(ApplyAll(Leaf, ops))
    ensures var found, blocks := Hitting(Scan(ApplyAll(Leaf, ops)), lo, end), Extents(ApplyAll(Leaf, ops));
            && Distinct(found)
            && forall e :: e in found <==> e.addr in blocks && blocks[e.addr] == e.size && Hits(e, lo, end)
  {
    RunValid(Leaf, ops);
    var t := ApplyAll(Leaf, ops);
    ScanExact(t);
    HittingExact(Scan(t), lo, end);
  }

  // ----- merge

  /** `merge` writes the absorbing block's size without recomputing any record. */
  function Overwrite(t: Tree, a: U64, s: nat): Tree {
    if t.Leaf? then Leaf
    else if a < t.addr then t.(left := Overwrite(t.left, a, s))
    else if a > t.addr then t.(right := Overwrite(t.right, a, s))
    else t.(size := s)
  }

  /** The index after block `b` was merged into `a`. */
  function Merged(t: Tree, a: U64, b: U64, s: nat): Tree {
    Delete(Overwrite(t, a, s), b)
  }

  ghost predicate NoStartBetween(e: map<U64, nat>, a: U64, b: U64) {
    forall k :: k in e ==> !(a < k < b)
  }

  lemma {:induction false} OverwriteExtents(t: Tree, a: U64, s: nat)
    requires Ordered(t) && a in Extents(t)
    ensures Ordered(Overwrite(t, a, s)) && Extents(Overwrite(t, a, s)) == Extents(t)[a := s]
  {
    if a != t.addr {
      JoinUpdate(Extents(t.left), t.addr, t.size, Extents(t.right), a, s);
    }
    if a < t.addr {
      OverwriteExtents(t.left, a, s);
    } else if a > t.addr {
      OverwriteExtents(t.right, a, s);
    }
  }

  /** When `a` is the last block of the tree, taking it out repairs every record it had made stale. */
  lemma {:induction false} OverwriteLast(t: Tree, a: U64, s: nat)
    requires Valid(t) && t.Node? && a in Extents(t) && forall k :: k in Extents(t) ==> k <= a
    ensures Overwrite(t, a, s).Node? && Last(Overwrite(t, a, s)) == Extent(a, s)
    ensures WithoutLast(Overwrite(t, a, s)) == WithoutLast(t) && Last(t).addr == a
  {
    Parts(t);
    if t.right.Node? {
      Parts(t.right);
      assert t.addr < a;
      OverwriteLast(t.right, a, s);
    }
  }

  /** Deleting `b` recomputes everything the overwritten size made stale, if no other block starts in between. */
  lemma {:induction false} MergedValid(t: Tree, a: U64, b: U64, s: nat)
    requires Valid(t) && a in Extents(t) && b in Extents(t) && a < b && NoStartBetween(Extents(t), a, b)
    ensures Valid(Merged(t, a, b, s)) && Extents(Merged(t, a, b, s)) == Extents(t)[a := s] - {b}
  {
    Parts(t);
    if b < t.addr {
      MergedValid(t.left, a, b, s);
      MergedLeft(t, a, b, s);
    } else if a > t.addr {
      MergedValid(t.right, a, b, s);
      MergedRight(t, a, b, s);
    } else if a == t.addr {
      DeleteValid(t.right, b);
      MergedAtA(t, a, b, s);
    } else {
      assert !(a < t.addr < b);
      MergedAtB(t, a, b, s);
    }
  }

  lemma MergedLeft(t: Tree, a: U64, b: U64, s: nat)
    requires Valid(t) && t.Node? && a < b < t.addr
    requires Valid(Merged(t.left, a, b, s)) && Extents(Merged(t.left, a, b, s)) == Extents(t.left)[a := s] - {b}
    requires a in Extents(t.left)
    ensures Valid(Merged(t, a, b, s)) && Extents(Merged(t, a, b, s)) == Extents(t)[a := s] - {b}
  {
    Parts(t);
    var l := Merged(t.left, a, b, s);
    assert Merged(t, a, b, s) == Summed(l, t.addr, t.size, t.right);
    SummedValid(l, t.addr, t.size, t.right);
    JoinRemove(Extents(t.left)[a := s], t.addr, t.size, Extents(t.right), b);
    JoinUpdate(Extents(t.left), t.addr, t.size, Extents(t.right), a, s);
  }

  lemma MergedRight(t: Tree, a: U64, b: U64, s: nat)
    requires Valid(t) && t.Node? && t.addr < a < b
    requires Valid(Merged(t.right, a, b, s)) && Extents(Merged(t.right, a, b, s)) == Extents(t.right)[a := s] - {b}
    requires a in Extents(t.right)
    ensures Valid(Merged(t, a, b, s)) && Extents(Merged(t, a, b, s)) == Extents(t)[a := s] - {b}
  {
    Parts(t);
    var r := Merged(t.right, a, b, s);
    assert Merged(t, a, b, s) == Summed(t.left, t.addr, t.size, r);
    SummedValid(t.left, t.addr, t.size, r);
    JoinRemove(Extents(t.left), t.addr, t.size, Extents(t.right)[a := s], b);
    JoinUpdate(Extents(t.left), t.addr, t.size, Extents(t.right), a, s);
  }

  lemma MergedAtA(t: Tree, a: U64, b: U64, s: nat)
    requires Valid(t) && t.Node? && t.addr == a < b
    requires Valid(Delete(t.right, b)) && Extents(Delete(t.right, b)) == Extents(t.right) - {b}
    ensures Valid(Merged(t, a, b, s)) && Extents(Merged(t, a, b, s)) == Extents(t)[a := s] - {b}
  {
    Parts(t);
    var r := Delete(t.right, b);
    assert Merged(t, a, b, s) == Summed(t.left, a, s, r);
    SummedValid(t.left, a, s, r);
    JoinRemove(Extents(t.left), a, s, Extents(t.right), b);
    assert Join(Extents(t.left), a, s, Extents(t.right)) == Extents(t)[a := s];
  }

  lemma MergedAtB(t: Tree, a: U64, b: U64, s: nat)
    requires Valid(t) && t.Node? && a < b == t.addr && a in Extents(t.left) && NoStartBetween(Extents(t), a, b)
    ensures Valid(Merged(t, a, b, s)) && Extents(Merged(t, a, b, s)) == Extents(t)[a := s] - {b}
  {
    Parts(t);
    forall k | k in Extents(t.left) ensures k <= a { assert !(a < k < b); }
    OverwriteLast(t.left, a, s);
    WithoutLastValid(t.left);
    var rest := WithoutLast(t.left);
    assert Merged(t, a, b, s) == Summed(rest, a, s, t.right);
    SummedValid(rest, a, s, t.right);
    assert Extents(t.left)[a := s] - {a} == Extents(rest);
    JoinAtB(Extents(t.left), a, s, b, t.size, Extents(t.right), Extents(rest));
  }

  lemma JoinAtB(l: map<U64, nat>, a: U64, s: nat, b: U64, size: nat, r: map<U64, nat>, rest: map<U64, nat>)
    requires a in l && b !in l && b !in r && a !in r && a != b && l[a := s] - {a} == rest
    ensures Join(rest, a, s, r) == Join(l, b, size, r)[a := s] - {b}
  {
    JoinRemoveRoot(l[a := s], b, size, r, a);
    JoinUpdate(l, b, size, r, a, s);
  }

  ghost predicate PartOf(m: map<U64, nat>, e: map<U64, nat>) {
    forall k :: k in m ==> k in e && m[k] == e[k]
  }

  /** Adds the listed blocks below the root of a tree. */
  lemma {:induction false} BuildOn(t: Tree, e: map<U64, nat>, keys: set<U64>) returns (r: Tree)
    requires Valid(t) && t.Node? && PartOf(Extents(t), e) && keys <= e.Keys && keys !! Extents(t).Keys
    ensures Valid(r) && r.Node? && r.addr == t.addr
    ensures PartOf(Extents(r), e) && Extents(r).Keys == Extents(t).Keys + keys
    decreases keys
  {
    if keys == {} {
      r := t;
    } else {
      var k :| k in keys;
      InsertValid(t, k, e[k]);
      var t' := Insert(t, k, e[k]);
      assert Extents(t').Keys == Extents(t).Keys + {k};
      r := BuildOn(t', e, keys - {k});
    }
  }

  /** Overwriting the size of a block that was inserted last leaves its own record stale. */
  lemma {:induction false} StaleLeaf(t: Tree, a: U64, s: nat, grown: nat)
    requires Valid(t) && a !in Extents(t) && grown > s
    ensures !Exact(Overwrite(Insert(t, a, s), a, grown))
  {
    if t.Leaf? {
      var leaf := Overwrite(Insert(t, a, s), a, grown);
      assert Extents(leaf) == map[a := grown] && leaf.maxEnd == a + s;
    } else if a < t.addr {
      StaleLeaf(t.left, a, s, grown);
    } else {
      StaleLeaf(t.right, a, s, grown);
    }
  }

  /** With a block starting in between, some tree of the same blocks goes stale. */
  lemma StaleShape(e: map<U64, nat>, a: U64, b: U64, m: U64) returns (t: Tree)
    requires a in e && b in e && m in e && a < m < b && e[b] > 0
    ensures Valid(t) && Extents(t) == e && !Exact(Merged(t, a, b, e[a] + e[b]))
  {
    InsertValid(Leaf, m, e[m]);
    var root := Insert(Leaf, m, e[m]);
    assert Extents(root) == map[m := e[m]];
    var t1 := BuildOn(root, e, e.Keys - {m, a});
    assert Extents(t1).Keys == e.Keys - {a};
    InsertValid(t1, a, e[a]);
    t := Insert(t1, a, e[a]);
    assert Extents(t1)[a := e[a]] == e;
    StaleBelow(t1, a, b, e[a], e[a] + e[b]);
  }

  /** The deletion of `b` to the right of the root recomputes nothing to its left. */
  lemma StaleBelow(t: Tree, a: U64, b: U64, s: nat, grown: nat)
    requires Valid(t) && t.Node? && a < t.addr < b && a !in Extents(t) && grown > s
    ensures !Exact(Merged(Insert(t, a, s), a, b, grown))
  {
    Parts(t);
    StaleLeaf(t.left, a, s, grown);
    assert Merged(Insert(t, a, s), a, b, grown).left == Overwrite(Insert(t.left, a, s), a, grown);
  }

  /** Merging adjacent blocks keeps the index exact whatever its shape, if and only if no other block starts strictly
      between the two. */
  lemma MergeKeepsIndex(e: map<U64, nat>, a: U64, b: U64)
    requires a in e && b in e && a < b && e[b] > 0
    ensures (forall t :: Valid(t) && Extents(t) == e ==> Exact(Merged(t, a, b, e[a] + e[b]))) <==> NoStartBetween(e, a, b)
  {
    if NoStartBetween(e, a, b) {
      forall t | Valid(t) && Extents(t) == e ensures Exact(Merged(t, a, b, e[a] + e[b])) {
        MergedValid(t, a, b, e[a] + e[b]);
      }
    } else {
      var m :| m in e && a < m < b;
      var t := StaleShape(e, a, b, m);
    }
  }
}
