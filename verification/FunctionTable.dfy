/** The list of functions and its two indexes, by name and by address. */
module FunctionTable {
  import opened Machine

  type Id = nat

  // ----- addresses wrap around

  function Sub(a: U64, b: U64): U64 {
    if a >= b then a - b else a - b + UT64_MAX + 1
  }

  function Add(a: U64, b: U64): U64 {
    if a + b <= UT64_MAX then a + b else a + b - UT64_MAX - 1
  }

  /** Offsets are relative to the function; taking the distance it moved from each leaves the absolute address. */
  lemma OffsetMoves(addr: U64, to: U64, off: U64)
    ensures Add(to, Sub(off, Sub(to, addr))) == Add(addr, off)
  {
  }

  /** The offset of an instruction after the move is its old offset less the distance. */
  lemma KeyMoves(addr: U64, to: U64, at: U64)
    ensures Sub(at, to) == Sub(Sub(at, addr), Sub(to, addr))
  {
  }

  // ----- data

  /** `accesses` holds the offsets of each variable's accesses, `instVars` the variables used at an offset. */
  datatype Info = Info(name: string, addr: U64, accesses: seq<seq<U64>>, instVars: map<U64, seq<nat>>)

  /** `objs` holds every function that was ever made, registered or not. */
  datatype Registry = Registry(fcns: seq<Id>, objs: map<Id, Info>, byName: map<string, Id>, byAddr: map<U64, Id>)

  ghost predicate Registered(s: Registry, id: Id) {
    id in s.fcns && id in s.objs
  }

  /** The tables are exact indexes of the list. */
  ghost predicate Indexed(s: Registry) {
    Distinct(s.fcns) && (forall id :: id in s.fcns ==> id in s.objs) && NamesExact(s) && AddrsExact(s)
  }

  ghost predicate NamesExact(s: Registry) {
    && (forall id :: Registered(s, id) ==> NameOf(s, s.objs[id].name) == Some(id))
    && (forall n :: n in s.byName ==> Registered(s, s.byName[n]) && s.objs[s.byName[n]].name == n)
  }

  ghost predicate AddrsExact(s: Registry) {
    && (forall id :: Registered(s, id) ==> AtAddr(s, s.objs[id].addr) == Some(id))
    && (forall a :: a in s.byAddr ==> Registered(s, s.byAddr[a]) && s.objs[s.byAddr[a]].addr == a)
  }

  function NameOf(s: Registry, n: string): Option<Id> {
    if n in s.byName then Some(s.byName[n]) else None
  }

  function AtAddr(s: Registry, a: U64): Option<Id> {
    if a in s.byAddr then Some(s.byAddr[a]) else None
  }

  /** So a lookup finds a function exactly when one is in the list under that name or address, and it is the only one. */
  lemma LookupExact(s: Registry, n: string, a: U64, id: Id)
    requires Indexed(s)
    ensures NameOf(s, n) == Some(id) <==> Registered(s, id) && s.objs[id].name == n
    ensures AtAddr(s, a) == Some(id) <==> Registered(s, id) && s.objs[id].addr == a
  {
  }

  // ----- operations

  /** A new function; it is registered unless its name or address is taken. */
  function Created(s: Registry, id: Id, name: string, addr: U64): Registry {
    if addr == UT64_MAX || name in s.byName || addr in s.byAddr then s
    else Registry(s.fcns + [id], s.objs[id := Info(name, addr, [], map[])], s.byName[name := id], s.byAddr[addr := id])
  }

  function Renamed(s: Registry, id: Id, name: string): Registry
    requires id in s.objs
  {
    if name in s.byName then s
    else s.(objs := s.objs[id := s.objs[id].(name := name)], byName := (s.byName - {s.objs[id].name})[name := id])
  }

  function MovedOffsets(offs: seq<U64>, delta: U64): (r: seq<U64>)
    ensures |r| == |offs| && forall i :: 0 <= i < |offs| ==> r[i] == Sub(offs[i], delta)
  {
    seq(|offs|, i requires 0 <= i < |offs| => Sub(offs[i], delta))
  }

  function MovedAccesses(vars: seq<seq<U64>>, delta: U64): (r: seq<seq<U64>>)
    ensures |r| == |vars| && forall v :: 0 <= v < |vars| ==> r[v] == MovedOffsets(vars[v], delta)
  {
    seq(|vars|, v requires 0 <= v < |vars| => MovedOffsets(vars[v], delta))
  }

  /** The same entries under moved keys. */
  function MovedKeys(m: map<U64, seq<nat>>, delta: U64): map<U64, seq<nat>> {
    map k: U64 | Add(k, delta) in m :: m[Add(k, delta)]
  }

  function MovedInfo(f: Info, to: U64): Info {
    var delta := Sub(to, f.addr);
    Info(f.name, to, MovedAccesses(f.accesses, delta), MovedKeys(f.instVars, delta))
  }

  function Relocated(s: Registry, id: Id, to: U64): Registry
    requires id in s.objs
  {
    if s.objs[id].addr == to || to in s.byAddr then s
    else s.(objs := s.objs[id := MovedInfo(s.objs[id], to)], byAddr := (s.byAddr - {s.objs[id].addr})[to := id])
  }

  function WithoutId(fcns: seq<Id>, id: Id): (r: seq<Id>)
    ensures forall x :: x in r ==> x in fcns
    ensures Distinct(fcns) ==> Distinct(r) && forall x :: x in r <==> x in fcns && x != id
  {
    if fcns == [] then []
    else if fcns[0] == id then fcns[1..]
    else
      var rest := WithoutId(fcns[1..], id);
      assert forall x :: x in fcns <==> x == fcns[0] || x in fcns[1..];
      assert Distinct(fcns) ==> fcns[0] !in fcns[1..];
      [fcns[0]] + rest
  }

  /** Taken off the list and freed. */
  function Deleted(s: Registry, id: Id): Registry
    requires id in s.objs
  {
    if id !in s.fcns then s
    else
      var f := s.objs[id];
      Registry(WithoutId(s.fcns, id), s.objs - {id},
               if NameOf(s, f.name) == Some(id) then s.byName - {f.name} else s.byName,
               if AtAddr(s, f.addr) == Some(id) then s.byAddr - {f.addr} else s.byAddr)
  }

  // ----- what they keep

  lemma CreatedIndexed(s: Registry, id: Id, name: string, addr: U64)
    requires Indexed(s) && id !in s.objs
    ensures Indexed(Created(s, id, name, addr))
  {
    var t := Created(s, id, name, addr);
    if t != s {
      var f := Info(name, addr, [], map[]);
      CreatedList(s, t, id);
      CreatedNames(s, t, id, f);
      CreatedAddrs(s, t, id, f);
    }
  }

  lemma CreatedList(s: Registry, t: Registry, id: Id)
    requires Distinct(s.fcns) && (forall x :: x in s.fcns ==> x in s.objs) && id !in s.objs && t.fcns == s.fcns + [id]
    requires t.objs.Keys == s.objs.Keys + {id}
    ensures Distinct(t.fcns) && (forall x :: x in t.fcns ==> x in t.objs) && forall x :: x in t.fcns <==> x in s.fcns || x == id
  {
    forall i | 0 <= i < |s.fcns| ensures s.fcns[i] != id {
      assert s.fcns[i] in s.fcns;
    }
  }

  lemma CreatedNames(s: Registry, t: Registry, id: Id, f: Info)
    requires NamesExact(s) && id !in s.objs && f.name !in s.byName
    requires t.objs == s.objs[id := f] && t.byName == s.byName[f.name := id]
    requires forall x :: x in t.fcns <==> x in s.fcns || x == id
    ensures NamesExact(t)
  {
    forall x | Registered(t, x) ensures NameOf(t, t.objs[x].name) == Some(x) {
      assert x == id || Registered(s, x);
    }
    forall n | n in t.byName ensures Registered(t, t.byName[n]) && t.objs[t.byName[n]].name == n {
      assert n == f.name || Registered(s, s.byName[n]);
    }
  }

  lemma CreatedAddrs(s: Registry, t: Registry, id: Id, f: Info)
    requires AddrsExact(s) && id !in s.objs && f.addr !in s.byAddr
    requires t.objs == s.objs[id := f] && t.byAddr == s.byAddr[f.addr := id]
    requires forall x :: x in t.fcns <==> x in s.fcns || x == id
    ensures AddrsExact(t)
  {
    forall x | Registered(t, x) ensures AtAddr(t, t.objs[x].addr) == Some(x) {
      assert x == id || Registered(s, x);
    }
    forall a | a in t.byAddr ensures Registered(t, t.byAddr[a]) && t.objs[t.byAddr[a]].addr == a {
      assert a == f.addr || Registered(s, s.byAddr[a]);
    }
  }

  lemma RenamedIndexed(s: Registry, id: Id, name: string)
    requires Indexed(s) && Registered(s, id)
    ensures Indexed(Renamed(s, id, name))
  {
    var t := Renamed(s, id, name);
    if name !in s.byName {
      RenamedNames(s, t, id, name);
      forall a | a in t.byAddr ensures Registered(t, t.byAddr[a]) && t.objs[t.byAddr[a]].addr == a {
        assert Registered(s, s.byAddr[a]);
      }
    }
  }

  lemma RenamedNames(s: Registry, t: Registry, id: Id, name: string)
    requires NamesExact(s) && Registered(s, id) && name !in s.byName && t.fcns == s.fcns
    requires t.objs == s.objs[id := s.objs[id].(name := name)] && t.byName == (s.byName - {s.objs[id].name})[name := id]
    ensures NamesExact(t)
  {
    forall x | Registered(t, x) ensures NameOf(t, t.objs[x].name) == Some(x) {
      assert Registered(s, x);
    }
    forall n | n in t.byName ensures Registered(t, t.byName[n]) && t.objs[t.byName[n]].name == n {
      assert n == name || Registered(s, s.byName[n]);
    }
  }

  lemma RelocatedIndexed(s: Registry, id: Id, to: U64)
    requires Indexed(s) && Registered(s, id)
    ensures Indexed(Relocated(s, id, to))
  {
    var t := Relocated(s, id, to);
    if s.objs[id].addr != to && to !in s.byAddr {
      RelocatedAddrs(s, t, id, to, MovedInfo(s.objs[id], to));
      forall n | n in t.byName ensures Registered(t, t.byName[n]) && t.objs[t.byName[n]].name == n {
        assert Registered(s, s.byName[n]);
      }
    }
  }

  lemma RelocatedAddrs(s: Registry, t: Registry, id: Id, to: U64, f: Info)
    requires AddrsExact(s) && Registered(s, id) && to !in s.byAddr && t.fcns == s.fcns && f.addr == to
    requires t.objs == s.objs[id := f] && t.byAddr == (s.byAddr - {s.objs[id].addr})[to := id]
    ensures AddrsExact(t)
  {
    forall x | Registered(t, x) ensures AtAddr(t, t.objs[x].addr) == Some(x) {
      assert Registered(s, x);
    }
    forall a | a in t.byAddr ensures Registered(t, t.byAddr[a]) && t.objs[t.byAddr[a]].addr == a {
      assert a == to || Registered(s, s.byAddr[a]);
    }
  }

  lemma DeletedIndexed(s: Registry, id: Id)
    requires Indexed(s) && Registered(s, id)
    ensures Indexed(Deleted(s, id)) && !Registered(Deleted(s, id), id)
  {
    var t, f := Deleted(s, id), s.objs[id];
    assert forall x :: x in t.fcns <==> x in s.fcns && x != id;
    assert t.objs == s.objs - {id} && t.byName == s.byName - {f.name} && t.byAddr == s.byAddr - {f.addr};
    DeletedNames(s, t, id);
    DeletedAddrs(s, t, id);
  }

  lemma DeletedNames(s: Registry, t: Registry, id: Id)
    requires NamesExact(s) && Registered(s, id) && t.objs == s.objs - {id} && t.byName == s.byName - {s.objs[id].name}
    requires forall x :: x in t.fcns <==> x in s.fcns && x != id
    ensures NamesExact(t)
  {
    forall x | Registered(t, x) ensures NameOf(t, t.objs[x].name) == Some(x) {
      assert Registered(s, x);
    }
    forall n | n in t.byName ensures Registered(t, t.byName[n]) && t.objs[t.byName[n]].name == n {
      assert Registered(s, s.byName[n]);
    }
  }

  lemma DeletedAddrs(s: Registry, t: Registry, id: Id)
    requires AddrsExact(s) && Registered(s, id) && t.objs == s.objs - {id} && t.byAddr == s.byAddr - {s.objs[id].addr}
    requires forall x :: x in t.fcns <==> x in s.fcns && x != id
    ensures AddrsExact(t)
  {
    forall x | Registered(t, x) ensures AtAddr(t, t.objs[x].addr) == Some(x) {
      assert Registered(s, x);
    }
    forall a | a in t.byAddr ensures Registered(t, t.byAddr[a]) && t.objs[t.byAddr[a]].addr == a {
      assert Registered(s, s.byAddr[a]);
    }
  }

  // ----- what a move keeps

  function VarsAt(f: Info, at: U64): seq<nat> {
    if Sub(at, f.addr) in f.instVars then f.instVars[Sub(at, f.addr)] else []
  }

  lemma AddSub(k: U64, delta: U64)
    ensures Add(Sub(k, delta), delta) == k && Sub(Add(k, delta), delta) == k
  {
  }

  /** Every access stays at its absolute address, and every instruction address finds the variables it found before. */
  lemma MoveKeepsAddresses(f: Info, to: U64)
    ensures forall v, i :: 0 <= v < |f.accesses| && 0 <= i < |f.accesses[v]| ==>
                             Add(to, MovedInfo(f, to).accesses[v][i]) == Add(f.addr, f.accesses[v][i])
    ensures forall at :: VarsAt(MovedInfo(f, to), at) == VarsAt(f, at)
    ensures |MovedInfo(f, to).instVars| == |f.instVars|
  {
    var delta := Sub(to, f.addr);
    forall v, i | 0 <= v < |f.accesses| && 0 <= i < |f.accesses[v]|
      ensures Add(to, MovedInfo(f, to).accesses[v][i]) == Add(f.addr, f.accesses[v][i])
    {
      OffsetMoves(f.addr, to, f.accesses[v][i]);
    }
    forall at ensures VarsAt(MovedInfo(f, to), at) == VarsAt(f, at) {
      KeyMoves(f.addr, to, at);
      AddSub(Sub(at, f.addr), delta);
    }
    MovedKeysCount(f.instVars, delta);
  }

  /** No two keys collide. */
  lemma {:induction false} MovedKeysCount(m: map<U64, seq<nat>>, delta: U64)
    ensures |MovedKeys(m, delta)| == |m|
    decreases |m|
  {
    if m == map[] {
      assert MovedKeys(m, delta) == map[];
    } else {
      var k :| k in m;
      var k' := Sub(k, delta);
      AddSub(k, delta);
      MovedKeysCount(m - {k}, delta);
      forall x: U64 ensures Add(x, delta) == k <==> x == k' {
        AddSub(x, delta);
      }
      assert MovedKeys(m, delta) - {k'} == MovedKeys(m - {k}, delta);
      assert |m - {k}| == |m| - 1;
      assert |MovedKeys(m, delta) - {k'}| == |MovedKeys(m, delta)| - 1;
    }
  }

  /** `off` behind `base` and `off'` behind `base'` are the same address, modulo 2^64. */
  ghost predicate SameAddress(base: U64, off: U64, base': U64, off': U64) {
    (base + off) % (UT64_MAX + 1) == (base' + off') % (UT64_MAX + 1)
  }

  /** `g` is `f` at another address: same name, every access where it was, and at every address the same variables. */
  ghost predicate MovedFrom(f: Info, g: Info, to: U64) {
    && g.addr == to && g.name == f.name && |g.accesses| == |f.accesses|
    && (forall v :: 0 <= v < |f.accesses| ==> |g.accesses[v]| == |f.accesses[v]|)
    && (forall v, i :: 0 <= v < |f.accesses| && 0 <= i < |f.accesses[v]| && i < |g.accesses[v]| ==>
          SameAddress(f.addr, f.accesses[v][i], to, g.accesses[v][i]))
    && (forall k, k' {:trigger SameAddress(f.addr, k, to, k')} :: SameAddress(f.addr, k, to, k') ==>
          (k in f.instVars <==> k' in g.instVars) && (k in f.instVars && k' in g.instVars ==> g.instVars[k'] == f.instVars[k]))
  }

  lemma AddWraps(a: U64, b: U64)
    ensures Add(a, b) == (a + b) % (UT64_MAX + 1)
  {
  }

  lemma SameKey(addr: U64, k: U64, to: U64, k': U64)
    ensures SameAddress(addr, k, to, k') <==> k == Add(k', Sub(to, addr))
  {
  }

  lemma MovedInfoFrom(f: Info, to: U64)
    ensures MovedFrom(f, MovedInfo(f, to), to)
  {
    var g := MovedInfo(f, to);
    forall v, i | 0 <= v < |f.accesses| && 0 <= i < |f.accesses[v]|
      ensures SameAddress(f.addr, f.accesses[v][i], to, g.accesses[v][i])
    {
      OffsetMoves(f.addr, to, f.accesses[v][i]);
      AddWraps(to, g.accesses[v][i]);
      AddWraps(f.addr, f.accesses[v][i]);
    }
    forall k, k' | SameAddress(f.addr, k, to, k')
      ensures k in f.instVars <==> k' in g.instVars
      ensures k in f.instVars && k' in g.instVars ==> g.instVars[k'] == f.instVars[k]
    {
      SameKey(f.addr, k, to, k');
    }
  }

  lemma StaysFrom(f: Info)
    ensures MovedFrom(f, f, f.addr)
  {
    forall k, k' | SameAddress(f.addr, k, f.addr, k') ensures k == k' {
      SameKey(f.addr, k, f.addr, k');
    }
  }

  // ----- every run

  datatype Call =
    | Create(id: Id, name: string, addr: U64)
    | Rename(id: Id, name: string)
    | Relocate(id: Id, to: U64)
    | Delete(id: Id)

  ghost predicate Allowed(s: Registry, c: Call) {
    if c.Create? then c.id !in s.objs else Registered(s, c.id)
  }

  ghost function Exec(s: Registry, c: Call): Registry
    requires Allowed(s, c)
  {
    match c
    case Create(id, name, addr) => Created(s, id, name, addr)
    case Rename(id, name) => Renamed(s, id, name)
    case Relocate(id, to) => Relocated(s, id, to)
    case Delete(id) => Deleted(s, id)
  }

  ghost predicate AllAllowed(s: Registry, calls: seq<Call>)
    decreases |calls|
  {
    calls != [] ==> Allowed(s, calls[0]) && AllAllowed(Exec(s, calls[0]), calls[1..])
  }

  ghost function ExecAll(s: Registry, calls: seq<Call>): Registry
    requires AllAllowed(s, calls)
    decreases |calls|
  {
    if calls == [] then s else ExecAll(Exec(s, calls[0]), calls[1..])
  }

  lemma ExecIndexed(s: Registry, c: Call)
    requires Indexed(s) && Allowed(s, c)
    ensures Indexed(Exec(s, c))
  {
    match c
    case Create(id, name, addr) => CreatedIndexed(s, id, name, addr);
    case Rename(id, name) => RenamedIndexed(s, id, name);
    case Relocate(id, to) => RelocatedIndexed(s, id, to);
    case Delete(id) => DeletedIndexed(s, id);
  }

  /** Each call does what it is named after, or nothing if it would break an index; other functions are untouched. */
  lemma ExecDoes(s: Registry, c: Call)
    requires Indexed(s) && Allowed(s, c)
    ensures var t := Exec(s, c);
            && (c.Create? ==> if c.addr == UT64_MAX || c.name in s.byName || c.addr in s.byAddr then t == s
                              else Registered(t, c.id) && t.objs[c.id].name == c.name && t.objs[c.id].addr == c.addr)
            && (c.Rename? ==> c.id in t.objs && t.objs[c.id].addr == s.objs[c.id].addr
                              && t.objs[c.id].name == if c.name in s.byName then s.objs[c.id].name else c.name)
            && (c.Relocate? ==> if c.to in s.byAddr then t == s else c.id in t.objs && MovedFrom(s.objs[c.id], t.objs[c.id], c.to))
            && (c.Delete? ==> !Registered(t, c.id))
    ensures forall id :: id in s.objs && id != c.id ==> id in Exec(s, c).objs && Exec(s, c).objs[id] == s.objs[id]
  {
    match c
    case Create(id, name, addr) =>
    case Rename(id, name) =>
    case Relocate(id, to) =>
      MovedInfoFrom(s.objs[id], to);
      assert s.objs[id].addr in s.byAddr;
    case Delete(id) => DeletedIndexed(s, id);
  }

  lemma {:induction false} RunIndexed(s: Registry, calls: seq<Call>)
    requires Indexed(s) && AllAllowed(s, calls)
    ensures Indexed(ExecAll(s, calls))
    decreases |calls|
  {
    if calls != [] {
      ExecIndexed(s, calls[0]);
      RunIndexed(Exec(s, calls[0]), calls[1..]);
    }
  }

  // ----- the operations as they run

  class Functions {
    var fcns: seq<Id>
    var objs: map<Id, Info>
    var byName: map<string, Id>
    var byAddr: map<U64, Id>

    ghost function State(): Registry
      reads this
    {
      Registry(fcns, objs, byName, byAddr)
    }

    constructor ()
      ensures State() == Registry([], map[], map[], map[]) && Indexed(State())
    {
      fcns, objs, byName, byAddr := [], map[], map[], map[];
    }

    method NameExists(name: string, addr: U64) returns (r: bool)
      ensures r <==> addr == UT64_MAX || name in byName
    {
      if addr == UT64_MAX {
        return true;
      }
      return name in byName;
    }

    /** `id` is the new object; `autoName` is used when no name is given. */
    method CreateFunction(id: Id, name: Option<string>, autoName: string, addr: U64) returns (ok: bool)
      requires Indexed(State()) && id !in objs
      modifies this
      ensures Indexed(State()) && (ok <==> Registered(State(), id))
      ensures var n := if name.Some? then name.value else autoName;
              && (ok <==> addr != UT64_MAX && n !in old(byName) && addr !in old(byAddr))
              && (ok ==> fcns == old(fcns) + [id] && objs.Keys == old(objs.Keys) + {id}
                         && objs[id].name == n && objs[id].addr == addr && objs[id].accesses == [] && objs[id].instVars == map[])
      ensures !ok ==> State() == old(State())
      ensures forall x :: x in old(objs) ==> x in objs && objs[x] == old(objs)[x]
      ensures State() == old(Created(State(), id, if name.Some? then name.value else autoName, addr))
    {
      var n := if name.Some? then name.value else autoName;
      CreatedIndexed(State(), id, n, addr);
      var taken := NameExists(n, addr);
      if taken || addr in byAddr {
        return false;
      }
      objs := objs[id := Info(n, addr, [], map[])];
      fcns := fcns + [id];
      byName := byName[n := id];
      byAddr := byAddr[addr := id];
      ok := true;
    }

    method RenameFunction(id: Id, name: string) returns (ok: bool)
      requires Indexed(State()) && Registered(State(), id)
      modifies this
      ensures Indexed(State()) && State() == old(Renamed(State(), id, name))
      ensures ok <==> name !in old(byName) || old(byName)[name] == id
      ensures !ok ==> State() == old(State())
      ensures ok ==> id in objs && objs[id].name == name && objs[id].addr == old(objs[id].addr)
                     && objs[id].accesses == old(objs[id].accesses) && objs[id].instVars == old(objs[id].instVars)
      ensures fcns == old(fcns) && byAddr == old(byAddr) && objs.Keys == old(objs.Keys)
      ensures forall x :: x in objs && x != id ==> objs[x] == old(objs)[x]
    {
      RenamedIndexed(State(), id, name);
      if name in byName {
        return byName[name] == id;
      }
      var inTree := objs[id].name in byName;
      byName := byName - {objs[id].name};
      objs := objs[id := objs[id].(name := name)];
      if inTree {
        byName := byName[name := id];
      }
      ok := true;
    }

    /** Moves every access of every variable in place. */
    method MoveAccesses(id: Id, delta: U64)
      requires id in objs
      modifies this`objs
      ensures objs == old(objs)[id := old(objs[id]).(accesses := MovedAccesses(old(objs[id].accesses), delta))]
    {
      ghost var was := objs[id].accesses;
      var vars := objs[id].accesses;
      for v := 0 to |vars|
        invariant |vars| == |was|
        invariant forall w :: 0 <= w < |was| ==> vars[w] == if w < v then MovedOffsets(was[w], delta) else was[w]
      {
        var offs := vars[v];
        for i := 0 to |offs|
          invariant |offs| == |was[v]|
          invariant forall k :: 0 <= k < |offs| ==> offs[k] == if k < i then Sub(was[v][k], delta) else was[v][k]
        {
          offs := offs[i := Sub(offs[i], delta)];
        }
        assert offs == MovedOffsets(was[v], delta);
        vars := vars[v := offs];
      }
      assert vars == MovedAccesses(was, delta);
      objs := objs[id := objs[id].(accesses := vars)];
    }

    /** Moves the function itself and all that is stored relative to it. */
    method MoveOffsets(id: Id, to: U64)
      requires id in objs
      modifies this`objs
      ensures objs == old(objs)[id := MovedInfo(old(objs[id]), to)]
    {
      var delta := Sub(to, objs[id].addr);
      MoveAccesses(id, delta);
      var moved := RelocateInstVars(objs[id].instVars, delta);
      objs := objs[id := objs[id].(instVars := moved)];
      objs := objs[id := objs[id].(addr := to)];
      assert objs[id] == MovedInfo(old(objs[id]), to);
    }

    method RelocateFunction(id: Id, to: U64) returns (ok: bool)
      requires Indexed(State()) && Registered(State(), id)
      modifies this
      ensures Indexed(State()) && State() == old(Relocated(State(), id, to))
      ensures ok <==> old(objs[id].addr) == to || to !in old(byAddr)
      ensures !ok ==> State() == old(State())
      ensures ok ==> id in objs && MovedFrom(old(objs[id]), objs[id], to)
      ensures fcns == old(fcns) && byName == old(byName) && objs.Keys == old(objs.Keys)
      ensures forall x :: x in objs && x != id ==> objs[x] == old(objs)[x]
    {
      RelocatedIndexed(State(), id, to);
      MovedInfoFrom(objs[id], to);
      StaysFrom(objs[id]);
      if objs[id].addr == to {
        return true;
      }
      if to in byAddr {
        return false;
      }
      byAddr := byAddr - {objs[id].addr};
      MoveOffsets(id, to);
      byAddr := byAddr[to := id];
      ok := true;
    }

    method DeleteFunction(id: Id) returns (ok: bool)
      requires Indexed(State()) && id in objs
      modifies this
      ensures Indexed(State()) && State() == old(Deleted(State(), id)) && (ok <==> old(id in fcns))
      ensures !Registered(State(), id)
      ensures !ok ==> State() == old(State())
      ensures forall x :: x in fcns <==> x in old(fcns) && x != id
      ensures forall x :: x in old(objs) && x != id ==> x in objs && objs[x] == old(objs)[x]
      ensures forall x :: x in objs ==> x in old(objs) && (ok ==> x != id)
    {
      if id !in fcns {
        return false;
      }
      DeletedIndexed(State(), id);
      fcns := WithoutId(fcns, id);
      var f := objs[id];
      if f.addr in byAddr && byAddr[f.addr] == id {
        byAddr := byAddr - {f.addr};
      }
      if f.name in byName && byName[f.name] == id {
        byName := byName - {f.name};
      }
      objs := objs - {id};
      ok := true;
    }
  }

  /** Fills a new table; an insertion does nothing if its key is there already. */
  method RelocateInstVars(m: map<U64, seq<nat>>, delta: U64) returns (r: map<U64, seq<nat>>)
    ensures r == MovedKeys(m, delta)
  {
    var todo := m;
    r := map[];
    while todo != map[]
      invariant forall k: U64 :: k in r <==> Add(k, delta) in m && Add(k, delta) !in todo
      invariant forall k: U64 :: k in r ==> r[k] == m[Add(k, delta)]
      invariant forall k :: k in todo ==> k in m && todo[k] == m[k]
      decreases |todo|
    {
      var k :| k in todo;
      var k' := Sub(k, delta);
      AddSub(k, delta);
      if k' !in r {
        r := r[k' := todo[k]];
      }
      forall x: U64 ensures Add(x, delta) == k <==> x == k' {
        AddSub(x, delta);
      }
      todo := todo - {k};
    }
  }
}
