/**
 * The connection pool: a vector of slots, an index by address, and a stack of
 * free slots. It must behave as a plain map.
 */
module Pools {
  import opened Basics

  datatype Addr = Addr(ip: nat, port: nat)

  datatype Pool<T> = Pool(slots: seq<Option<T>>, index: map<Addr, nat>, free: seq<nat>)
  {
    ghost predicate Valid() { IndexWell() && FreeWell() && EmptySlotsAreFree() }

    /** Mapped slots are distinct and occupied. */
    ghost predicate IndexWell() {
      && (forall a | a in index :: index[a] < |slots| && slots[index[a]].Some?)
      && (forall a, b | a in index && b in index && index[a] == index[b] :: a == b)
    }

    /** Free slots are distinct and empty, so disjoint from the mapped ones. */
    ghost predicate FreeWell() {
      && (forall i | 0 <= i < |free| :: free[i] < |slots| && slots[free[i]].None?)
      && (forall i, j | 0 <= i < j < |free| :: free[i] != free[j])
    }

    ghost predicate EmptySlotsAreFree() {
      forall s | 0 <= s < |slots| && slots[s].None? :: s in free
    }

    /** The plain map the pool stands for. */
    function View(): map<Addr, T>
      requires Valid()
    {
      map a | a in index :: slots[index[a]].value
    }

    function Get(a: Addr): (r: Option<T>)
      requires Valid()
      ensures r == if a in View() then Some(View()[a]) else None
    {
      if a in index then slots[index[a]] else None
    }
  }

  function Empty<T>(): Pool<T> { Pool([], map[], []) }

  /** Take the last freed slot, or a new one; a mapped address moves to it. */
  function Inserted<T>(p: Pool<T>, a: Addr, conn: T): Pool<T>
    requires p.Valid()
  {
    if p.free != [] then
      var s := p.free[|p.free| - 1];
      Pool(p.slots[s := Some(conn)], p.index[a := s], p.free[..|p.free| - 1])
    else
      Pool(p.slots + [Some(conn)], p.index[a := |p.slots|], [])
  }

  function Removed<T>(p: Pool<T>, a: Addr): Pool<T>
    requires p.Valid()
  {
    if a in p.index
    then Pool(p.slots[p.index[a] := None], p.index - {a}, p.free + [p.index[a]])
    else p
  }

  /** A slot an insert may take: beyond the end, or on top of the free stack. */
  lemma InsertTakesUnusedSlot<T>(p: Pool<T>, a: Addr, conn: T)
    requires p.Valid()
    ensures var s := Inserted(p, a, conn).index[a];
      && (forall b | b in p.index :: p.index[b] != s)
      && (s < |p.slots| ==> p.slots[s].None?)
      && (s < |p.slots| ==> p.free == Inserted(p, a, conn).free + [s])
  {
  }

  lemma InsertKeepsIndex<T>(p: Pool<T>, a: Addr, conn: T)
    requires p.Valid()
    ensures Inserted(p, a, conn).IndexWell()
    ensures forall b | b in p.index && b != a ::
      Inserted(p, a, conn).slots[p.index[b]] == p.slots[p.index[b]]
  {
    InsertTakesUnusedSlot(p, a, conn);
    var q := Inserted(p, a, conn);
    forall b | b in q.index
      ensures q.index[b] < |q.slots| && q.slots[q.index[b]].Some?
      ensures b != a ==> q.index[b] != q.index[a] && q.slots[q.index[b]] == p.slots[p.index[b]]
    {
      if b != a { assert b in p.index && q.index[b] == p.index[b]; }
    }
    forall b, c | b in q.index && c in q.index && q.index[b] == q.index[c] ensures b == c {
      if b != a && c != a { assert p.index[b] == p.index[c]; }
    }
  }

  lemma InsertKeepsFree<T>(p: Pool<T>, a: Addr, conn: T)
    requires p.Valid()
    ensures Inserted(p, a, conn).FreeWell()
    ensures Inserted(p, a, conn).EmptySlotsAreFree()
  {
    var q := Inserted(p, a, conn);
    if p.free != [] {
      var s := p.free[|p.free| - 1];
      forall e | 0 <= e < |q.slots| && q.slots[e].None? ensures e in q.free {
        assert e in p.free && e != s;
      }
    }
  }

  lemma InsertRefinesMap<T>(p: Pool<T>, a: Addr, conn: T)
    requires p.Valid()
    ensures Inserted(p, a, conn).Valid()
    ensures Inserted(p, a, conn).View() == p.View()[a := conn]
  {
    InsertKeepsIndex(p, a, conn);
    InsertKeepsFree(p, a, conn);
    var q := Inserted(p, a, conn);
    forall b | b in q.View() ensures q.View()[b] == p.View()[a := conn][b] {
      if b != a { assert q.index[b] == p.index[b]; }
    }
    assert q.View().Keys == p.View()[a := conn].Keys;
  }

  lemma RemoveKeepsFree<T>(p: Pool<T>, a: Addr)
    requires p.Valid() && a in p.index
    ensures Removed(p, a).FreeWell()
    ensures Removed(p, a).EmptySlotsAreFree()
  {
    var q := Removed(p, a);
    var s := p.index[a];
    forall i | 0 <= i < |p.free| ensures q.free[i] == p.free[i] != s {
      assert p.slots[p.free[i]].None?;
    }
    forall e | 0 <= e < |q.slots| && q.slots[e].None? ensures e in q.free {
      if e == s {
        assert q.free[|p.free|] == s;
      } else {
        assert e in p.free;
      }
    }
  }

  lemma RemoveRefinesMap<T>(p: Pool<T>, a: Addr)
    requires p.Valid()
    ensures Removed(p, a).Valid()
    ensures Removed(p, a).View() == p.View() - {a}
  {
    if a in p.index {
      RemoveKeepsFree(p, a);
      var q := Removed(p, a);
      forall b | b in q.index ensures q.slots[q.index[b]] == p.slots[p.index[b]] {
        assert p.index[b] != p.index[a];
      }
      assert q.View().Keys == (p.View() - {a}).Keys;
    }
  }

  // ---- whole histories ----

  datatype Op<T> = Put(a: Addr, conn: T) | Delete(a: Addr)

  function MapAfter<T>(ops: seq<Op<T>>): map<Addr, T> {
    if ops == [] then map[]
    else
      var before := MapAfter(ops[..|ops| - 1]);
      match ops[|ops| - 1]
      case Put(a, conn) => before[a := conn]
      case Delete(a) => before - {a}
  }

  function PoolAfter<T>(ops: seq<Op<T>>): (p: Pool<T>)
    ensures p.Valid() && p.View() == MapAfter(ops)
  {
    if ops == [] then Empty()
    else
      var before := PoolAfter(ops[..|ops| - 1]);
      match ops[|ops| - 1]
      case Put(a, conn) =>
        InsertRefinesMap(before, a, conn);
        Inserted(before, a, conn)
      case Delete(a) =>
        RemoveRefinesMap(before, a);
        Removed(before, a)
  }

  /** Inserts of an address that was already connected. */
  function Overwrites<T>(ops: seq<Op<T>>): nat {
    if ops == [] then 0
    else
      var n := Overwrites(ops[..|ops| - 1]);
      var last := ops[|ops| - 1];
      if last.Put? && last.a in MapAfter(ops[..|ops| - 1]) then n + 1 else n
  }

  /** The most connections ever live at once. */
  function Peak<T>(ops: seq<Op<T>>): nat {
    if ops == [] then 0
    else
      var n := Peak(ops[..|ops| - 1]);
      if |MapAfter(ops)| > n then |MapAfter(ops)| else n
  }

  lemma LiveCount<T>(p: Pool<T>)
    requires p.Valid()
    ensures |p.View()| == |p.index|
  {
    assert p.View().Keys == p.index.Keys;
  }

  lemma InsertConserves<T>(p: Pool<T>, a: Addr, conn: T)
    requires p.Valid()
    ensures var q := Inserted(p, a, conn);
      |q.slots| == |q.index| + |q.free| + |p.slots| - |p.index| - |p.free| + (if a in p.index then 1 else 0)
  {
    SizeAfterPut(p.index, a, Inserted(p, a, conn).index[a]);
  }

  lemma RemoveConserves<T>(p: Pool<T>, a: Addr)
    requires p.Valid()
    ensures var q := Removed(p, a);
      |q.slots| == |q.index| + |q.free| + |p.slots| - |p.index| - |p.free|
  {
    SizeAfterDelete(p.index, a);
  }

  /** Slots are conserved: each is live, free, or lost to an overwriting insert. */
  lemma {:induction false} SlotsConserved<T>(ops: seq<Op<T>>)
    ensures var p := PoolAfter(ops);
      |p.slots| == |MapAfter(ops)| + |p.free| + Overwrites(ops)
  {
    LiveCount(PoolAfter(ops));
    if ops != [] {
      SlotsConserved(ops[..|ops| - 1]);
      var before := PoolAfter(ops[..|ops| - 1]);
      LiveCount(before);
      match ops[|ops| - 1]
      case Put(a, conn) => InsertConserves(before, a, conn);
      case Delete(a) => RemoveConserves(before, a);
    }
  }

  /** Slots are reused: the pool is never larger than its peak load plus what was lost. */
  lemma {:induction false} SlotsWithinPeak<T>(ops: seq<Op<T>>)
    ensures Peak(ops) <= |PoolAfter(ops).slots| <= Peak(ops) + Overwrites(ops)
  {
    SlotsConserved(ops);
    if ops != [] {
      SlotsWithinPeak(ops[..|ops| - 1]);
      SlotsConserved(ops[..|ops| - 1]);
    }
  }

  /** With only fresh inserts, the slot count is the peak number of live connections. */
  lemma FreshInsertsNeverLeak<T>(ops: seq<Op<T>>)
    requires forall n | 0 <= n < |ops| && ops[n].Put? :: ops[n].a !in MapAfter(ops[..n])
    ensures |PoolAfter(ops).slots| == Peak(ops)
  {
    NoOverwrites(ops);
    SlotsWithinPeak(ops);
  }

  lemma {:induction false} NoOverwrites<T>(ops: seq<Op<T>>)
    requires forall n | 0 <= n < |ops| && ops[n].Put? :: ops[n].a !in MapAfter(ops[..n])
    ensures Overwrites(ops) == 0
  {
    if ops != [] {
      var init := ops[..|ops| - 1];
      forall n | 0 <= n < |init| && init[n].Put? ensures init[n].a !in MapAfter(init[..n]) {
        assert init[..n] == ops[..n];
      }
      NoOverwrites(init);
    }
  }

  // ---- the class ----

  class IndexedConnections<T> {
    var slots: seq<Option<T>>
    var index: map<Addr, nat>
    var free: seq<nat>

    function State(): Pool<T>
      reads this
    {
      Pool(slots, index, free)
    }

    ghost predicate Valid()
      reads this
    {
      State().Valid()
    }

    ghost function View(): map<Addr, T>
      reads this
      requires Valid()
    {
      State().View()
    }

    constructor ()
      ensures Valid() && State() == Empty() && View() == map[]
    {
      slots, index, free := [], map[], [];
    }

    method Insert(a: Addr, conn: T)
      requires Valid()
      modifies this
      ensures Valid() && State() == Inserted(old(State()), a, conn)
      ensures View() == old(View())[a := conn]
    {
      InsertRefinesMap(State(), a, conn);
      if free != [] {
        var s := free[|free| - 1];
        free := free[..|free| - 1];
        slots := slots[s := Some(conn)];
        index := index[a := s];
      } else {
        var s := |slots|;
        slots := slots + [Some(conn)];
        index := index[a := s];
      }
    }

    function Get(a: Addr): (r: Option<T>)
      reads this
      requires Valid()
      ensures r == if a in View() then Some(View()[a]) else None
    {
      State().Get(a)
    }

    method Remove(a: Addr) returns (removed: Option<T>)
      requires Valid()
      modifies this
      ensures Valid() && State() == Removed(old(State()), a)
      ensures View() == old(View()) - {a}
      ensures removed == old(Get(a))
    {
      RemoveRefinesMap(State(), a);
      if a in index {
        var s := index[a];
        index := index - {a};
        removed := slots[s];
        slots := slots[s := None];
        free := free + [s];
      } else {
        removed := None;
      }
    }

    function Len(): (n: nat)
      reads this
      requires Valid()
      ensures n == |View()|
    {
      assert View().Keys == index.Keys;
      |index|
    }

    /** Every live connection once, in the order of the index. */
    method Iter() returns (items: seq<(Addr, T)>)
      requires Valid()
      ensures Lists(items, View(), View().Keys)
    {
      hide Lists, Pool.FreeWell, Pool.EmptySlotsAreFree;
      items := [];
      ListsNothing(View());
      var rest := index.Keys;
      assert index.Keys - rest == {};
      while rest != {}
        invariant rest <= index.Keys
        invariant Lists(items, View(), index.Keys - rest)
        decreases |rest|
      {
        var a :| a in rest;
        ListsOneMore(items, View(), index.Keys - rest, a);
        assert index.Keys - (rest - {a}) == index.Keys - rest + {a};
        rest := rest - {a};
        items := items + [(a, slots[index[a]].value)];
      }
      assert View().Keys == index.Keys == index.Keys - rest;
    }

    /** Every live connection once, in the order of the slots; lost slots are skipped. */
    method IterMut() returns (items: seq<(Addr, T)>)
      requires Valid()
      ensures Lists(items, View(), View().Keys)
    {
      hide Lists, Pool.FreeWell, Pool.EmptySlotsAreFree;
      items := [];
      ListsNothing(View());
      ghost var seen := {};
      for s := 0 to |slots|
        invariant seen == set a | a in index && index[a] < s
        invariant Lists(items, View(), seen)
      {
        if slots[s].Some? {
          var owner := FindOwner(s);
          if owner.Some? {
            ListsOneMore(items, View(), seen, owner.value);
            items := items + [(owner.value, slots[s].value)];
            seen := seen + {owner.value};
          }
        }
      }
      assert View().Keys == index.Keys == seen;
    }

    method FindOwner(s: nat) returns (owner: Option<Addr>)
      requires Valid()
      ensures match owner
              case Some(a) => a in index && index[a] == s
              case None => forall a | a in index :: index[a] != s
    {
      var rest := index.Keys;
      while rest != {}
        invariant rest <= index.Keys
        invariant forall a | a in index && a !in rest :: index[a] != s
        decreases |rest|
      {
        var a :| a in rest;
        if index[a] == s { return Some(a); }
        rest := rest - {a};
      }
      return None;
    }
  }

  /** `items` lists the entries of m at the given keys, each once. */
  ghost predicate Lists<T>(items: seq<(Addr, T)>, m: map<Addr, T>, keys: set<Addr>) {
    && keys <= m.Keys
    && (forall i | 0 <= i < |items| :: items[i].0 in keys && m[items[i].0] == items[i].1)
    && (forall i, j | 0 <= i < j < |items| :: items[i].0 != items[j].0)
    && |items| == |keys|
  }

  lemma ListsNothing<T>(m: map<Addr, T>)
    ensures Lists([], m, {})
  {
  }

  lemma ListsOneMore<T>(items: seq<(Addr, T)>, m: map<Addr, T>, keys: set<Addr>, a: Addr)
    requires Lists(items, m, keys) && a in m && a !in keys
    ensures Lists(items + [(a, m[a])], m, keys + {a})
  {
  }
}
