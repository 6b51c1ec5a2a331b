// One shard of the LRU cache (LRUCache in util/cache.cc).

/** The state of a shard beside its hash table, and what is always true of it. */
module CacheShards {
  import opened HandleTables

  /** By handle: charge, references, whether the cache holds it. The lists, oldest entry first.
      deleted: the handles passed to their deleters, in order. clients is ghost knowledge: how many
      references the callers hold. */
  datatype Shard = Shard(charge: seq<nat>, refs: seq<nat>, inCache: seq<bool>, lru: seq<nat>, inUse: seq<nat>,
                         usage: nat,
                         deleted: seq<nat>, clients: seq<nat>)

  function Sum(charge: seq<nat>, list: seq<nat>): nat {
    if list == [] then 0 else (if list[0] < |charge| then charge[list[0]] else 0) + Sum(charge, list[1..])
  }

  /** LRU_Remove. */
  function Minus(list: seq<nat>, h: nat): seq<nat> {
    if list == [] then [] else if list[0] == h then list[1..] else [list[0]] + Minus(list[1..], h)
  }

  ghost predicate Good(s: Shard, members: set<nat>) {
    var n := |s.refs|;
    && |s.charge| == n && |s.inCache| == n && |s.clients| == n
    && Unrepeated(s.lru) && Unrepeated(s.inUse) && Unrepeated(s.deleted)
    && (forall h :: h in members ==> h < n)
    && (forall h :: 0 <= h < n ==> HandleGood(s, members, h))
    && (forall h :: h in s.lru || h in s.inUse || h in s.deleted ==> h < n)
    && s.usage == Sum(s.charge, s.lru) + Sum(s.charge, s.inUse)
  }

  /** The cache counts for one reference while it holds the handle; in the cache without clients is
      on the LRU list, with clients on the other; without references it has been deleted. */
  ghost predicate HandleGood(s: Shard, members: set<nat>, h: nat)
    requires h < |s.refs| == |s.inCache| == |s.clients|
  {
    && (s.inCache[h] <==> h in members)
    && s.refs[h] == s.clients[h] + (if s.inCache[h] then 1 else 0)
    && (h in s.lru <==> s.inCache[h] && s.refs[h] == 1)
    && (h in s.inUse <==> s.inCache[h] && s.refs[h] >= 2)
    && (h in s.deleted <==> s.refs[h] == 0)
  }

  lemma {:induction false} MinusOne(charge: seq<nat>, list: seq<nat>, h: nat)
    requires Unrepeated(list) && h in list && h < |charge|
    ensures Unrepeated(Minus(list, h)) && (forall g :: g in Minus(list, h) <==> g in list && g != h)
    ensures Sum(charge, list) == charge[h] + Sum(charge, Minus(list, h))
    decreases |list|
  {
    var rest := list[1..];
    assert list == [list[0]] + rest;
    if list[0] != h {
      MinusOne(charge, rest, h);
      var r := Minus(rest, h);
      assert list[0] !in rest && list[0] !in r;
      assert Minus(list, h) == [list[0]] + r && ([list[0]] + r)[1..] == r;
    }
  }

  lemma {:induction false} PlusOne(charge: seq<nat>, list: seq<nat>, h: nat)
    requires h < |charge|
    ensures Sum(charge, list + [h]) == Sum(charge, list) + charge[h]
    decreases |list|
  {
    if list == [] {
      assert list + [h] == [h];
    } else {
      assert (list + [h])[1..] == list[1..] + [h];
      PlusOne(charge, list[1..], h);
    }
  }

  lemma {:induction false} SumFrame(charge: seq<nat>, charge': seq<nat>, list: seq<nat>)
    requires forall h :: h in list ==> h < |charge| && h < |charge'| && charge[h] == charge'[h]
    ensures Sum(charge', list) == Sum(charge, list)
    decreases |list|
  {
    if list != [] {
      assert list[0] in list;
      forall h | h in list[1..] ensures h in list {
        var k :| 0 <= k < |list[1..]| && list[1..][k] == h;
        assert list[k + 1] == h;
      }
      SumFrame(charge, charge', list[1..]);
    }
  }

  /** Ref: one more client; the handle leaves the LRU list if it was on it. */
  function WithRef(s: Shard, h: nat): Shard
    requires h < |s.refs| && h < |s.inCache| && h < |s.clients|
  {
    var moves := s.inCache[h] && s.refs[h] == 1;
    s.(refs := s.refs[h := s.refs[h] + 1], clients := s.clients[h := s.clients[h] + 1],
       lru := if moves then Minus(s.lru, h) else s.lru, inUse := if moves then s.inUse + [h] else s.inUse)
  }

  lemma RefKeepsGood(s: Shard, members: set<nat>, h: nat)
    requires Good(s, members) && h in members
    ensures Good(WithRef(s, h), members)
  {
    var t := WithRef(s, h);
    assert HandleGood(s, members, h);
    if s.refs[h] == 1 {
      MinusOne(s.charge, s.lru, h);
      PlusOne(s.charge, s.inUse, h);
    }
    forall g | 0 <= g < |t.refs| ensures HandleGood(t, members, g) {
      assert HandleGood(s, members, g);
    }
  }

  /** Release: one client less; the newest of the LRU list if the cache alone is left, deleted if
      nobody is. */
  function WithoutRef(s: Shard, h: nat): Shard
    requires h < |s.refs| && h < |s.inCache| && h < |s.clients| && s.clients[h] > 0 && s.refs[h] > 0
  {
    var idle := s.refs[h] == 2 && s.inCache[h];
    s.(refs := s.refs[h := s.refs[h] - 1], clients := s.clients[h := s.clients[h] - 1],
       lru := if idle then s.lru + [h] else s.lru, inUse := if idle then Minus(s.inUse, h) else s.inUse,
       deleted := if s.refs[h] == 1 then s.deleted + [h] else s.deleted)
  }

  lemma ReleaseKeepsGood(s: Shard, members: set<nat>, h: nat)
    requires Good(s, members) && h < |s.refs| && s.clients[h] > 0
    ensures s.refs[h] > 0 && Good(WithoutRef(s, h), members)
  {
    assert HandleGood(s, members, h);
    var t := WithoutRef(s, h);
    if s.refs[h] == 2 && s.inCache[h] {
      MinusOne(s.charge, s.inUse, h);
      PlusOne(s.charge, s.lru, h);
    }
    forall g | 0 <= g < |t.refs| ensures HandleGood(t, members, g) {
      assert HandleGood(s, members, g);
    }
  }

  /** FinishErase: the cache gives up the handle and its reference to it. */
  function Erased(s: Shard, h: nat): Shard
    requires h < |s.refs| && h < |s.inCache| && h < |s.charge| && s.refs[h] > 0 && s.charge[h] <= s.usage
  {
    s.(refs := s.refs[h := s.refs[h] - 1], inCache := s.inCache[h := false], usage := s.usage - s.charge[h],
       lru := Minus(s.lru, h), inUse := Minus(s.inUse, h),
       deleted := if s.refs[h] == 1 then s.deleted + [h] else s.deleted)
  }

  lemma {:induction false} MinusNone(list: seq<nat>, h: nat)
    requires h !in list
    ensures Minus(list, h) == list
    decreases |list|
  {
    if list != [] {
      MinusNone(list[1..], h);
    }
  }

  lemma EraseKeepsGood(s: Shard, members: set<nat>, h: nat)
    requires Good(s, members) && h in members
    ensures s.refs[h] > 0 && s.charge[h] <= s.usage && Good(Erased(s, h), members - {h})
  {
    assert HandleGood(s, members, h);
    if s.refs[h] == 1 {
      MinusOne(s.charge, s.lru, h);
      MinusNone(s.inUse, h);
    } else {
      MinusOne(s.charge, s.inUse, h);
      MinusNone(s.lru, h);
    }
    var t := Erased(s, h);
    forall g | 0 <= g < |t.refs| ensures HandleGood(t, members - {h}, g) {
      assert HandleGood(s, members, g);
    }
  }

  /** A new entry, held by its caller and, unless caching is off, by the cache. */
  function Added(s: Shard, charge: nat, cached: bool): Shard {
    s.(charge := s.charge + [charge], refs := s.refs + [if cached then 2 else 1], inCache := s.inCache + [cached],
       clients := s.clients + [1], inUse := if cached then s.inUse + [|s.refs|] else s.inUse,
       usage := if cached then s.usage + charge else s.usage)
  }

  lemma AddKeepsGood(s: Shard, members: set<nat>, charge: nat, cached: bool)
    requires Good(s, members)
    ensures Good(Added(s, charge, cached), members + if cached then {|s.refs|} else {})
  {
    var h, t, members' := |s.refs|, Added(s, charge, cached), members + if cached then {|s.refs|} else {};
    SumFrame(s.charge, t.charge, s.lru);
    SumFrame(s.charge, t.charge, s.inUse);
    if cached {
      PlusOne(t.charge, s.inUse, h);
    }
    assert h !in s.lru && h !in s.inUse && h !in s.deleted && h !in members;
    forall g | 0 <= g < |t.refs| ensures HandleGood(t, members', g) {
      if g < h {
        assert HandleGood(s, members, g);
      }
    }
  }
}
