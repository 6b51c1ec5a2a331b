module Caches {
  import opened DbFormat
  import opened HandleTables
  import Coding
  import opened CacheShards

  class LRUCache {
    const table: HandleTable
    const capacity: nat
    var shard: Shard

    ghost predicate Valid() reads this, table {
      table.Valid() && |table.keys| == |shard.refs| && Good(shard, table.members)
    }

    /** The cache as a map: the entry it holds for a key. */
    ghost function Cached(key: Key): (r: Option<nat>)
      reads this, table
      requires Valid()
      ensures r.Some? ==> r.value in table.members && table.keys[r.value] == key
      ensures r.None? ==> forall h :: h in table.members ==> table.keys[h] != key
    {
      if h :| h in table.members && table.keys[h] == key then Some(h) else None
    }

    constructor (hash: Hash, capacity: nat)
      ensures Valid() && fresh(table) && table.members == {} && shard == Shard([], [], [], [], [], 0, [], [])
        && this.capacity == capacity
    {
      table := new HandleTable(hash);
      this.capacity := capacity;
      shard := Shard([], [], [], [], [], 0, [], []);
    }

    method Lookup(key: Key) returns (h: Option<nat>)
      requires Valid()
      modifies this
      ensures Valid()
      ensures h == old(Cached(key)) && shard == if h.Some? then WithRef(old(shard), h.value) else old(shard)
    {
      h := table.Lookup(key);
      if h.Some? {
        RefKeepsGood(shard, table.members, h.value);
        shard := WithRef(shard, h.value);
      }
    }

    method Release(h: nat)
      requires Valid() && h < |shard.refs| && shard.clients[h] > 0
      modifies this
      ensures Valid() && old(shard.refs[h]) > 0 && shard == WithoutRef(old(shard), h)
    {
      ReleaseKeepsGood(shard, table.members, h);
      shard := WithoutRef(shard, h);
    }

    /** The handle has left the table already. */
    method FinishErase(h: Option<nat>)
      requires table.Valid() && |table.keys| == |shard.refs|
      requires h.Some? ==> h.value !in table.members
      requires Good(shard, table.members + if h.Some? then {h.value} else {})
      modifies this
      ensures Valid()
      ensures match h
              case None => shard == old(shard)
              case Some(e) => CanErase(old(shard), e) && shard == Erased(old(shard), e)
    {
      if h.Some? {
        EraseKeepsGood(shard, table.members + {h.value}, h.value);
        assert table.members + {h.value} - {h.value} == table.members;
        shard := Erased(shard, h.value);
      } else {
        assert table.members + {} == table.members;
      }
    }

    method Erase(key: Key)
      requires Valid()
      modifies this, table
      ensures Valid() && table.keys == old(table.keys) && Cached(key) == None
      ensures match old(Cached(key))
              case None => shard == old(shard) && table.members == old(table.members)
              case Some(e) => CanErase(old(shard), e) && shard == Erased(old(shard), e)
                              && table.members == old(table.members) - {e}
    {
      ghost var was := Cached(key);
      var h := table.Remove(key);
      assert h == was;
      assert h.Some? ==> old(table.members) == table.members + {h.value};
      FinishErase(h);
    }

    /** The oldest entry without clients goes. */
    method EvictOldest()
      requires Valid() && shard.lru != []
      modifies this, table
      ensures Valid() && table.keys == old(table.keys) && table.members == old(table.members) - {old(shard.lru[0])}
      ensures CanErase(old(shard), old(shard.lru[0])) && shard == Erased(old(shard), old(shard.lru[0]))
      ensures shard.lru == old(shard.lru)[1..] && shard.inUse == old(shard.inUse)
    {
      var h := shard.lru[0];
      assert h in shard.lru && HandleGood(shard, table.members, h);
      MinusNone(shard.inUse, h);
      Erase(table.keys[h]);
    }

    /** Evicts until the rest fits, or only entries with clients are left; never one more than needed. */
    method Evict() returns (ghost evicted: seq<nat>)
      requires Valid()
      modifies this, table
      ensures Valid() && table.keys == old(table.keys)
      ensures IsEviction(old(shard), evicted, shard, capacity)
    {
      evicted := [];
      while shard.usage > capacity && shard.lru != []
        invariant Valid() && table.keys == old(table.keys) && IsEvicting(old(shard), evicted, shard, capacity)
        decreases |shard.lru|
      {
        ghost var before, oldest := shard, shard.lru[0];
        EvictOldest();
        EvictedOne(old(shard), evicted, before, shard, capacity);
        evicted := evicted + [oldest];
      }
    }

    /** A new entry for the key, in place of the cached one; then as many evictions as needed. */
    method Insert(key: Key, charge: nat) returns (h: nat, ghost evicted: seq<nat>)
      requires Valid()
      modifies this, table
      ensures Valid() && h == |old(shard.refs)| && table.keys == old(table.keys) + [key]
      ensures IsEviction(Placed(old(shard), charge, capacity > 0, old(Cached(key))), evicted, shard, capacity)
      ensures capacity > 0 ==> Cached(key) == Some(h)
    {
      h := Place(key, charge);
      ghost var placed := shard;
      evicted := Evict();
      assert h in placed.inUse ==> h in shard.inUse;
      assert h < |shard.refs| && HandleGood(shard, table.members, h);
    }

    method Place(key: Key, charge: nat) returns (h: nat)
      requires Valid()
      modifies this, table
      ensures Valid() && h == |old(shard.refs)| < |shard.refs| && table.keys == old(table.keys) + [key]
      ensures shard == Placed(old(shard), charge, capacity > 0, old(Cached(key)))
      ensures capacity > 0 ==> h in shard.inUse
    {
      ghost var was := Cached(key);
      h := table.Allocate(key);
      AddKeepsGood(shard, table.members, charge, capacity > 0);
      shard := Added(shard, charge, capacity > 0);
      if capacity > 0 {
        ghost var members := table.members;
        var replaced := table.Insert(h);
        assert was.Some? ==> was.value in members && table.keys[was.value] == table.keys[h];
        assert replaced == was;
        assert members + {h} == table.members + if replaced.Some? then {replaced.value} else {};
        FinishErase(replaced);
      } else {
        assert table.members + {} == table.members;
      }
      assert HandleGood(shard, table.members, h);
    }

    method Prune()
      requires Valid()
      modifies this, table
      ensures Valid() && shard.lru == [] && shard.inUse == old(shard.inUse) && table.keys == old(table.keys)
      ensures shard == EraseAll(old(shard), old(shard.lru))
    {
      ghost var evicted: seq<nat> := [];
      while shard.lru != []
        invariant Valid() && table.keys == old(table.keys)
        invariant IsErasing(old(shard), evicted, shard)
        decreases |shard.lru|
      {
        ghost var before, oldest := shard, shard.lru[0];
        EvictOldest();
        ErasedOne(old(shard), evicted, before, shard);
        evicted := evicted + [oldest];
      }
      assert evicted == old(shard.lru);
    }
  }

  /** FinishErase may be called for the handle. */
  predicate CanErase(s: Shard, h: nat) {
    h < |s.refs| && h < |s.inCache| && h < |s.charge| && s.refs[h] > 0 && s.charge[h] <= s.usage
  }

  /** The shard after FinishErase for these handles in turn. */
  function EraseAll(s: Shard, list: seq<nat>): Shard {
    if list == [] then s
    else
      var t, h := EraseAll(s, list[..|list| - 1]), list[|list| - 1];
      if CanErase(t, h) then Erased(t, h) else t
  }

  /** So far these, the oldest entries without clients, have gone. */
  ghost predicate IsErasing(s: Shard, evicted: seq<nat>, t: Shard) {
    s.lru == evicted + t.lru && t.inUse == s.inUse && t == EraseAll(s, evicted)
  }

  lemma ErasedOne(s: Shard, evicted: seq<nat>, before: Shard, after: Shard)
    requires IsErasing(s, evicted, before) && before.lru != []
    requires CanErase(before, before.lru[0]) && after == Erased(before, before.lru[0])
    requires after.lru == before.lru[1..] && after.inUse == before.inUse
    ensures IsErasing(s, evicted + [before.lru[0]], after)
  {
    assert (evicted + [before.lru[0]])[..|evicted|] == evicted;
  }

  /** And each of them had to. */
  ghost predicate IsEvicting(s: Shard, evicted: seq<nat>, t: Shard, capacity: nat) {
    && IsErasing(s, evicted, t)
    && forall k :: 0 <= k < |evicted| ==> EraseAll(s, evicted[..k]).usage > capacity
  }

  ghost predicate IsEviction(s: Shard, evicted: seq<nat>, t: Shard, capacity: nat) {
    IsEvicting(s, evicted, t, capacity) && (t.usage <= capacity || t.lru == [])
  }

  lemma EvictedOne(s: Shard, evicted: seq<nat>, before: Shard, after: Shard, capacity: nat)
    requires IsEvicting(s, evicted, before, capacity) && before.usage > capacity && before.lru != []
    requires CanErase(before, before.lru[0]) && after == Erased(before, before.lru[0])
    requires after.lru == before.lru[1..] && after.inUse == before.inUse
    ensures IsEvicting(s, evicted + [before.lru[0]], after, capacity)
  {
    var more := evicted + [before.lru[0]];
    ErasedOne(s, evicted, before, after);
    forall k | 0 <= k < |more| ensures EraseAll(s, more[..k]).usage > capacity {
      assert more[..k] == evicted[..k];
      assert k == |evicted| ==> evicted[..k] == evicted;
    }
  }

  /** The new entry is in, and the one it replaces is out. */
  function Placed(s: Shard, charge: nat, cached: bool, replaced: Option<nat>): Shard {
    var t := Added(s, charge, cached);
    if cached && replaced.Some? && CanErase(t, replaced.value) then Erased(t, replaced.value) else t
  }

  lemma AroundLast(list: seq<nat>, n: nat)
    requires 0 < n <= |list|
    ensures list[..n] == list[..n - 1] + [list[n - 1]] && list[..n][..n - 1] == list[..n - 1]
    ensures list[n - 1..][0] == list[n - 1] && list[n - 1..][1..] == list[n..]
  {
  }

  /** Evicting the n oldest entries passes exactly these to their deleters, in that order, and gives
      back exactly their charges; entries with clients stay. */
  lemma {:induction false} EvictionMeans(s: Shard, members: set<nat>, n: nat) returns (members': set<nat>)
    requires Good(s, members) && n <= |s.lru|
    ensures var t := EraseAll(s, s.lru[..n]);
            && Good(t, members') && members' <= members && t.charge == s.charge && t.clients == s.clients
            && t.lru == s.lru[n..] && t.inUse == s.inUse && t.deleted == s.deleted + s.lru[..n]
            && t.usage + Sum(s.charge, s.lru[..n]) == s.usage
  {
    members' := members;
    if n == 0 {
      assert s.deleted + s.lru[..0] == s.deleted;
    } else {
      members' := EvictionMeans(s, members, n - 1);
      var before, h := s.lru[..n - 1], s.lru[n - 1];
      var t := EraseAll(s, before);
      AroundLast(s.lru, n);
      EraseOldest(t, members', h);
      PlusOne(s.charge, before, h);
      Coding.Associates(s.deleted, before, [h]);
      members' := members' - {h};
    }
  }

  lemma EraseOldest(t: Shard, members: set<nat>, h: nat)
    requires Good(t, members) && t.lru != [] && t.lru[0] == h
    ensures CanErase(t, h) && Good(Erased(t, h), members - {h}) && h in members
    ensures var u := Erased(t, h);
            && u.lru == t.lru[1..] && u.inUse == t.inUse && u.deleted == t.deleted + [h] && u.charge == t.charge
              && u.clients == t.clients
            && h < |t.charge| && u.usage + t.charge[h] == t.usage
  {
    assert h in t.lru;
    assert HandleGood(t, members, h);
    EraseKeepsGood(t, members, h);
    MinusNone(t.inUse, h);
  }

  /** A handle that a client holds has not been deleted, and no handle is deleted twice. */
  lemma ClientsKeepAlive(s: Shard, members: set<nat>, h: nat)
    requires Good(s, members) && h < |s.refs|
    ensures s.clients[h] > 0 ==> h !in s.deleted && (s.inCache[h] ==> h !in s.lru && h in s.inUse)
    ensures s.clients[h] == 0 && !s.inCache[h] <==> h in s.deleted
  {
    assert HandleGood(s, members, h);
  }
}
