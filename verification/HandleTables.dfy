// The cache's hash table (HandleTable in util/cache.cc).

module HandleTables {
  import opened DbFormat

  type Key(==,!new) = string
  type Hash = Key -> nat

  /** Each bucket's chain as a sequence of handles; a handle is a number. */
  type Buckets = seq<seq<nat>>

  /** A place that holds a pointer: the head of a bucket's chain, or next_hash of a handle. */
  datatype Slot = Head(b: nat) | Link(h: nat)

  type Links = seq<Option<nat>>

  function At(chain: seq<nat>, i: nat): Option<nat> {
    if i < |chain| then Some(chain[i]) else None
  }

  function SlotAt(b: nat, chain: seq<nat>, i: nat): Slot
    requires i <= |chain|
  {
    if i == 0 then Head(b) else Link(chain[i - 1])
  }

  /** The pointer and then one next_hash after the other lead along the chain to its end. */
  ghost predicate IsChain(next: Links, head: Option<nat>, chain: seq<nat>) {
    head == At(chain, 0) && forall i :: 0 <= i < |chain| ==> chain[i] < |next| && next[chain[i]] == At(chain, i + 1)
  }

  ghost predicate Linked(list: Links, next: Links, buckets: Buckets) {
    |list| == |buckets| && forall b :: 0 <= b < |buckets| ==> IsChain(next, list[b], buckets[b])
  }

  ghost predicate Apart(buckets: Buckets) {
    && (forall b :: 0 <= b < |buckets| ==> Unrepeated(buckets[b]))
    && forall b, c, h :: 0 <= b < |buckets| && 0 <= c < |buckets| && b != c && h in buckets[b] ==> h !in buckets[c]
  }

  lemma GoodIsApart(hash: Hash, keys: seq<Key>, buckets: Buckets, members: set<nat>)
    requires TableGood(hash, keys, buckets, members)
    ensures Apart(buckets) && forall b, h :: 0 <= b < |buckets| && h in buckets[b] ==> h in members
  {
    forall b | 0 <= b < |buckets| ensures ChainGood(hash, keys, |buckets|, b, buckets[b], members) {
    }
  }

  /** The link of a handle outside the chain does not matter to it. */
  lemma OutsideLink(next: Links, head: Option<nat>, chain: seq<nat>, h: nat, v: Option<nat>)
    requires IsChain(next, head, chain) && h < |next| && h !in chain
    ensures IsChain(next[h := v], head, chain)
  {
  }

  lemma OutsideLinks(list: Links, next: Links, buckets: Buckets, h: nat, v: Option<nat>)
    requires Linked(list, next, buckets) && h < |next| && forall b :: 0 <= b < |buckets| ==> h !in buckets[b]
    ensures Linked(list, next[h := v], buckets)
  {
    forall b | 0 <= b < |buckets| ensures IsChain(next[h := v], list[b], buckets[b]) {
      OutsideLink(next, list[b], buckets[b], h, v);
    }
  }

  function Written(list: Links, next: Links, slot: Slot, v: Option<nat>): (Links, Links)
    requires match slot case Head(b) => b < |list| case Link(h) => h < |next|
  {
    match slot
    case Head(b) => (list[b := v], next)
    case Link(h) => (list, next[h := v])
  }

  function Pointed(list: Links, next: Links, slot: Slot): Option<nat>
    requires match slot case Head(b) => b < |list| case Link(h) => h < |next|
  {
    match slot
    case Head(b) => list[b]
    case Link(h) => next[h]
  }

  /** One store at a place of a chain gives the chain another tail, and leaves the other chains. */
  lemma Splice(list: Links, next: Links, buckets: Buckets, b: nat, i: nat, tail: seq<nat>)
    requires Linked(list, next, buckets) && Apart(buckets) && b < |buckets| && i <= |buckets[b]|
    requires IsChain(next, At(tail, 0), tail) && (i > 0 ==> buckets[b][i - 1] !in tail)
    ensures var w := Written(list, next, SlotAt(b, buckets[b], i), At(tail, 0));
            Linked(w.0, w.1, buckets[b := buckets[b][..i] + tail])
  {
    var chain := buckets[b];
    var w := Written(list, next, SlotAt(b, chain, i), At(tail, 0));
    forall c | 0 <= c < |buckets| && c != b ensures IsChain(w.1, w.0[c], buckets[c]) {
      if i > 0 {
        assert chain[i - 1] in chain;
        OutsideLink(next, list[c], buckets[c], chain[i - 1], At(tail, 0));
      }
    }
    SpliceOne(list[b], next, chain, i, tail);
  }

  lemma SpliceOne(head: Option<nat>, next: Links, chain: seq<nat>, i: nat, tail: seq<nat>)
    requires IsChain(next, head, chain) && Unrepeated(chain) && i <= |chain|
    requires IsChain(next, At(tail, 0), tail) && (i > 0 ==> chain[i - 1] !in tail)
    ensures i == 0 ==> IsChain(next, At(tail, 0), chain[..i] + tail)
    ensures i > 0 ==> IsChain(next[chain[i - 1] := At(tail, 0)], head, chain[..i] + tail)
  {
    var r := chain[..i] + tail;
    if i == 0 {
      assert r == tail;
    } else {
      var next' := next[chain[i - 1] := At(tail, 0)];
      forall k | 0 <= k < |r| ensures r[k] < |next'| && next'[r[k]] == At(r, k + 1) {
        if k < i - 1 {
          assert r[k] == chain[k] && r[k + 1] == chain[k + 1];
        } else if k >= i {
          assert r[k] == tail[k - i] && next[tail[k - i]] == At(tail, k - i + 1);
          assert At(r, k + 1) == At(tail, k - i + 1);
        }
      }
    }
  }

  function BucketOf(hash: Hash, key: Key, length: nat): nat
    requires length > 0
  {
    hash(key) % length
  }

  ghost predicate Unrepeated(chain: seq<nat>) {
    forall i, j :: 0 <= i < j < |chain| ==> chain[i] != chain[j]
  }

  /** The chain of bucket b holds exactly the members that hash there, each once. */
  ghost predicate ChainGood(hash: Hash, keys: seq<Key>, length: nat, b: nat, chain: seq<nat>, members: set<nat>)
    requires length > 0
  {
    && Unrepeated(chain) && (forall h :: h in chain ==>
                               h in members && h < |keys| && BucketOf(hash, keys[h], length) == b)
    && forall h :: h in members && h < |keys| && BucketOf(hash, keys[h], length) == b ==> h in chain
  }

  ghost predicate TableGood(hash: Hash, keys: seq<Key>, buckets: Buckets, members: set<nat>) {
    && |buckets| > 0 && (forall b :: 0 <= b < |buckets| ==> ChainGood(hash, keys, |buckets|, b, buckets[b], members))
    && forall h :: h in members ==> h < |keys|
  }

  /** Keys identify members: the table is a map. */
  ghost predicate DistinctKeys(keys: seq<Key>, members: set<nat>)
    requires forall h :: h in members ==> h < |keys|
  {
    forall g, h :: g in members && h in members && keys[g] == keys[h] ==> g == h
  }

  function Without(chain: seq<nat>, i: nat): seq<nat>
    requires i < |chain|
  {
    chain[..i] + chain[i + 1..]
  }

  lemma WithoutOne(chain: seq<nat>, i: nat)
    requires i < |chain| && Unrepeated(chain)
    ensures Unrepeated(Without(chain, i)) && forall h :: h in Without(chain, i) <==> h in chain && h != chain[i]
  {
    var r := Without(chain, i);
    assert forall k :: 0 <= k < |r| ==> r[k] == chain[if k < i then k else k + 1];
    assert chain == chain[..i] + [chain[i]] + chain[i + 1..];
  }

  lemma WithOther(chain: seq<nat>, i: nat, h: nat)
    requires i < |chain| && Unrepeated(chain) && h !in chain
    ensures Unrepeated(chain[i := h]) && forall g :: g in chain[i := h] <==> g == h || (g in chain && g != chain[i])
  {
    assert forall g :: g in chain && g != chain[i] ==> g in chain[i := h] by {
      forall g | g in chain && g != chain[i] ensures g in chain[i := h] {
        var k :| 0 <= k < |chain| && chain[k] == g;
        assert chain[i := h][k] == g;
      }
    }
    assert chain[i := h][i] == h;
  }

  /** One chain changes by the handles that join and leave. */
  lemma OneChainChanged(hash: Hash, keys: seq<Key>, buckets: Buckets, members: set<nat>, b: nat, chain: seq<nat>,
                        members': set<nat>)
    requires TableGood(hash, keys, buckets, members) && b < |buckets|
      && ChainGood(hash, keys, |buckets|, b, chain, members')
    requires forall h :: h in members' ==> h < |keys|
    requires forall h :: (h in members) != (h in members') && h < |keys| ==> BucketOf(hash, keys[h], |buckets|) == b
    ensures TableGood(hash, keys, buckets[b := chain], members')
  {
    var buckets' := buckets[b := chain];
    forall c | 0 <= c < |buckets| ensures ChainGood(hash, keys, |buckets|, c, buckets'[c], members') {
      assert ChainGood(hash, keys, |buckets|, c, buckets[c], members);
    }
  }

  /** The new list while the buckets before i, and the first j handles of bucket i, have moved. */
  ghost predicate Moved(hash: Hash, keys: seq<Key>, buckets: Buckets, members: set<nat>, i: nat, j: nat,
                        moved: set<nat>) {
    && TableGood(hash, keys, buckets, members) && i <= |buckets| && (i == |buckets| ==> j == 0)
      && (i < |buckets| ==> j <= |buckets[i]|)
    && forall h :: h in moved <==> h in members
                                   && var b := BucketOf(hash, keys[h],
                                                        |buckets|); b < i || (b == i && h in buckets[i][..j])
  }

  lemma MoveOne(hash: Hash, keys: seq<Key>, buckets: Buckets, members: set<nat>, i: nat, j: nat, moved: set<nat>,
                fresh_: Buckets)
    requires Moved(hash, keys, buckets, members, i, j, moved) && i < |buckets| && j < |buckets[i]|
    requires TableGood(hash, keys, fresh_, moved)
    ensures var h := buckets[i][j];
            && h < |keys| && h !in moved && Moved(hash, keys, buckets, members, i, j + 1, moved + {h})
            && var b := BucketOf(hash, keys[h], |fresh_|); TableGood(hash, keys, fresh_[b := [h] + fresh_[b]],
                                                                     moved + {h})
  {
    var h, chain := buckets[i][j], buckets[i];
    assert ChainGood(hash, keys, |buckets|, i, chain, members) && h in chain;
    assert chain[..j + 1] == chain[..j] + [h];
    assert h !in chain[..j];
    var b := BucketOf(hash, keys[h], |fresh_|);
    assert ChainGood(hash, keys, |fresh_|, b, fresh_[b], moved);
    OneChainChanged(hash, keys, fresh_, moved, b, [h] + fresh_[b], moved + {h});
  }

  class HandleTable {
    const hash: Hash
    /** The key of every handle there has been, and its next_hash. */
    var keys: seq<Key>
    var nextHash: Links
    /** list_: the heads of the chains. */
    var list: Links
    var elems: nat
    ghost var buckets: Buckets
    ghost var members: set<nat>

    ghost predicate Valid() reads this {
      && TableGood(hash, keys, buckets, members) && DistinctKeys(keys, members) && elems == |members|
      && |nextHash| == |keys| && Linked(list, nextHash, buckets)
    }

    constructor (hash: Hash)
      ensures Valid() && members == {} && keys == [] && this.hash == hash
    {
      this.hash := hash;
      keys, nextHash, list, elems := [], [], seq(4, _ => None), 0;
      buckets, members := seq(4, _ => []), {};
    }

    /** A fresh handle. */
    method Allocate(key: Key) returns (h: nat)
      requires Valid()
      modifies this`keys, this`nextHash
      ensures Valid() && h == |old(keys)| && h !in members && keys == old(keys) + [key]
    {
      h := |keys|;
      forall b | 0 <= b < |buckets| ensures ChainGood(hash, keys + [key], |buckets|, b, buckets[b], members) {
        assert ChainGood(hash, keys, |buckets|, b, buckets[b], members);
      }
      forall b | 0 <= b < |buckets| ensures IsChain(nextHash + [None], list[b], buckets[b]) {
        assert IsChain(nextHash, list[b], buckets[b]);
      }
      keys, nextHash := keys + [key], nextHash + [None];
    }

    /** The place that points to the handle with the key, or the one at the end of its bucket's chain.
        b and i: which chain, and how far along. */
    method FindPointer(key: Key) returns (ptr: Slot, ghost b: nat, ghost i: nat)
      requires Valid()
      ensures b == BucketOf(hash, key, |buckets|) && i <= |buckets[b]| && ptr == SlotAt(b, buckets[b], i)
      ensures if i < |buckets[b]| then buckets[b][i] in members && keys[buckets[b][i]] == key
              else forall g :: g in members ==> keys[g] != key
      ensures match ptr case Head(c) => c < |list| case Link(h) => h < |nextHash|
      ensures match Pointed(list, nextHash, ptr)
              case Some(h) => h in members && keys[h] == key
              case None => forall g :: g in members ==> keys[g] != key
    {
      b, i := hash(key) % |list|, 0;
      ptr := Head(hash(key) % |list|);
      ghost var chain := buckets[b];
      assert ChainGood(hash, keys, |buckets|, b, chain, members) && IsChain(nextHash, list[b], chain);
      var h := Pointed(list, nextHash, ptr);
      while h.Some? && (hash(keys[h.value]) != hash(key) || keys[h.value] != key)
        invariant i <= |chain| && ptr == SlotAt(b, chain, i) && h == At(chain, i)
        invariant forall j :: 0 <= j < i ==> chain[j] < |keys| && keys[chain[j]] != key
        invariant forall j :: 0 <= j < |chain| ==> chain[j] in members && chain[j] < |keys|
        decreases |chain| - i
      {
        ptr := Link(h.value);
        i := i + 1;
        h := Pointed(list, nextHash, ptr);
      }
    }

    lemma PointerIs(b: nat, i: nat)
      requires Valid() && b < |buckets| && i <= |buckets[b]|
      ensures match SlotAt(b, buckets[b], i) case Head(c) => c < |list| case Link(h) => h < |nextHash|
      ensures Pointed(list, nextHash, SlotAt(b, buckets[b], i)) == At(buckets[b], i)
      ensures i < |buckets[b]| ==> buckets[b][i] < |nextHash| && nextHash[buckets[b][i]] == At(buckets[b], i + 1)
    {
      assert IsChain(nextHash, list[b], buckets[b]);
    }

    method Lookup(key: Key) returns (h: Option<nat>)
      requires Valid()
      ensures h.Some? ==> h.value in members && keys[h.value] == key
      ensures h.None? ==> forall g :: g in members ==> keys[g] != key
    {
      var ptr, _, _ := FindPointer(key);
      h := Pointed(list, nextHash, ptr);
    }

    /** Adds h, in place of the handle with its key if there is one. */
    method Insert(h: nat) returns (replaced: Option<nat>)
      requires Valid() && h < |keys| && h !in members
      modifies this`list, this`nextHash, this`buckets, this`elems, this`members
      ensures Valid()
      ensures members == old(members) + {h} - if replaced.Some? then {replaced.value} else {}
      ensures replaced.Some? ==> replaced.value in old(members) && keys[replaced.value] == keys[h]
      ensures replaced.None? ==> forall g :: g in old(members) ==> keys[g] != keys[h]
    {
      replaced := Place(h);
      if replaced.None? && elems > |list| {
        Resize();
      }
    }

    /** The handle takes the place its key is found at, or one at the end of a chain. */
    method Place(h: nat) returns (replaced: Option<nat>)
      requires Valid() && h < |keys| && h !in members
      modifies this`list, this`nextHash, this`buckets, this`elems, this`members
      ensures Valid()
      ensures members == old(members) + {h} - if replaced.Some? then {replaced.value} else {}
      ensures replaced.Some? ==> replaced.value in old(members) && keys[replaced.value] == keys[h]
      ensures replaced.None? ==> forall g :: g in old(members) ==> keys[g] != keys[h]
    {
      var ptr, b, i := FindPointer(keys[h]);
      PointerIs(b, i);
      replaced := Pointed(list, nextHash, ptr);
      var after := if replaced.Some? then nextHash[replaced.value] else None;
      InsertLinks(hash, keys, list, nextHash, buckets, members, h, b, i);
      InsertMembers(hash, keys, buckets, members, h, b, i);
      NewMember(keys, members, h, replaced);
      nextHash := nextHash[h := after];
      var w := Written(list, nextHash, ptr, Some(h));
      list, nextHash := w.0, w.1;
      buckets := buckets[b := Inserted(buckets[b], i, h)];
      members := members + {h} - if replaced.Some? then {replaced.value} else {};
      if replaced.None? {
        elems := elems + 1;
      }
    }

    method Remove(key: Key) returns (removed: Option<nat>)
      requires Valid()
      modifies this`list, this`nextHash, this`buckets, this`elems, this`members
      ensures Valid()
      ensures members == old(members) - if removed.Some? then {removed.value} else {}
      ensures removed.Some? ==> removed.value in old(members) && keys[removed.value] == key
      ensures removed.None? ==> forall g :: g in old(members) ==> keys[g] != key
    {
      var ptr, b, i := FindPointer(key);
      PointerIs(b, i);
      removed := Pointed(list, nextHash, ptr);
      if removed.Some? {
        RemoveLinks(hash, keys, list, nextHash, buckets, members, b, i);
        RemoveMember(hash, keys, buckets, members, b, i);
        var w := Written(list, nextHash, ptr, nextHash[removed.value]);
        list, nextHash := w.0, w.1;
        members := members - {removed.value};
        buckets := buckets[b := Without(buckets[b], i)];
        elems := elems - 1;
      }
    }

    /** More buckets; every handle is relinked to the front of its new chain. */
    method Resize()
      requires Valid()
      modifies this`list, this`nextHash, this`buckets
      ensures Valid()
    {
      var newLength := 4;
      while newLength < elems
        invariant newLength > 0
      {
        newLength := newLength * 2;
      }
      var newList: Links := seq(newLength, _ => None);
      ghost var fresh_: Buckets := seq(newLength, _ => []);
      ghost var moved: set<nat> := {};
      var i: nat := 0;
      while i < |list|
        invariant |list| == |buckets| && |nextHash| == |keys| && Moved(hash, keys, buckets, members, i, 0, moved)
        invariant Relinked(list, nextHash, buckets, i, newList, fresh_) && TableGood(hash, keys, fresh_, moved)
      {
        newList, fresh_, moved := MoveBucket(i, newList, fresh_, moved);
        i := i + 1;
      }
      assert moved == members;
      list := newList;
      buckets := fresh_;
    }

    method MoveBucket(i: nat, newList: Links, ghost fresh_: Buckets, ghost moved: set<nat>)
      returns (newList': Links, ghost fresh': Buckets, ghost moved': set<nat>)
      requires |list| == |buckets| && |nextHash| == |keys| && i < |buckets|
        && Moved(hash, keys, buckets, members, i, 0, moved)
      requires Relinked(list, nextHash, buckets, i, newList, fresh_) && TableGood(hash, keys, fresh_, moved)
      modifies this`nextHash
      ensures |nextHash| == |keys| && Moved(hash, keys, buckets, members, i + 1, 0, moved')
      ensures Relinked(list, nextHash, buckets, i + 1, newList', fresh') && TableGood(hash, keys, fresh', moved')
    {
      newList', fresh', moved' := newList, fresh_, moved;
      ghost var chain, j: nat := buckets[i], 0;
      var h: Option<nat> := list[i];
      assert chain[0..] == chain;
      while h.Some?
        invariant |nextHash| == |keys| && Moved(hash, keys, buckets, members, i, j, moved')
          && TableGood(hash, keys, fresh', moved')
        invariant Relinked(list, nextHash, buckets, i + 1, newList', fresh') && IsChain(nextHash, h, chain[j..])
        decreases |chain| - j
      {
        MoveOne(hash, keys, buckets, members, i, j, moved', fresh');
        MoveLinks(hash, keys, list, nextHash, buckets, members, i, j, newList', fresh', moved');
        var next: Option<nat> := nextHash[h.value];
        var b := hash(keys[h.value]) % |newList'|;
        nextHash := nextHash[h.value := newList'[b]];
        newList' := newList'[b := h];
        fresh' := fresh'[b := [h.value] + fresh'[b]];
        moved' := moved' + {h.value};
        j := j + 1;
        h := next;
      }
      assert ChainGood(hash, keys, |buckets|, i, chain, members) && chain[..j] == chain;
    }
  }

  /** The chain with h at place i, instead of what was there or at the end. */
  function Inserted(chain: seq<nat>, i: nat, h: nat): seq<nat>
    requires i <= |chain|
  {
    chain[..i] + ([h] + if i < |chain| then chain[i + 1..] else [])
  }

  lemma NewMember(keys: seq<Key>, members: set<nat>, h: nat, replaced: Option<nat>)
    requires (forall g :: g in members ==> g < |keys|) && DistinctKeys(keys, members) && h < |keys| && h !in members
    requires if replaced.Some? then replaced.value in members && keys[replaced.value] == keys[h]
                                    else forall g :: g in members ==> keys[g] != keys[h]
    ensures var members' := members + {h} - if replaced.Some? then {replaced.value} else {};
      && (forall g :: g in members' ==> g < |keys|) && DistinctKeys(keys, members')
      && |members'| == |members| + if replaced.Some? then 0 else 1
  {
    assert |members + {h}| == |members| + 1;
    if replaced.Some? {
      assert members + {h} == (members + {h} - {replaced.value}) + {replaced.value};
    } else {
      assert members + {h} - {} == members + {h};
    }
  }

  lemma InsertMembers(hash: Hash, keys: seq<Key>, buckets: Buckets, members: set<nat>, h: nat, b: nat, i: nat)
    requires TableGood(hash, keys, buckets, members) && h < |keys| && h !in members
    requires b == BucketOf(hash, keys[h], |buckets|) && i <= |buckets[b]|
    ensures TableGood(hash, keys, buckets[b := Inserted(buckets[b], i, h)], members + {h} - if i < |buckets[b]|
                      then {buckets[b][i]} else {})
  {
    var chain := buckets[b];
    assert ChainGood(hash, keys, |buckets|, b, chain, members);
    if i < |chain| {
      assert Inserted(chain, i, h) == chain[i := h];
      WithOther(chain, i, h);
      OneChainChanged(hash, keys, buckets, members, b, chain[i := h], members + {h} - {chain[i]});
    } else {
      assert Inserted(chain, i, h) == chain + [h] && members + {h} - {} == members + {h};
      OneChainChanged(hash, keys, buckets, members, b, chain + [h], members + {h});
    }
  }

  lemma InsertLinks(hash: Hash, keys: seq<Key>, list: Links, next: Links, buckets: Buckets, members: set<nat>, h: nat,
                    b: nat, i: nat)
    requires TableGood(hash, keys, buckets, members) && Linked(list, next, buckets) && |next| == |keys|
    requires h < |keys| && h !in members && b < |buckets| && i <= |buckets[b]|
    ensures var chain, next' := buckets[b], next[h := At(buckets[b], i + 1)];
            (match SlotAt(b, chain, i) case Head(c) => c < |list| case Link(g) => g < |next'|)
            && var w := Written(list, next', SlotAt(b, chain, i), Some(h));
               |w.1| == |keys| && Linked(w.0, w.1, buckets[b := Inserted(chain, i, h)])
  {
    GoodIsApart(hash, keys, buckets, members);
    var chain, next' := buckets[b], next[h := At(buckets[b], i + 1)];
    var tail := [h] + if i < |chain| then chain[i + 1..] else [];
    OutsideLinks(list, next, buckets, h, At(chain, i + 1));
    assert IsChain(next', list[b], chain);
    forall k | 0 <= k < |tail| ensures tail[k] < |next'| && next'[tail[k]] == At(tail, k + 1) {
      assert k > 0 ==> tail[k] == chain[i + k];
      assert At(tail, k + 1) == At(chain, i + k + 1);
    }
    Splice(list, next', buckets, b, i, tail);
  }

  lemma RemoveMember(hash: Hash, keys: seq<Key>, buckets: Buckets, members: set<nat>, b: nat, i: nat)
    requires TableGood(hash, keys, buckets, members) && b < |buckets| && i < |buckets[b]|
    ensures TableGood(hash, keys, buckets[b := Without(buckets[b], i)], members - {buckets[b][i]})
  {
    var chain := buckets[b];
    assert ChainGood(hash, keys, |buckets|, b, chain, members);
    WithoutOne(chain, i);
    OneChainChanged(hash, keys, buckets, members, b, Without(chain, i), members - {chain[i]});
  }

  lemma RemoveLinks(hash: Hash, keys: seq<Key>, list: Links, next: Links, buckets: Buckets, members: set<nat>, b: nat,
                    i: nat)
    requires TableGood(hash, keys, buckets, members) && Linked(list, next, buckets) && |next| == |keys|
    requires b < |buckets| && i < |buckets[b]|
    ensures var chain := buckets[b];
            (match SlotAt(b, chain, i) case Head(c) => c < |list| case Link(g) => g < |next|)
            && var w := Written(list, next, SlotAt(b, chain, i), At(chain, i + 1));
               |w.1| == |keys| && Linked(w.0, w.1, buckets[b := Without(chain, i)])
  {
    GoodIsApart(hash, keys, buckets, members);
    var chain := buckets[b];
    var tail := chain[i + 1..];
    assert IsChain(next, list[b], chain);
    forall k | 0 <= k < |tail| ensures tail[k] < |next| && next[tail[k]] == At(tail, k + 1) {
      assert tail[k] == chain[i + 1 + k] && At(tail, k + 1) == At(chain, i + k + 2);
    }
    Splice(list, next, buckets, b, i, tail);
  }

  /** While a table grows: the new chains are linked, and so are the buckets from i on that still wait. */
  ghost predicate Relinked(list: Links, next: Links, buckets: Buckets, i: nat, newList: Links, fresh_: Buckets)
    requires |list| == |buckets|
  {
    && Linked(newList, next, fresh_)
    && forall c :: i <= c < |buckets| ==> IsChain(next, list[c], buckets[c])
  }

  lemma MoveLinks(hash: Hash, keys: seq<Key>, list: Links, next: Links, buckets: Buckets, members: set<nat>, i: nat,
                  j: nat,
                  newList: Links, fresh_: Buckets, moved: set<nat>)
    requires |list| == |buckets| && |next| == |keys| && i < |buckets| && j < |buckets[i]|
    requires Moved(hash, keys, buckets, members, i, j, moved) && TableGood(hash, keys, fresh_, moved)
    requires Relinked(list, next, buckets, i + 1, newList, fresh_) && IsChain(next, At(buckets[i], j), buckets[i][j..])
    ensures var h := buckets[i][j];
            h < |keys| && next[h] == At(buckets[i], j + 1)
            && var b := BucketOf(hash, keys[h], |fresh_|);
               b < |newList| && var next' := next[h := newList[b]];
               && Relinked(list, next', buckets, i + 1, newList[b := Some(h)], fresh_[b := [h] + fresh_[b]])
               && IsChain(next', At(buckets[i], j + 1), buckets[i][j + 1..])
  {
    var chain, h := buckets[i], buckets[i][j];
    GoodIsApart(hash, keys, buckets, members);
    GoodIsApart(hash, keys, fresh_, moved);
    MoveOne(hash, keys, buckets, members, i, j, moved, fresh_);
    assert h in chain && chain[j..][0] == h;
    var b := BucketOf(hash, keys[h], |fresh_|);
    RestOfChain(next, chain, j, newList[b]);
    forall c | i + 1 <= c < |buckets| ensures IsChain(next[h := newList[b]], list[c], buckets[c]) {
      OutsideLink(next, list[c], buckets[c], h, newList[b]);
    }
    PushLinks(newList, next, fresh_, h, b);
  }

  lemma RestOfChain(next: Links, chain: seq<nat>, j: nat, v: Option<nat>)
    requires j < |chain| && Unrepeated(chain) && IsChain(next, At(chain, j), chain[j..])
    ensures chain[j] < |next| && next[chain[j]] == At(chain, j + 1)
      && IsChain(next[chain[j] := v], At(chain, j + 1), chain[j + 1..])
  {
    var rest, tail := chain[j..], chain[j + 1..];
    assert rest[0] == chain[j] && At(rest, 1) == At(chain, j + 1);
    forall k | 0 <= k < |tail| ensures tail[k] < |next| && tail[k] != chain[j] && next[tail[k]] == At(tail, k + 1) {
      assert tail[k] == rest[k + 1] == chain[j + 1 + k] && At(tail, k + 1) == At(rest, k + 2);
    }
  }

  /** A handle of no chain is pushed to the front of one. */
  lemma PushLinks(newList: Links, next: Links, fresh_: Buckets, h: nat, b: nat)
    requires Linked(newList, next, fresh_) && Apart(fresh_) && b < |fresh_| && h < |next|
    requires forall c :: 0 <= c < |fresh_| ==> h !in fresh_[c]
    ensures Linked(newList[b := Some(h)], next[h := newList[b]], fresh_[b := [h] + fresh_[b]])
  {
    var chain, next' := fresh_[b], next[h := newList[b]];
    OutsideLinks(newList, next, fresh_, h, newList[b]);
    assert IsChain(next', newList[b], chain);
    var tail := [h] + chain;
    forall k | 0 <= k < |tail| ensures tail[k] < |next'| && next'[tail[k]] == At(tail, k + 1) {
      assert At(tail, k + 1) == At(chain, k);
      assert k > 0 ==> tail[k] == chain[k - 1];
    }
    Splice(newList, next', fresh_, b, 0, tail);
    assert chain[..0] + tail == tail;
  }
}
