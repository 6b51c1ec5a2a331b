// The memtable: entries in a skip list, read at a snapshot (db/memtable.cc, db/skiplist.h).

module MemTables {
  import opened DbFormat
  import opened Meaning
  import opened SkipMemory
  import opened SkipLists

  /** e is the first entry at or after the key. */
  ghost predicate IsFirst(entries: set<Entry>, from: InternalKey, e: Entry) {
    e in entries && !Before(e.key, from) && forall d :: d in entries && !Before(d.key, from) ==>
      d == e || Before(e.key, d.key)
  }

  ghost predicate NoneFrom(entries: set<Entry>, from: InternalKey) {
    forall d :: d in entries ==> Before(d.key, from)
  }

  /** e is the last entry before the key. */
  ghost predicate IsLast(entries: set<Entry>, before: InternalKey, e: Entry) {
    e in entries && Before(e.key, before) && forall d :: d in entries && Before(d.key, before) ==>
      d == e || Before(d.key, e.key)
  }

  ghost predicate NoneBefore(entries: set<Entry>, before: InternalKey) {
    forall d :: d in entries ==> !Before(d.key, before)
  }

  /** SkipList::Iterator: at an entry, or at none. */
  class Iterator {
    const list: SkipList
    var node: nat

    ghost predicate Valid() reads this, list {
      list.Valid() && (node == 0 || (node in list.linked[0] && node < |list.nodes|))
    }

    predicate AtEntry() reads this {
      node != 0
    }

    function Key(): Entry
      reads this, list
      requires Valid() && AtEntry()
    {
      list.nodes[node].entry
    }

    constructor (list: SkipList)
      requires list.Valid()
      ensures Valid() && !AtEntry() && this.list == list
    {
      this.list := list;
      node := 0;
    }

    method Seek(target: InternalKey)
      requires Valid()
      modifies this
      ensures Valid()
      ensures if AtEntry() then IsFirst(list.Entries(), target, Key()) else NoneFrom(list.Entries(), target)
    {
      var n, _ := list.FindGreaterOrEqual(target);
      node := n;
    }

    method SeekToFirst()
      requires Valid()
      modifies this
      ensures Valid()
      ensures if AtEntry() then Key() in list.Entries() && NoneBefore(list.Entries(), Key().key)
                                else list.Entries() == {}
    {
      assert LevelGood(list.nodes, 0, list.linked[0]);
      assert IsSuccessor(list.nodes, list.linked[0], 0, list.nodes[0].next[0]);
      node := list.nodes[0].next[0];
    }

    method SeekToLast()
      requires Valid()
      modifies this
      ensures Valid()
      ensures if AtEntry() then Key() in list.Entries() && forall d :: d in list.Entries() ==> !Before(Key().key, d.key)
              else list.Entries() == {}
    {
      node := list.FindLast();
    }

    /** The next larger entry. */
    method Next()
      requires Valid() && AtEntry()
      modifies this
      ensures Valid() && old(Key()) in list.Entries()
      ensures if AtEntry() then Key() in list.Entries() && Before(old(Key()).key, Key().key)
                && forall d :: d in list.Entries() && Before(old(Key()).key, d.key) ==> !Before(d.key, Key().key)
              else forall d :: d in list.Entries() ==> !Before(old(Key()).key, d.key)
    {
      assert LevelGood(list.nodes, 0, list.linked[0]);
      assert IsSuccessor(list.nodes, list.linked[0], node, list.nodes[node].next[0]);
      node := list.nodes[node].next[0];
    }

    /** No link leads back: a search for the last entry before this one. */
    method Prev()
      requires Valid() && AtEntry()
      modifies this
      ensures Valid() && old(Key()) in list.Entries()
      ensures if AtEntry() then IsLast(list.Entries(), old(Key()).key, Key())
                                else NoneBefore(list.Entries(), old(Key()).key)
    {
      ghost var key := Key().key;
      node := list.FindLessThan(list.nodes[node].entry.key);
      PrevIsLast(list.nodes, list.linked[0], key, node);
    }
  }

  lemma PrevIsLast(nodes: Nodes, linked: set<nat>, key: InternalKey, x: nat)
    requires Allocated(nodes, 0, linked) && DistinctKeys(nodes, linked) && IsPrev(nodes, 0, linked, key, x)
    ensures if x != 0 then IsLast(EntriesOf(nodes, linked), key, nodes[x].entry)
                           else NoneBefore(EntriesOf(nodes, linked), key)
  {
    if x != 0 {
      forall y | y in linked && Before(nodes[y].entry.key, key)
        ensures y == x || Before(nodes[y].entry.key, nodes[x].entry.key) {
        assert !Precedes(nodes, x, y);
      }
    }
  }

  /** The first entry at or after the seek key is the newest one at the snapshot, if it is of the
      right user key. */
  lemma SeekFindsNewest(entries: set<Entry>, user: UserKey, snapshot: SequenceNumber, e: Entry)
    requires IsFirst(entries, SeekKey(user, snapshot), e) && e.key.user == user
    ensures IsNewest(entries, user, snapshot, e)
  {
    forall d | d in entries && Candidate(d, user, snapshot) ensures d.key.sequence <= e.key.sequence {
      assert !Before(d.key, SeekKey(user, snapshot));
    }
  }

  lemma SeekFindsNone(entries: set<Entry>, user: UserKey, snapshot: SequenceNumber, d: Entry)
    requires d in entries && Candidate(d, user, snapshot)
    ensures !NoneFrom(entries, SeekKey(user, snapshot))
    ensures forall e :: IsFirst(entries, SeekKey(user, snapshot), e) ==> e.key.user == user
  {
    assert !Before(d.key, SeekKey(user, snapshot));
  }

  class MemTable {
    const table: SkipList

    ghost predicate Valid() reads this, table {
      table.Valid()
    }

    ghost function Entries(): set<Entry>
      reads this, table
      requires Valid()
    {
      table.Entries()
    }

    constructor (any: Entry)
      ensures Valid() && Entries() == {} && fresh(table)
    {
      table := new SkipList(any);
    }

    method Add(sequence: SequenceNumber, kind: ValueType, user: UserKey, value: string, height: nat)
      requires Valid() && 1 <= height <= MAX_HEIGHT
      requires forall d :: d in Entries() ==> d.key != InternalKey(user, sequence, kind)
      modifies table
      ensures Valid() && Entries() == old(Entries()) + {Entry(InternalKey(user, sequence, kind), value)}
    {
      table.Insert(Entry(InternalKey(user, sequence, kind), value), height);
    }

    /** None: the memtable does not know. Some(None): deleted. Some(Some(v)): the value is v. */
    method Get(user: UserKey, snapshot: SequenceNumber) returns (found: Option<Option<string>>)
      requires Valid()
      ensures found.Some? <==> exists e :: e in Entries() && Candidate(e, user, snapshot)
      ensures found.Some? && DistinctSequences(Entries()) ==> found.value == Visible(Entries(), user, snapshot)
    {
      var iter := new Iterator(table);
      iter.Seek(SeekKey(user, snapshot));
      if d :| d in Entries() && Candidate(d, user, snapshot) {
        SeekFindsNone(Entries(), user, snapshot, d);
      }
      if iter.AtEntry() {
        var e := iter.Key();
        if e.key.user == user {
          SeekFindsNewest(Entries(), user, snapshot, e);
          if DistinctSequences(Entries()) {
            VisibleIsNewest(Entries(), user, snapshot, e);
          }
          return Some(Shown(e));
        }
      }
      return None;
    }
  }
}
