// The user-visible iterator over internal entries (db/db_iter.cc).

/** The iterator interface, over a sorted list (include/leveldb/iterator.h). */
module Cursors {
  import opened DbFormat

  /** The place of the first entry at or after the target. */
  method SeekIn(list: seq<Entry>, target: InternalKey) returns (pos: nat)
    requires Sorted(list)
    ensures pos <= |list| && (forall i :: 0 <= i < pos ==> Before(list[i].key, target))
    ensures forall i :: pos <= i < |list| ==> !Before(list[i].key, target)
  {
    pos := 0;
    while pos < |list| && Before(list[pos].key, target)
      invariant pos <= |list| && forall i :: 0 <= i < pos ==> Before(list[i].key, target)
    {
      pos := pos + 1;
    }
    if pos < |list| {
      forall i | pos <= i < |list| ensures !Before(list[i].key, target) {
        assert i == pos || Before(list[pos].key, list[i].key);
      }
    }
  }

  /** The place of the last entry, and that before a given one; |list| if there is none. */
  function LastIn(list: seq<Entry>): nat {
    if list == [] then 0 else |list| - 1
  }

  function PrevIn(list: seq<Entry>, pos: nat): nat {
    if pos == 0 then |list| else pos - 1
  }

  /** An iterator that has run off either end is just invalid: it is then at |list|. */
  class Cursor {
    const list: seq<Entry>
    var pos: nat

    ghost predicate Good() reads this {
      Sorted(list) && pos <= |list|
    }

    predicate Valid() reads this {
      pos < |list|
    }

    function Key(): InternalKey
      reads this
      requires Valid()
    {
      list[pos].key
    }

    function Value(): string
      reads this
      requires Valid()
    {
      list[pos].value
    }

    constructor (list: seq<Entry>)
      requires Sorted(list)
      ensures Good() && !Valid() && this.list == list
    {
      this.list := list;
      pos := |list|;
    }

    method SeekToFirst()
      requires Good()
      modifies this
      ensures Good() && pos == 0
    {
      pos := 0;
    }

    method SeekToLast()
      requires Good()
      modifies this
      ensures Good() && pos == LastIn(list)
    {
      pos := LastIn(list);
    }

    method Next()
      requires Good() && Valid()
      modifies this
      ensures Good() && pos == old(pos) + 1
    {
      pos := pos + 1;
    }

    method Prev()
      requires Good() && Valid()
      modifies this
      ensures Good() && pos == PrevIn(list, old(pos))
    {
      pos := PrevIn(list, pos);
    }

    /** To the first entry at or after the target. */
    method Seek(target: InternalKey)
      requires Good()
      modifies this
      ensures Good() && (forall i :: 0 <= i < pos ==> Before(list[i].key, target))
      ensures forall i :: pos <= i < |list| ==> !Before(list[i].key, target)
    {
      pos := SeekIn(list, target);
    }
  }
}
