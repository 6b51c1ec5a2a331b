module DBIters {
  import opened DbFormat
  import opened Meaning
  import opened Cursors
  import opened LiveEntries

  datatype Direction = Forward | Reverse

  const CLEARED_KEY: UserKey := 0.0

  ghost predicate NoneLive(list: seq<Entry>, sequence: SequenceNumber, low: nat, high: nat)
    requires high <= |list|
  {
    forall k: nat :: low <= k < high ==> !Live(list, sequence, k)
  }

  /** The scan forward for the first live entry from start on has reached p. Entries still to be
      skipped are exactly the ones hidden by an entry already passed, or out of view. */
  ghost predicate Scanning(list: seq<Entry>, sequence: SequenceNumber, start: nat, p: nat, skipping: bool,
                           skip: UserKey) {
    && p <= |list| && start <= |list| && NoneLive(list, sequence, start, p)
    && (forall i: nat :: p <= i < start && InView(list, sequence, i) ==>
          list[i].key.kind.Value? && skipping && list[i].key.user <= skip)
    && (forall i: nat :: start <= i < |list| && p <= i && skipping && list[i].key.user <= skip ==>
          !Live(list, sequence, i))
    && (forall j: nat, i: nat :: j < p <= i < |list| && InView(list, sequence, j)
                                 && list[i].key.user == list[j].key.user ==>
          skipping && list[i].key.user <= skip)
  }

  /** v is the last live entry before end: the scan backward stopped at p, before it. */
  ghost predicate StoppedBefore(list: seq<Entry>, sequence: SequenceNumber, p: nat, v: nat)
    requires p <= |list| && v < |list|
  {
    if p == |list| then forall k: nat :: k < v ==> !InView(list, sequence, k)
    else p < v && list[p].key.user < list[v].key.user && forall k: nat :: p < k < v ==> !InView(list, sequence, k)
  }

  /** The first entry in view from p on and before end, if any. */
  ghost predicate FirstInView(list: seq<Entry>, sequence: SequenceNumber, p: nat, end: nat, v: Option<nat>)
    requires end <= |list|
  {
    match v
    case None => forall k: nat :: p <= k < end ==> !InView(list, sequence, k)
    case Some(b) => p <= b < end && InView(list, sequence, b) && forall k: nat :: p <= k < b ==>
      !InView(list, sequence, k)
  }

  lemma SortedUsers(list: seq<Entry>, i: nat, j: nat)
    requires Sorted(list) && i <= j < |list|
    ensures list[i].key.user <= list[j].key.user
  {
    assert i < j ==> Before(list[i].key, list[j].key);
  }

  lemma SkipOne(list: seq<Entry>, sequence: SequenceNumber, start: nat, p: nat, skipping: bool, skip: UserKey)
    requires Sorted(list) && Scanning(list, sequence, start, p, skipping, skip) && p < |list|
    requires InView(list, sequence, p) ==> list[p].key.kind.Value? && skipping && list[p].key.user <= skip
    ensures Scanning(list, sequence, start, p + 1, skipping, skip)
  {
    if start <= p {
      assert !Live(list, sequence, p);
    }
  }

  lemma SkipDeletion(list: seq<Entry>, sequence: SequenceNumber, start: nat, p: nat, skipping: bool, skip: UserKey)
    requires Sorted(list) && Scanning(list, sequence, start, p, skipping, skip) && p < |list|
    requires InView(list, sequence, p) && list[p].key.kind.Deletion?
    ensures Scanning(list, sequence, start, p + 1, true, list[p].key.user)
  {
    var user := list[p].key.user;
    assert start <= p;
    forall i: nat | p < i < |list| ensures user <= list[i].key.user
      && (list[i].key.user == user ==> !Live(list, sequence, i)) {
      SortedUsers(list, p, i);
    }
    forall j: nat, i: nat | j <= p < i < |list| && InView(list, sequence, j) && list[i].key.user == list[j].key.user
      ensures list[i].key.user <= user
    {
      SortedUsers(list, j, p);
    }
  }

  lemma FoundLive(list: seq<Entry>, sequence: SequenceNumber, start: nat, p: nat, skipping: bool, skip: UserKey)
    requires Scanning(list, sequence, start, p, skipping, skip) && p < |list|
    requires InView(list, sequence, p) && list[p].key.kind.Value? && !(skipping && list[p].key.user <= skip)
    ensures start <= p && Live(list, sequence, p)
  {
  }

  /** The first visible entry going back decides: a live one if it is a value and nothing of its
      user key is in view before it. */
  lemma FoundBackward(list: seq<Entry>, sequence: SequenceNumber, p: nat, v: nat)
    requires Sorted(list) && p <= |list| && v < |list| && InView(list, sequence, v) && list[v].key.kind.Value?
    requires StoppedBefore(list, sequence, p, v)
    ensures Live(list, sequence, v)
  {
    forall j: nat | j < v && InView(list, sequence, j) ensures list[j].key.user != list[v].key.user {
      if p < |list| {
        SortedUsers(list, j, p);
      }
    }
  }

  class DBIter {
    const iter: Cursor
    const sequence: SequenceNumber
    var savedKey: UserKey
    var savedValue: string
    var direction: Direction
    var valid: bool
    /** Which entry the iterator is at. */
    ghost var current: nat

    ghost predicate Good() reads this, iter {
      && iter.Good()
      && (valid ==>
        && current < |iter.list| && Live(iter.list, sequence, current)
        && (direction.Forward? ==> iter.pos == current)
        && (direction.Reverse? ==> StoppedBefore(iter.list, sequence, iter.pos, current)
                                   && savedKey == iter.list[current].key.user
                                     && savedValue == iter.list[current].value))
    }

    /** What the iterator is a cursor over. */
    function Contents(): seq<(UserKey, string)> {
      LiveList(iter.list, sequence)
    }

    ghost function Position(): nat
      reads this, iter
      requires Good() && valid
    {
      Rank(iter.list, sequence, current)
    }

    constructor (iter: Cursor, sequence: SequenceNumber)
      requires iter.Good()
      ensures Good() && !valid && this.iter == iter && this.sequence == sequence
    {
      this.iter, this.sequence := iter, sequence;
      savedKey, savedValue, direction, valid := CLEARED_KEY, "", Forward, false;
    }

    method KeyAndValue() returns (kv: (UserKey, string))
      requires Good() && valid
      ensures Position() < |Contents()| && kv == Contents()[Position()]
    {
      LiveAtRank(iter.list, sequence, current);
      kv := if direction.Forward? then (iter.Key().user, iter.Value()) else (savedKey, savedValue);
    }

    method FindNextUserEntry(skipping: bool, ghost start: nat)
      requires iter.Good() && iter.Valid() && direction == Forward
      requires Scanning(iter.list, sequence, start, iter.pos, skipping, savedKey)
      modifies this`savedKey, this`valid, this`current, iter
      ensures Good() && direction == Forward
      ensures if valid then start <= current && NoneLive(iter.list, sequence, start, current)
              else NoneLive(iter.list, sequence, start, |iter.list|)
    {
      var skip := skipping;
      while iter.Valid()
        invariant iter.Good() && direction == Forward && Scanning(iter.list, sequence, start, iter.pos, skip, savedKey)
        decreases |iter.list| - iter.pos
      {
        var ikey := iter.Key();
        ghost var p := iter.pos;
        if ikey.sequence <= sequence && ikey.kind.Deletion? {
          SkipDeletion(iter.list, sequence, start, p, skip, savedKey);
          savedKey := ikey.user;
          skip := true;
        } else if ikey.sequence <= sequence && !(skip && ikey.user <= savedKey) {
          FoundLive(iter.list, sequence, start, p, skip, savedKey);
          valid, current := true, p;
          savedKey := CLEARED_KEY;
          return;
        } else {
          SkipOne(iter.list, sequence, start, p, skip, savedKey);
        }
        iter.Next();
      }
      savedKey := CLEARED_KEY;
      valid := false;
    }

    method Next()
      requires Good() && valid
      modifies this, iter
      ensures Good()
      ensures valid <==> old(Position()) + 1 < |Contents()|
      ensures valid ==> Position() == old(Position()) + 1
    {
      ghost var start := current + 1;
      ghost var list, rank := iter.list, Position();
      assert Rank(list, sequence, start) == rank + 1;
      if direction.Reverse? {
        direction := Forward;
        if !iter.Valid() {
          iter.SeekToFirst();
        } else {
          iter.Next();
        }
        // The current entry is still ahead, so the iterator cannot have run off the end.
        ScanFromReverse(list, sequence, iter.pos, start - 1);
      } else {
        savedKey := iter.Key().user;
        ScanFromCurrent(list, sequence, start - 1);
      }
      FindNextUserEntry(true, start);
      ArrivedForward(list, sequence, start, if valid then current else |list|);
      if valid {
        LiveAtRank(list, sequence, current);
      }
    }

    method FindPrevUserEntry(ghost end: nat)
      requires iter.Good() && direction == Reverse && end == if iter.Valid() then iter.pos + 1 else 0
      modifies this`savedKey, this`savedValue, this`valid, this`current, this`direction, iter
      ensures Good()
      ensures if valid then direction == Reverse && current < end && NoneLive(iter.list, sequence, current + 1, end)
              else NoneLive(iter.list, sequence, 0, end)
    {
      var valueType := Deletion;
      ghost var v: Option<nat> := None;
      while iter.Valid()
        invariant iter.Good() && direction == Reverse
        invariant ScanningBack(iter.list, sequence, if iter.Valid() then iter.pos + 1 else 0, end, v)
        invariant valueType.Value? <==> v.Some? && iter.list[v.value].key.kind.Value?
        invariant valueType.Value? ==> savedKey == iter.list[v.value].key.user && savedValue == iter.list[v.value].value
        decreases if iter.Valid() then iter.pos + 1 else 0
      {
        var ikey := iter.Key();
        if ikey.sequence <= sequence {
          if valueType != Deletion && ikey.user < savedKey {
            break;
          }
          PassBackward(iter.list, sequence, iter.pos, end, v);
          v := Some(iter.pos);
          valueType := ikey.kind;
          if valueType == Deletion {
            savedKey := CLEARED_KEY;
            savedValue := "";
          } else {
            savedKey := ikey.user;
            savedValue := iter.Value();
          }
        }
        iter.Prev();
      }
      if valueType == Deletion {
        valid := false;
        savedKey := CLEARED_KEY;
        savedValue := "";
        direction := Forward;
      } else {
        valid, current := true, v.value;
        FoundBackward(iter.list, sequence, iter.pos, current);
      }
    }

    method Prev()
      requires Good() && valid
      modifies this, iter
      ensures Good()
      ensures valid <==> 0 < old(Position())
      ensures valid ==> Position() == old(Position()) - 1
    {
      ghost var list, v, end := iter.list, current, if iter.Valid() then iter.pos + 1 else 0;
      if direction.Forward? {
        savedKey := iter.Key().user;
        iter.Prev();
        while iter.Valid() && iter.Key().user >= savedKey
          invariant iter.Good() && direction.Forward? && savedKey == list[v].key.user
          invariant iter.Valid() ==> iter.pos < v
          invariant forall k: nat :: (if iter.Valid() then iter.pos else 0 - 1) < k < v ==> list[k].key.user == savedKey
          decreases if iter.Valid() then iter.pos + 1 else 0
        {
          SortedUsers(list, iter.pos, v);
          iter.Prev();
        }
        end := if iter.Valid() then iter.pos + 1 else 0;
        if !iter.Valid() {
          valid := false;
          savedKey := CLEARED_KEY;
          savedValue := "";
          ArrivedBackward(list, sequence, 0, v);
          return;
        }
        direction := Reverse;
      }
      FindPrevUserEntry(end);
      ArrivedBackward(list, sequence, if valid then current + 1 else 0, v);
    }

    method Seek(target: UserKey)
      requires Good()
      modifies this, iter
      ensures Good()
      ensures valid <==> LiveBefore(iter.list, sequence, target) < |Contents()|
      ensures valid ==> Position() == LiveBefore(iter.list, sequence, target)
    {
      direction := Forward;
      savedValue := "";
      savedKey := target;
      iter.Seek(SeekKey(target, sequence));
      ghost var start := iter.pos;
      ScanFromSeek(iter.list, sequence, target, start);
      SoughtRank(iter.list, sequence, target, start);
      if iter.Valid() {
        FindNextUserEntry(false, start);
      } else {
        valid := false;
      }
      ArrivedForward(iter.list, sequence, start, if valid then current else |iter.list|);
      if valid {
        LiveAtRank(iter.list, sequence, current);
      }
    }

    method SeekToFirst()
      requires Good()
      modifies this, iter
      ensures Good()
      ensures valid <==> |Contents()| > 0
      ensures valid ==> Position() == 0
    {
      direction := Forward;
      savedValue := "";
      iter.SeekToFirst();
      if iter.Valid() {
        FindNextUserEntry(false, 0);
      } else {
        valid := false;
      }
      ArrivedForward(iter.list, sequence, 0, if valid then current else |iter.list|);
      if valid {
        LiveAtRank(iter.list, sequence, current);
      }
    }

    method SeekToLast()
      requires Good()
      modifies this, iter
      ensures Good()
      ensures valid <==> |Contents()| > 0
      ensures valid ==> Position() == |Contents()| - 1
    {
      direction := Reverse;
      savedValue := "";
      iter.SeekToLast();
      FindPrevUserEntry(|iter.list|);
      ArrivedBackward(iter.list, sequence, if valid then current + 1 else 0, |iter.list|);
    }
  }

  /** How many live user keys come before the target. */
  function LiveBefore(list: seq<Entry>, sequence: SequenceNumber, target: UserKey): nat {
    CountBefore(LiveList(list, sequence), target)
  }

  function CountBefore(live: seq<(UserKey, string)>, target: UserKey): nat {
    if live == [] then 0
    else CountBefore(live[..|live| - 1], target) + if live[|live| - 1].0 < target then 1 else 0
  }

  /** No visible entry comes before the place a seek leads to, other than those of smaller user keys. */
  lemma ScanFromSeek(list: seq<Entry>, sequence: SequenceNumber, target: UserKey, p: nat)
    requires Sorted(list) && p <= |list|
    requires forall i :: 0 <= i < p ==> Before(list[i].key, SeekKey(target, sequence))
    requires forall i :: p <= i < |list| ==> !Before(list[i].key, SeekKey(target, sequence))
    ensures Scanning(list, sequence, p, p, false, target)
  {
  }

  lemma SoughtRank(list: seq<Entry>, sequence: SequenceNumber, target: UserKey, p: nat)
    requires Sorted(list) && p <= |list|
    requires forall i :: 0 <= i < p ==> Before(list[i].key, SeekKey(target, sequence))
    requires forall i :: p <= i < |list| ==> !Before(list[i].key, SeekKey(target, sequence))
    ensures Rank(list, sequence, p) == LiveBefore(list, sequence, target)
  {
    SoughtPrefix(list, sequence, target, p, |list|);
  }

  /** Of the live entries those before p, and only those, have smaller user keys. */
  lemma {:induction false} SoughtPrefix(list: seq<Entry>, sequence: SequenceNumber, target: UserKey, p: nat, n: nat)
    requires p <= |list| && n <= |list|
    requires forall i :: 0 <= i < p ==> Before(list[i].key, SeekKey(target, sequence))
    requires forall i :: p <= i < |list| ==> !Before(list[i].key, SeekKey(target, sequence))
    ensures CountBefore(LivePrefix(list, sequence, n), target) == Rank(list, sequence, if n <= p then n else p)
    decreases n
  {
    if n > 0 {
      SoughtPrefix(list, sequence, target, p, n - 1);
      var live := LivePrefix(list, sequence, n);
      if Live(list, sequence, n - 1) {
        assert Before(list[n - 1].key, SeekKey(target, sequence)) <==> n <= p;
        assert live[|live| - 1].0 == list[n - 1].key.user;
        assert live[..|live| - 1] == LivePrefix(list, sequence, n - 1);
      } else {
        assert live == LivePrefix(list, sequence, n - 1);
      }
    }
  }

  /** Nothing live from low to high - 1: low is right after a live entry, or at the start. */
  lemma ArrivedBackward(list: seq<Entry>, sequence: SequenceNumber, low: nat, high: nat)
    requires low <= high <= |list| && NoneLive(list, sequence, low, high)
    ensures Rank(list, sequence, high) == Rank(list, sequence, low)
    ensures low > 0 && Live(list, sequence, low - 1) ==> Rank(list, sequence, low - 1) + 1 == Rank(list, sequence, low)
  {
    NoneLiveBetween(list, sequence, low, high);
  }

  /** The scan backward goes on below p: it has kept the first entry in view that it passed. */
  ghost predicate ScanningBack(list: seq<Entry>, sequence: SequenceNumber, p: nat, end: nat, v: Option<nat>) {
    && p <= end <= |list| && FirstInView(list, sequence, p, end, v)
    && (v.Some? ==> NoneLive(list, sequence, v.value + 1, end))
  }

  lemma PassBackward(list: seq<Entry>, sequence: SequenceNumber, p: nat, end: nat, v: Option<nat>)
    requires Sorted(list) && ScanningBack(list, sequence, p + 1, end, v) && InView(list, sequence, p)
    requires v.Some? && list[v.value].key.kind.Value? ==> list[p].key.user >= list[v.value].key.user
    ensures ScanningBack(list, sequence, p, end, Some(p))
  {
    forall k: nat | p < k < end ensures !Live(list, sequence, k) {
      if v.Some? && k == v.value {
        SortedUsers(list, p, k);
      }
    }
  }

  lemma ScanFromCurrent(list: seq<Entry>, sequence: SequenceNumber, v: nat)
    requires Sorted(list) && v < |list| && Live(list, sequence, v)
    ensures Scanning(list, sequence, v + 1, v, true, list[v].key.user)
  {
    forall i: nat | v < i < |list| && list[i].key.user <= list[v].key.user ensures !Live(list, sequence, i) {
      SortedUsers(list, v, i);
    }
    forall j: nat, i: nat | j < v <= i < |list| && InView(list, sequence, j) && list[i].key.user == list[j].key.user
      ensures list[i].key.user <= list[v].key.user
    {
      SortedUsers(list, j, v);
    }
  }

  /** Just past where a backward scan stopped, everything up to the current entry is to be skipped. */
  lemma ScanFromReverse(list: seq<Entry>, sequence: SequenceNumber, p: nat, v: nat)
    requires Sorted(list) && v < |list| && Live(list, sequence, v) && p <= v
    requires forall k: nat :: p <= k < v ==> !InView(list, sequence, k)
    requires p > 0 ==> list[p - 1].key.user < list[v].key.user
    ensures Scanning(list, sequence, v + 1, p, true, list[v].key.user)
  {
    forall i: nat | v < i < |list| && list[i].key.user <= list[v].key.user ensures !Live(list, sequence, i) {
      SortedUsers(list, v, i);
    }
    forall j: nat, i: nat | j < p <= i < |list| && InView(list, sequence, j) && list[i].key.user == list[j].key.user
      ensures list[i].key.user <= list[v].key.user
    {
      SortedUsers(list, j, p - 1);
    }
  }

  lemma ArrivedForward(list: seq<Entry>, sequence: SequenceNumber, start: nat, q: nat)
    requires start <= q <= |list| && NoneLive(list, sequence, start, q)
    ensures Rank(list, sequence, q) == Rank(list, sequence, start)
  {
    NoneLiveBetween(list, sequence, start, q);
  }
}
