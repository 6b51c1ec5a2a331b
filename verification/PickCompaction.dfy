/** Compaction choice: PickCompaction, SetupOtherInputs, CompactRange, IsTrivialMove. */
module PickCompaction {
  import opened DbFormat
  import opened Versions
  import opened CompactionMeaning
  import opened OverlappingInputs

  datatype Pick = Pick(level: nat, inputs0: seq<File>, inputs1: seq<File>, grandparents: seq<File>)

  /** Why a compaction starts: a level's score, or a file that cost too many seeks. The scores
      and seek counts themselves are not part of the model. */
  datatype Trigger = SizeTrigger(level: nat) | SeekTrigger(level: nat, file: File) | NoTrigger

  function TotalFileSize(files: seq<File>): nat {
    if files == [] then 0 else TotalFileSize(files[..|files| - 1]) + files[|files| - 1].size
  }

  function UserRange(smallest: InternalKey, largest: InternalKey): Range {
    Range(Some(smallest.user), Some(largest.user))
  }

  /** The least range of internal keys that covers all the files. */
  ghost predicate IsHull(files: seq<File>, smallest: InternalKey, largest: InternalKey) {
    && (exists f :: f in files && f.smallest == smallest) && (exists f :: f in files && f.largest == largest)
    && forall f :: f in files ==> !Before(f.smallest, smallest) && !Before(largest, f.largest)
  }

  method GetRange(inputs: seq<File>) returns (smallest: InternalKey, largest: InternalKey)
    requires inputs != []
    ensures IsHull(inputs, smallest, largest)
  {
    smallest, largest := inputs[0].smallest, inputs[0].largest;
    for i := 1 to |inputs|
      invariant exists j :: 0 <= j < i && inputs[j].smallest == smallest
      invariant exists j :: 0 <= j < i && inputs[j].largest == largest
      invariant forall j :: 0 <= j < i ==> !Before(inputs[j].smallest, smallest) && !Before(largest, inputs[j].largest)
    {
      var f := inputs[i];
      if Before(f.smallest, smallest) {
        smallest := f.smallest;
      }
      if Before(largest, f.largest) {
        largest := f.largest;
      }
    }
  }

  /** What SetupOtherInputs needs to know of the first inputs: files of the level and, at level 0,
      all that meet their common range. */
  ghost predicate ClosedInputs(v: Version, level: nat, inputs0: seq<File>) {
    && level + 1 < NUM_LEVELS && inputs0 != [] && (forall f :: f in inputs0 ==> f in v[level])
    && (level == 0 ==> exists r: Range :: inputs0 == FilesMeeting(v[0], r) && Closed(v[0], r))
  }

  /** The pick's inputs meet the conditions under which a compaction keeps levels, age and meaning. */
  ghost predicate IsSound(v: Version, c: Pick, smallest: InternalKey, largest: InternalKey) {
    && c.inputs0 != [] && IsHull(c.inputs0, smallest, largest)
    && ClosedPick(v, c.level, FilesOf(c.inputs0), FilesOf(c.inputs1), smallest.user, largest.user)
  }

  /** The files of the next level that the inputs overlap. */
  ghost predicate IsNextOf(v: Version, level: nat, inputs0: seq<File>, inputs1: seq<File>) {
    level + 1 < NUM_LEVELS && exists s, l :: IsHull(inputs0, s, l)
                                             && inputs1 == FilesMeeting(v[level + 1], UserRange(s, l))
  }

  /** The files of the level that overlap the whole range of the inputs. */
  ghost predicate IsExpansion(v: Version, level: nat, inputs0: seq<File>, inputs1: seq<File>, expanded: seq<File>) {
    level < NUM_LEVELS
    && exists s, l, reach :: IsHull(inputs0 + inputs1, s, l)
                             && IsOverlapping(v[level], level, UserRange(s, l), reach, expanded)
  }

  ghost predicate Takes(c: Pick, inputs0: seq<File>, inputs1: seq<File>) {
    c.inputs0 == inputs0 && c.inputs1 == inputs1
  }

  /** The expanded inputs, if there are more of them, if they are not too large, and if they overlap no
      further file of the next level. */
  ghost predicate IsChoice(v: Version, maxFileSize: nat, level: nat, inputs0: seq<File>, inputs1: seq<File>,
                           expanded: seq<File>, c: Pick) {
    if |expanded| > |inputs0| && TotalFileSize(inputs1) + TotalFileSize(expanded) < 25 * maxFileSize then
      exists next :: IsNextOf(v, level, expanded, next)
        && if |next| == |inputs1| then Takes(c, expanded, next) else Takes(c, inputs0, inputs1)
    else
      Takes(c, inputs0, inputs1)
  }

  ghost predicate IsGrandparents(v: Version, c: Pick) {
    if c.level + 2 < NUM_LEVELS then
      exists s, l :: IsHull(c.inputs0 + c.inputs1, s, l)
                     && c.grandparents == FilesMeeting(v[c.level + 2], UserRange(s, l))
    else
      c.grandparents == []
  }

  /** What SetupOtherInputs makes of the first inputs. */
  ghost predicate IsSetup(v: Version, maxFileSize: nat, level: nat, inputs: seq<File>, c: Pick) {
    && c.level == level && IsGrandparents(v, c)
    && exists next :: IsNextOf(v, level, inputs, next)
         && if next == [] then Takes(c, inputs, [])
            else exists x :: IsExpansion(v, level, inputs, next, x)
                             && IsChoice(v, maxFileSize, level, inputs, next, x, c)
  }

  /** What PickCompaction picks for the file that a score or a seek points to. */
  ghost predicate AutoPick(v: Version, maxFileSize: nat, level: nat, file: File, c: Pick) {
    && level + 1 < NUM_LEVELS && file in v[level]
    && exists inputs ::
         && (if level == 0
             then exists reach :: IsOverlapping(v[0], 0, UserRange(file.smallest, file.largest), reach, inputs)
                                  else inputs == [file])
         && IsSetup(v, maxFileSize, level, inputs, c)
  }

  /** A prefix that ends with the file that makes its total size reach the limit, or all. */
  ghost predicate IsLimited(maxFileSize: nat, all: seq<File>, inputs: seq<File>) {
    && inputs != [] && inputs <= all
    && (|inputs| < |all| ==> TotalFileSize(inputs) >= maxFileSize)
    && forall k :: 0 <= k < |inputs| ==> k == 0 || TotalFileSize(inputs[..k]) < maxFileSize
  }

  /** What CompactRange picks for a range. */
  ghost predicate ManualPick(v: Version, maxFileSize: nat, level: nat, request: Range, c: Pick) {
    && level + 1 < NUM_LEVELS
    && exists all, reach, inputs ::
         && IsOverlapping(v[level], level, request, reach, all)
         && (if level == 0 then inputs == all && all != [] else IsLimited(maxFileSize, all, inputs))
         && IsSetup(v, maxFileSize, level, inputs, c)
  }

  /** A pick whose single input may simply be handed to the next level. */
  predicate IsTrivialMove(maxFileSize: nat, c: Pick) {
    |c.inputs0| == 1 && |c.inputs1| == 0 && TotalFileSize(c.grandparents) <= 10 * maxFileSize
  }

  /** Each of these inputs, and only these, overlaps the first ones' range. */
  lemma NextIsClosed(v: Version, level: nat, inputs0: seq<File>, inputs1: seq<File>)
    returns (smallest: InternalKey, largest: InternalKey)
    requires ClosedInputs(v, level, inputs0) && IsNextOf(v, level, inputs0, inputs1)
    ensures IsHull(inputs0, smallest, largest) && inputs1 == FilesMeeting(v[level + 1], UserRange(smallest, largest))
    ensures ClosedPick(v, level, FilesOf(inputs0), FilesOf(inputs1), smallest.user, largest.user)
  {
    smallest, largest :| IsHull(inputs0, smallest, largest)
      && inputs1 == FilesMeeting(v[level + 1], UserRange(smallest, largest));
    HullIsClosed(v, level, inputs0, smallest, largest, inputs1);
  }

  lemma ExpansionIsClosed(v: Version, level: nat, inputs0: seq<File>, inputs1: seq<File>, expanded: seq<File>)
    requires WellFormed(v) && ClosedInputs(v, level, inputs0) && IsExpansion(v, level, inputs0, inputs1, expanded)
    ensures ClosedInputs(v, level, expanded) && forall f :: f in inputs0 ==> f in expanded
  {
    var s, l, reach :| IsHull(inputs0 + inputs1, s, l)
      && IsOverlapping(v[level], level, UserRange(s, l), reach, expanded);
    InputsStay(v, level, inputs0, inputs1, s, l, reach);
    assert inputs0[0] in expanded;
  }

  /** Every set-up is closed, and drops none of the first inputs. */
  lemma SetupIsSound(v: Version, maxFileSize: nat, level: nat, inputs: seq<File>, c: Pick)
    returns (smallest: InternalKey, largest: InternalKey)
    requires WellFormed(v) && ClosedInputs(v, level, inputs) && IsSetup(v, maxFileSize, level, inputs, c)
    ensures IsSound(v, c, smallest, largest) && forall f :: f in inputs ==> f in c.inputs0
  {
    var next :| IsNextOf(v, level, inputs, next)
      && if next == [] then Takes(c, inputs, [])
         else exists x :: IsExpansion(v, level, inputs, next, x) && IsChoice(v, maxFileSize, level, inputs, next, x, c);
    if !Takes(c, inputs, next) {
      var x :| IsExpansion(v, level, inputs, next, x) && IsChoice(v, maxFileSize, level, inputs, next, x, c);
      ExpansionIsClosed(v, level, inputs, next, x);
      assert IsNextOf(v, level, c.inputs0, c.inputs1);
    }
    smallest, largest := NextIsClosed(v, level, c.inputs0, c.inputs1);
  }

  /** Every user key between the ends of the files is within one of them. */
  ghost predicate NoGap(files: seq<File>, within: seq<File>) {
    forall user, s, l :: IsHull(files, s, l) && s.user <= user <= l.user ==> Covered(within, user)
  }

  lemma ClosureHasNoGap(v: Version, file: File, reach: Range, inputs: seq<File>)
    requires WellFormed(v) && file in v[0]
      && IsOverlapping(v[0], 0, UserRange(file.smallest, file.largest), reach, inputs)
    ensures NoGap(inputs, inputs) && ClosedInputs(v, 0, inputs) && file in inputs
  {
    assert IsHull([file], file.smallest, file.largest) by {
      assert file in [file];
    }
    PickedFileStays(v, file, file.smallest, file.largest, reach);
    FilesAreRanges(v, 0, v[0]);
    forall user, s, l | IsHull(inputs, s, l) && s.user <= user <= l.user ensures Covered(inputs, user) {
      HullInReach(v[0], reach, inputs, s, l);
      if !(file.smallest.user <= user <= file.largest.user) {
        ClosureIsCovered(v[0], UserRange(file.smallest, file.largest), reach, user);
      }
    }
  }

  lemma HullInReach(files: seq<File>, reach: Range, inputs: seq<File>, s: InternalKey, l: InternalKey)
    requires inputs == FilesMeeting(files, reach) && Closed(files, reach) && IsHull(inputs, s, l)
    ensures forall user :: s.user <= user <= l.user ==> Contains(reach, user)
  {
  }

  /** With the next level's files the range stays without gaps. */
  lemma NextHasNoGap(v: Version, level: nat, inputs0: seq<File>, inputs1: seq<File>)
    requires WellFormed(v) && level < NUM_LEVELS && (forall f :: f in inputs0 ==> f in v[level])
    requires NoGap(inputs0, inputs0) && IsNextOf(v, level, inputs0, inputs1)
    ensures NoGap(inputs0 + inputs1, inputs0 + inputs1)
  {
    var s, l :| IsHull(inputs0, s, l) && inputs1 == FilesMeeting(v[level + 1], UserRange(s, l));
    forall user, low, high | IsHull(inputs0 + inputs1, low, high) && low.user <= user <= high.user
      ensures Covered(inputs0 + inputs1, user) {
      if s.user <= user <= l.user {
        assert Covered(inputs0, user);
        CoveredByMore(inputs0, inputs0 + inputs1, user);
      } else {
        BesideIsCovered(inputs0, inputs1, s, l, low, high, user);
      }
    }
  }

  /** A file that begins before the inputs' range or ends behind it, and meets it, covers what is between. */
  lemma BesideIsCovered(inputs0: seq<File>, inputs1: seq<File>, s: InternalKey, l: InternalKey,
                        low: InternalKey, high: InternalKey, user: UserKey)
    requires IsHull(inputs0, s, l) && IsHull(inputs0 + inputs1, low, high) && low.user <= user <= high.user
    requires forall f :: f in inputs1 ==> Meets(f, UserRange(s, l))
    requires user < s.user || l.user < user
    ensures Covered(inputs0 + inputs1, user)
  {
    if user < s.user {
      var f :| f in inputs0 + inputs1 && f.smallest == low;
    } else {
      var f :| f in inputs0 + inputs1 && f.largest == high;
    }
  }

  lemma FilesAreRanges(v: Version, level: nat, files: seq<File>)
    requires WellFormed(v) && level < NUM_LEVELS && forall f :: f in files ==> f in v[level]
    ensures forall f :: f in files ==> f.smallest.user <= f.largest.user
  {
    forall f | f in files ensures f.smallest.user <= f.largest.user {
      assert ValidFile(f);
      EntryInRange(f, f.entries[0]);
    }
  }

  lemma HullIsOrdered(files: seq<File>, s: InternalKey, l: InternalKey)
    requires IsHull(files, s, l) && forall f :: f in files ==> f.smallest.user <= f.largest.user
    ensures s.user <= l.user
  {
  }

  lemma ExpansionHasNoGap(v: Version, level: nat, inputs0: seq<File>, inputs1: seq<File>, expanded: seq<File>,
                          next: seq<File>)
    requires WellFormed(v) && ClosedInputs(v, level, inputs0) && IsExpansion(v, level, inputs0, inputs1, expanded)
    requires NoGap(inputs0 + inputs1, inputs0 + inputs1) && IsNextOf(v, level, inputs0, inputs1)
    requires IsNextOf(v, level, expanded, next) && |next| == |inputs1|
    ensures next == inputs1 && NoGap(expanded, expanded + next)
  {
    ExpansionIsClosed(v, level, inputs0, inputs1, expanded);
    var low, high, reach :| IsHull(inputs0 + inputs1, low, high)
      && IsOverlapping(v[level], level, UserRange(low, high), reach, expanded);
    SameNext(v, level, inputs0, inputs1, expanded, next);
    InputsAreOrdered(v, level, inputs0, inputs1, low, high);
    ExpandedCovers(v, level, inputs0 + inputs1, low, high, reach, expanded, expanded + next);
  }

  lemma InputsAreOrdered(v: Version, level: nat, inputs0: seq<File>, inputs1: seq<File>, low: InternalKey,
                         high: InternalKey)
    requires WellFormed(v) && level < NUM_LEVELS && (forall f :: f in inputs0 ==> f in v[level])
      && IsNextOf(v, level, inputs0, inputs1)
    requires IsHull(inputs0 + inputs1, low, high)
    ensures low.user <= high.user
  {
    FilesAreRanges(v, level, inputs0);
    FilesAreRanges(v, level + 1, inputs1);
    HullIsOrdered(inputs0 + inputs1, low, high);
  }

  lemma ExpandedCovers(v: Version, level: nat, base: seq<File>, low: InternalKey, high: InternalKey, reach: Range,
                       expanded: seq<File>, all: seq<File>)
    requires WellFormed(v) && level < NUM_LEVELS && IsHull(base, low, high) && low.user <= high.user
      && NoGap(base, base)
    requires IsOverlapping(v[level], level, UserRange(low, high), reach, expanded)
    requires (forall f :: f in base ==> f in all) && (forall f :: f in expanded ==> f in all)
    ensures NoGap(expanded, all)
  {
    forall user, s, l | IsHull(expanded, s, l) && s.user <= user <= l.user ensures Covered(all, user) {
      if low.user <= user <= high.user {
        assert Covered(base, user);
        CoveredByMore(base, all, user);
      } else {
        BeyondIsCovered(v, level, low, high, reach, expanded, s, l, user);
        CoveredByMore(expanded, all, user);
      }
    }
  }

  lemma CoveredByMore(files: seq<File>, more: seq<File>, user: UserKey)
    requires Covered(files, user) && forall f :: f in files ==> f in more
    ensures Covered(more, user)
  {
  }

  lemma SameNext(v: Version, level: nat, inputs0: seq<File>, inputs1: seq<File>, expanded: seq<File>, next: seq<File>)
    requires IsNextOf(v, level, inputs0, inputs1) && IsNextOf(v, level, expanded, next) && |next| == |inputs1|
    requires forall f :: f in inputs0 ==> f in expanded
    ensures next == inputs1
  {
    var s, l :| IsHull(inputs0, s, l) && inputs1 == FilesMeeting(v[level + 1], UserRange(s, l));
    var xs, xl :| IsHull(expanded, xs, xl) && next == FilesMeeting(v[level + 1], UserRange(xs, xl));
    MeetingGrows(v[level + 1], UserRange(s, l), UserRange(xs, xl));
  }

  lemma BeyondIsCovered(v: Version, level: nat, low: InternalKey, high: InternalKey, reach: Range,
                        expanded: seq<File>, s: InternalKey, l: InternalKey, user: UserKey)
    requires WellFormed(v) && level < NUM_LEVELS && low.user <= high.user
    requires IsOverlapping(v[level], level, UserRange(low, high), reach, expanded) && IsHull(expanded, s, l)
    requires s.user <= user <= l.user && !(low.user <= user <= high.user)
    ensures Covered(expanded, user)
  {
    if level == 0 {
      HullInReach(v[0], reach, expanded, s, l);
      FilesAreRanges(v, 0, v[0]);
      ClosureIsCovered(v[0], UserRange(low, high), reach, user);
    } else if user < low.user {
      var f :| f in expanded && f.smallest == s;
      assert Meets(f, reach);
    } else {
      var f :| f in expanded && f.largest == l;
      assert Meets(f, reach);
    }
  }

  lemma FirstInputs(v: Version, level: nat, file: File, inputs: seq<File>)
    requires WellFormed(v) && level + 1 < NUM_LEVELS && file in v[level]
    requires if level == 0
      then exists reach :: IsOverlapping(v[0], 0, UserRange(file.smallest, file.largest), reach, inputs)
                           else inputs == [file]
    ensures ClosedInputs(v, level, inputs) && NoGap(inputs, inputs) && file in inputs
  {
    if level == 0 {
      var reach :| IsOverlapping(v[0], 0, UserRange(file.smallest, file.largest), reach, inputs);
      ClosureHasNoGap(v, file, reach, inputs);
    } else {
      assert file in inputs;
    }
  }

  /** An automatic pick leaves no gap: every user key of its range is within one of its inputs. */
  lemma AutoPickHasNoGap(v: Version, maxFileSize: nat, level: nat, file: File, c: Pick)
    returns (smallest: InternalKey, largest: InternalKey)
    requires WellFormed(v) && AutoPick(v, maxFileSize, level, file, c)
    ensures IsSound(v, c, smallest, largest) && NoGap(c.inputs0, c.inputs0 + c.inputs1) && file in c.inputs0
  {
    var inputs :|
      && (if level == 0
          then exists reach :: IsOverlapping(v[0], 0, UserRange(file.smallest, file.largest), reach, inputs)
                               else inputs == [file])
      && IsSetup(v, maxFileSize, level, inputs, c);
    FirstInputs(v, level, file, inputs);
    smallest, largest := SetupIsSound(v, maxFileSize, level, inputs, c);
    SetupHasNoGap(v, maxFileSize, level, inputs, c);
  }

  lemma NoGapInPick(v: Version, maxFileSize: nat, level: nat, file: File, c: Pick)
    requires WellFormed(v) && AutoPick(v, maxFileSize, level, file, c)
    ensures NoGap(c.inputs0, c.inputs0 + c.inputs1)
  {
    var _, _ := AutoPickHasNoGap(v, maxFileSize, level, file, c);
  }

  lemma InputsArePick(v: Version, maxFileSize: nat, level: nat, file: File, inputs: seq<File>, c: Pick)
    requires level + 1 < NUM_LEVELS && file in v[level] && IsSetup(v, maxFileSize, level, inputs, c)
    requires if level == 0 then exists reach ::
                                IsOverlapping(v[0], 0, UserRange(file.smallest, file.largest), reach, inputs)
             else inputs == [file]
    ensures AutoPick(v, maxFileSize, level, file, c)
  {
  }

  lemma SetupHasNoGap(v: Version, maxFileSize: nat, level: nat, inputs: seq<File>, c: Pick)
    requires WellFormed(v) && ClosedInputs(v, level, inputs) && NoGap(inputs, inputs)
      && IsSetup(v, maxFileSize, level, inputs, c)
    ensures NoGap(c.inputs0, c.inputs0 + c.inputs1)
  {
    var next :| IsNextOf(v, level, inputs, next)
      && if next == [] then Takes(c, inputs, [])
         else exists x :: IsExpansion(v, level, inputs, next, x) && IsChoice(v, maxFileSize, level, inputs, next, x, c);
    NextHasNoGap(v, level, inputs, next);
    if Takes(c, inputs, next) {
      WiderHasNoGap(inputs, next);
    } else {
      var x :| IsExpansion(v, level, inputs, next, x) && IsChoice(v, maxFileSize, level, inputs, next, x, c);
      ExpansionHasNoGap(v, level, inputs, next, x, c.inputs1);
    }
  }

  lemma WiderHasNoGap(files: seq<File>, more: seq<File>)
    requires NoGap(files, files)
    ensures NoGap(files, files + more)
  {
    forall user, s, l | IsHull(files, s, l) && s.user <= user <= l.user ensures Covered(files + more, user) {
      assert Covered(files, user);
      CoveredByMore(files, files + more, user);
    }
  }

  /** A manual pick is closed too, but may have gaps between its inputs. */
  lemma ManualPickIsSound(v: Version, maxFileSize: nat, level: nat, request: Range, c: Pick)
    returns (smallest: InternalKey, largest: InternalKey)
    requires WellFormed(v) && ManualPick(v, maxFileSize, level, request, c)
    ensures IsSound(v, c, smallest, largest)
  {
    var all, reach, inputs :|
      && IsOverlapping(v[level], level, request, reach, all)
      && (if level == 0 then inputs == all && all != [] else IsLimited(maxFileSize, all, inputs))
      && IsSetup(v, maxFileSize, level, inputs, c);
    assert forall f :: f in inputs ==> f in all;
    smallest, largest := SetupIsSound(v, maxFileSize, level, inputs, c);
  }

  lemma HullIsClosed(v: Version, level: nat, inputs0: seq<File>, smallest: InternalKey, largest: InternalKey,
                     inputs1: seq<File>)
    requires ClosedInputs(v, level, inputs0) && IsHull(inputs0, smallest, largest)
    requires inputs1 == FilesMeeting(v[level + 1], UserRange(smallest, largest))
    ensures ClosedPick(v, level, FilesOf(inputs0), FilesOf(inputs1), smallest.user, largest.user)
  {
    if level == 0 {
      var r: Range :| inputs0 == FilesMeeting(v[0], r) && Closed(v[0], r);
      forall f | f in v[0] && f !in inputs0 ensures !Overlaps(f, smallest.user, largest.user) {
        var first :| first in inputs0 && first.smallest == smallest;
        var last :| last in inputs0 && last.largest == largest;
        assert Meets(first, r) && Meets(last, r);
      }
    }
  }

  predicate After(f: File, pointer: Option<InternalKey>) {
    pointer.None? || Before(pointer.value, f.largest)
  }

  ghost predicate IsNext(files: seq<File>, pointer: Option<InternalKey>, i: nat)
    requires i < |files|
  {
    && (forall j :: 0 <= j < i ==> !After(files[j], pointer))
    && (After(files[i], pointer) || (i == 0 && forall j :: 0 <= j < |files| ==> !After(files[j], pointer)))
  }

  ghost predicate IsNextFile(files: seq<File>, pointer: Option<InternalKey>, f: File) {
    exists i :: 0 <= i < |files| && files[i] == f && IsNext(files, pointer, i)
  }

  class VersionSet {
    const maxFileSize: nat
    var current: Version
    var compactPointer: seq<Option<InternalKey>>

    ghost predicate Valid()
      reads this
    {
      WellFormed(current) && |compactPointer| == NUM_LEVELS
    }

    constructor (maxFileSize: nat)
      ensures Valid() && this.maxFileSize == maxFileSize
      ensures forall l :: 0 <= l < NUM_LEVELS ==> current[l] == [] && compactPointer[l] == None
    {
      this.maxFileSize := maxFileSize;
      current := seq(NUM_LEVELS, _ => []);
      compactPointer := seq(NUM_LEVELS, _ => None);
    }

    /** The first file after the level's compaction pointer, wrapping around at the end. */
    method NextFile(level: nat) returns (f: File)
      requires Valid() && level < NUM_LEVELS && current[level] != []
      ensures IsNextFile(current[level], compactPointer[level], f)
    {
      for i := 0 to |current[level]|
        invariant forall j :: 0 <= j < i ==> !After(current[level][j], compactPointer[level])
      {
        f := current[level][i];
        if After(f, compactPointer[level]) {
          return;
        }
      }
      f := current[level][0];
    }

    method PickCompaction(trigger: Trigger)
      returns (pick: Option<Pick>, ghost smallest: InternalKey, ghost largest: InternalKey)
      requires Valid()
      requires trigger.SizeTrigger? ==> trigger.level + 1 < NUM_LEVELS && current[trigger.level] != []
      requires trigger.SeekTrigger? ==> trigger.level + 1 < NUM_LEVELS && trigger.file in current[trigger.level]
      modifies this`compactPointer
      ensures Valid()
      ensures pick.None? <==> trigger.NoTrigger?
      ensures pick.None? ==> compactPointer == old(compactPointer)
      ensures pick.Some? ==> IsSound(current, pick.value, smallest, largest)
                             && NoGap(pick.value.inputs0, pick.value.inputs0 + pick.value.inputs1)
      ensures pick.Some? ==> compactPointer == old(compactPointer)[trigger.level := Some(largest)]
      ensures trigger.SeekTrigger? ==> AutoPick(current, maxFileSize, trigger.level, trigger.file, pick.value)
      ensures trigger.SizeTrigger? ==> exists f ::
        IsNextFile(current[trigger.level], old(compactPointer)[trigger.level], f)
          && AutoPick(current, maxFileSize, trigger.level, f, pick.value)
    {
      smallest, largest := SeekKey(0.0, 0), SeekKey(0.0, 0);
      if trigger.NoTrigger? {
        return None, smallest, largest;
      }
      var level := trigger.level;
      var file := if trigger.SeekTrigger? then trigger.file else current[level][0];
      if trigger.SizeTrigger? {
        file := NextFile(level);
      }
      var c;
      c, smallest, largest := PickFor(level, file);
      pick := Some(c);
    }

    method PickFor(level: nat, file: File) returns (c: Pick, ghost smallest: InternalKey, ghost largest: InternalKey)
      requires Valid() && level + 1 < NUM_LEVELS && file in current[level]
      modifies this`compactPointer
      ensures Valid() && AutoPick(current, maxFileSize, level, file, c)
      ensures IsSound(current, c, smallest, largest) && NoGap(c.inputs0, c.inputs0 + c.inputs1)
      ensures compactPointer == old(compactPointer)[level := Some(largest)]
    {
      var inputs := [file];
      if level == 0 {
        inputs := OverlappingLevel0(file);
      } else {
        assert file in inputs;
      }
      c, smallest, largest := SetupOtherInputs(level, inputs);
      InputsArePick(current, maxFileSize, level, file, inputs, c);
      NoGapInPick(current, maxFileSize, level, file, c);
    }

    /** All level-0 files that must be compacted together with the file. */
    method OverlappingLevel0(file: File) returns (inputs: seq<File>)
      requires Valid() && file in current[0]
      ensures ClosedInputs(current, 0, inputs) && file in inputs
      ensures exists reach :: IsOverlapping(current[0], 0, UserRange(file.smallest, file.largest), reach, inputs)
    {
      var smallest, largest := GetRange([file]);
      assert file in [file];
      ghost var reach;
      inputs, reach := GetOverlappingInputs(current, 0, UserRange(smallest, largest));
      PickedFileStays(current, file, smallest, largest, reach);
    }

    /** Manual compaction of a range: a prefix of the overlapping files, but all of them at level 0. */
    method CompactRange(level: nat, begin: Option<UserKey>, end: Option<UserKey>)
      returns (pick: Option<Pick>, ghost smallest: InternalKey, ghost largest: InternalKey)
      requires Valid() && level + 1 < NUM_LEVELS
      modifies this`compactPointer
      ensures Valid()
      ensures pick.None? <==> forall f :: f in current[level] ==> !Meets(f, Range(begin, end))
      ensures pick.None? ==> compactPointer == old(compactPointer)
      ensures pick.Some? ==> IsSound(current, pick.value, smallest, largest)
      ensures pick.Some? ==> ManualPick(current, maxFileSize, level, Range(begin, end), pick.value)
      ensures pick.Some? ==> compactPointer == old(compactPointer)[level := Some(largest)]
    {
      smallest, largest := SeekKey(0.0, 0), SeekKey(0.0, 0);
      var all, reach := GetOverlappingInputs(current, level, Range(begin, end));
      NothingMissed(current[level], level, Range(begin, end), reach);
      if all == [] {
        return None, smallest, largest;
      }
      var inputs := all;
      if level > 0 {
        inputs := LimitInputs(all);
      }
      assert forall f :: f in inputs ==> f in all;
      var c;
      c, smallest, largest := SetupOtherInputs(level, inputs);
      pick := Some(c);
    }

    /** Cuts the list after the file that makes its total size reach the limit. */
    method LimitInputs(inputs: seq<File>) returns (limited: seq<File>)
      requires inputs != []
      ensures IsLimited(maxFileSize, inputs, limited)
    {
      var total := 0;
      for i := 0 to |inputs|
        invariant total == TotalFileSize(inputs[..i])
        invariant forall k :: 0 < k <= i ==> TotalFileSize(inputs[..k]) < maxFileSize
      {
        total := total + inputs[i].size;
        assert inputs[..i + 1][..i] == inputs[..i];
        if total >= maxFileSize {
          limited := inputs[..i + 1];
          assert forall k :: 0 <= k <= i ==> limited[..k] == inputs[..k];
          return;
        }
      }
      limited := inputs;
    }

    /** Adds the overlapping files of the next level, and more files of this level when that
        brings in no further file of the next. */
    method SetupOtherInputs(level: nat, inputs: seq<File>)
      returns (c: Pick, ghost low: InternalKey, ghost high: InternalKey)
      requires Valid() && ClosedInputs(current, level, inputs)
      modifies this`compactPointer
      ensures Valid()
      ensures IsSetup(current, maxFileSize, level, inputs, c) && IsSound(current, c, low, high)
      ensures forall f :: f in inputs ==> f in c.inputs0
      ensures compactPointer == old(compactPointer)[level := Some(high)]
    {
      var smallest, largest := GetRange(inputs);
      c, largest := WithOthers(level, inputs, smallest, largest);
      low, high := SetupIsSound(current, maxFileSize, level, inputs, c);
      ghost var first :| IsHull(c.inputs0, first, largest);
      HullEnds(c.inputs0, first, largest, low, high);
      compactPointer := compactPointer[level := Some(largest)];
    }

    method WithOthers(level: nat, inputs: seq<File>, smallest: InternalKey, largest: InternalKey)
      returns (c: Pick, last: InternalKey)
      requires Valid() && ClosedInputs(current, level, inputs) && IsHull(inputs, smallest, largest)
      ensures IsSetup(current, maxFileSize, level, inputs, c) && exists first :: IsHull(c.inputs0, first, last)
    {
      var inputs1 := NextFiles(level, smallest, largest, inputs);
      c := Pick(level, inputs, inputs1, []);
      last := largest;
      ghost var expanded, first := [], smallest;
      if inputs1 != [] {
        c, first, last, expanded := Expand(c, smallest, largest);
      }
      var grandparents := Grandparents(c);
      IsSetupFrom(current, maxFileSize, level, inputs, inputs1, expanded, c, grandparents);
      c := c.(grandparents := grandparents);
      assert IsHull(c.inputs0, first, last);
    }

    /** Grows the first inputs if their total size allows it and the second ones stay as they are. */
    method Expand(c: Pick, smallest: InternalKey, largest: InternalKey)
      returns (d: Pick, newSmallest: InternalKey, newLargest: InternalKey, ghost expanded0: seq<File>)
      requires Valid() && ClosedInputs(current, c.level, c.inputs0) && IsHull(c.inputs0, smallest, largest)
      ensures d.level == c.level && IsHull(d.inputs0, newSmallest, newLargest)
      ensures IsExpansion(current, c.level, c.inputs0, c.inputs1, expanded0)
      ensures IsChoice(current, maxFileSize, c.level, c.inputs0, c.inputs1, expanded0, d)
    {
      var expanded := Expansion(c);
      expanded0 := expanded;
      d, newSmallest, newLargest := Choose(c, smallest, largest, expanded);
    }

    /** The files of the level that overlap the whole range of the inputs. */
    method Expansion(c: Pick) returns (expanded: seq<File>)
      requires Valid() && c.level < NUM_LEVELS && c.inputs0 != []
      ensures IsExpansion(current, c.level, c.inputs0, c.inputs1, expanded)
    {
      var start, limit := GetRange(c.inputs0 + c.inputs1);
      ghost var reach;
      expanded, reach := GetOverlappingInputs(current, c.level, UserRange(start, limit));
    }

    method Choose(c: Pick, smallest: InternalKey, largest: InternalKey, expanded0: seq<File>)
      returns (d: Pick, newSmallest: InternalKey, newLargest: InternalKey)
      requires c.level + 1 < NUM_LEVELS && IsHull(c.inputs0, smallest, largest)
      ensures d.level == c.level && IsHull(d.inputs0, newSmallest, newLargest)
      ensures IsChoice(current, maxFileSize, c.level, c.inputs0, c.inputs1, expanded0, d)
    {
      d, newSmallest, newLargest := c, smallest, largest;
      if |expanded0| > |c.inputs0| && TotalFileSize(c.inputs1) + TotalFileSize(expanded0) < 25 * maxFileSize {
        var start, limit := GetRange(expanded0);
        var expanded1 := NextFiles(c.level, start, limit, expanded0);
        if |expanded1| == |c.inputs1| {
          d, newSmallest, newLargest := Pick(c.level, expanded0, expanded1, []), start, limit;
        }
      }
    }

    /** The files of the next level that the inputs overlap. */
    method NextFiles(level: nat, smallest: InternalKey, largest: InternalKey, ghost inputs: seq<File>)
      returns (next: seq<File>)
      requires level + 1 < NUM_LEVELS && IsHull(inputs, smallest, largest)
      ensures IsNextOf(current, level, inputs, next)
    {
      ghost var reach;
      next, reach := GetOverlappingInputs(current, level + 1, UserRange(smallest, largest));
    }

    method Grandparents(c: Pick) returns (grandparents: seq<File>)
      requires Valid() && c.level < NUM_LEVELS && c.inputs0 != []
      ensures IsGrandparents(current, c.(grandparents := grandparents))
    {
      grandparents := [];
      if c.level + 2 < NUM_LEVELS {
        var start, limit := GetRange(c.inputs0 + c.inputs1);
        ghost var reach;
        grandparents, reach := GetOverlappingInputs(current, c.level + 2, UserRange(start, limit));
      }
    }
  }

  lemma IsSetupFrom(v: Version, maxFileSize: nat, level: nat, inputs: seq<File>, next: seq<File>, expanded: seq<File>,
                    c: Pick,
                    grandparents: seq<File>)
    requires c.level == level && IsNextOf(v, level, inputs, next) && IsGrandparents(v, c.(grandparents := grandparents))
    requires next == [] ==> Takes(c, inputs, [])
    requires next != [] ==> IsExpansion(v, level, inputs, next, expanded)
                            && IsChoice(v, maxFileSize, level, inputs, next, expanded, c)
    ensures IsSetup(v, maxFileSize, level, inputs, c.(grandparents := grandparents))
  {
    var d := c.(grandparents := grandparents);
    if next != [] {
      SameChoice(v, maxFileSize, level, inputs, next, expanded, c, d);
    }
  }

  lemma SameChoice(v: Version, maxFileSize: nat, level: nat, inputs0: seq<File>, inputs1: seq<File>,
                   expanded: seq<File>, c: Pick, d: Pick)
    requires IsChoice(v, maxFileSize, level, inputs0, inputs1, expanded, c) && Takes(d, c.inputs0, c.inputs1)
    ensures IsChoice(v, maxFileSize, level, inputs0, inputs1, expanded, d)
  {
    if |expanded| > |inputs0| && TotalFileSize(inputs1) + TotalFileSize(expanded) < 25 * maxFileSize {
      var next :| IsNextOf(v, level, expanded, next)
        && if |next| == |inputs1| then Takes(c, expanded, next) else Takes(c, inputs0, inputs1);
      assert if |next| == |inputs1| then Takes(d, expanded, next) else Takes(d, inputs0, inputs1);
    }
  }

  lemma HullEnds(files: seq<File>, s: InternalKey, l: InternalKey, t: InternalKey, m: InternalKey)
    requires IsHull(files, s, l) && IsHull(files, t, m)
    ensures s == t && l == m
  {
    var f :| f in files && f.smallest == s;
    var g :| g in files && g.smallest == t;
    var h :| h in files && h.largest == l;
    var k :| k in files && k.largest == m;
  }

  lemma PickedFileStays(v: Version, file: File, smallest: InternalKey, largest: InternalKey, reach: Range)
    requires WellFormed(v) && file in v[0] && IsHull([file], smallest, largest)
    requires IsLeastClosed(v[0], UserRange(smallest, largest), reach)
    ensures file in FilesMeeting(v[0], reach)
  {
    assert file in [file] && ValidFile(file);
    EntryInRange(file, file.entries[0]);
  }

  /** The closure finds nothing only if nothing meets the request itself. */
  lemma NothingMissed(files: seq<File>, level: nat, request: Range, reach: Range)
    requires if level == 0 then IsLeastClosed(files, request, reach) else reach == request
    ensures FilesMeeting(files, reach) == [] <==> forall f :: f in files ==> !Meets(f, request)
  {
    var found := FilesMeeting(files, reach);
    assert found == [] || found[0] in found;
    if f :| f in files && Meets(f, request) {
      assert f in found;
    } else {
      assert level == 0 ==> Closed(files, request);
    }
  }

  lemma InputsStay(v: Version, level: nat, inputs0: seq<File>, inputs1: seq<File>, start: InternalKey,
                   limit: InternalKey, reach: Range)
    requires WellFormed(v) && ClosedInputs(v, level, inputs0) && IsHull(inputs0 + inputs1, start, limit)
    requires level == 0 ==> IsLeastClosed(v[0], UserRange(start, limit), reach)
    requires level > 0 ==> reach == UserRange(start, limit)
    ensures forall f :: f in inputs0 ==> f in FilesMeeting(v[level], reach)
  {
    forall f | f in inputs0 ensures Meets(f, reach) {
      assert f in inputs0 + inputs1 && ValidFile(f);
      EntryInRange(f, f.entries[0]);
    }
  }
}
