// Choosing what to compact and where to flush (db/version_set.cc).

/** Version::GetOverlappingInputs and its closure of level-0 ranges. */
module OverlappingInputs {
  import opened DbFormat
  import opened Versions

  /** A range of user keys; a missing bound is a NULL key, before or after all keys. */
  datatype Range = Range(low: Option<UserKey>, high: Option<UserKey>)

  predicate SticksOutLow(f: File, r: Range) {
    r.low.Some? && f.smallest.user < r.low.value
  }

  predicate SticksOutHigh(f: File, r: Range) {
    r.high.Some? && f.largest.user > r.high.value
  }

  /** The file's user-key range meets r. */
  predicate Meets(f: File, r: Range) {
    !(r.low.Some? && f.largest.user < r.low.value) && !(r.high.Some? && f.smallest.user > r.high.value)
  }

  /** The files, in order, that meet r. */
  function FilesMeeting(files: seq<File>, r: Range): (s: seq<File>)
    ensures forall f :: f in s <==> f in files && Meets(f, r)
  {
    if files == [] then []
    else
      var n := |files| - 1;
      FilesMeeting(files[..n], r) + if Meets(files[n], r) then [files[n]] else []
  }

  ghost predicate Within(r: Range, s: Range) {
    && (r.low.None? <==> s.low.None?) && (r.low.Some? ==> s.low.value <= r.low.value)
    && (r.high.None? <==> s.high.None?) && (r.high.Some? ==> r.high.value <= s.high.value)
  }

  /** No file that meets r sticks out of it. */
  ghost predicate Closed(files: seq<File>, r: Range) {
    forall f :: f in files && Meets(f, r) ==> !SticksOutLow(f, r) && !SticksOutHigh(f, r)
  }

  ghost predicate IsLeastClosed(files: seq<File>, request: Range, r: Range) {
    && Within(request, r) && Closed(files, r)
    && forall s :: Within(request, s) && Closed(files, s) ==> Within(r, s)
  }

  /** What GetOverlappingInputs finds: at level 0 the files meeting the least closed range around the
      request, below the files meeting the request. */
  ghost predicate IsOverlapping(files: seq<File>, level: nat, request: Range, reach: Range, inputs: seq<File>) {
    inputs == FilesMeeting(files, reach) && if level == 0
      then IsLeastClosed(files, request, reach) else reach == request
  }

  predicate Contains(r: Range, user: UserKey) {
    (r.low.Some? ==> r.low.value <= user) && (r.high.Some? ==> user <= r.high.value)
  }

  ghost predicate Covered(files: seq<File>, user: UserKey) {
    exists f :: f in files && f.smallest.user <= user <= f.largest.user
  }

  /** Of several user keys below one, the largest. */
  lemma {:induction false} LastBelow(files: seq<File>, user: UserKey, start: UserKey) returns (last: UserKey)
    requires start < user
    ensures start <= last < user && forall f :: f in files && f.largest.user < user ==> f.largest.user <= last
  {
    last := start;
    if files != [] {
      var n := |files| - 1;
      last := LastBelow(files[..n], user, start);
      var end := files[n].largest.user;
      if last < end < user {
        last := end;
      }
      assert files == files[..n] + [files[n]];
    }
  }

  lemma {:induction false} FirstAbove(files: seq<File>, user: UserKey, start: UserKey) returns (first: UserKey)
    requires user < start
    ensures user < first <= start && forall f :: f in files && user < f.smallest.user ==> first <= f.smallest.user
  {
    first := start;
    if files != [] {
      var n := |files| - 1;
      first := FirstAbove(files[..n], user, start);
      var end := files[n].smallest.user;
      if user < end < first {
        first := end;
      }
      assert files == files[..n] + [files[n]];
    }
  }

  /** The least closed range holds nothing beyond the request that its files do not cover. */
  lemma ClosureIsCovered(files: seq<File>, request: Range, reach: Range, user: UserKey)
    requires IsLeastClosed(files, request, reach) && Contains(reach, user) && !Contains(request, user)
    requires request.low.Some? && request.high.Some? && request.low.value <= request.high.value
    requires forall f :: f in files ==> f.smallest.user <= f.largest.user
    ensures Covered(FilesMeeting(files, reach), user)
  {
    if !Covered(FilesMeeting(files, reach), user) {
      if request.high.value < user {
        var last := LastBelow(files, user, request.high.value);
        var shorter := reach.(high := Some(last));
        assert Within(request, shorter) && !Within(reach, shorter);
        forall f | f in files && Meets(f, shorter) ensures !SticksOutLow(f, shorter) && !SticksOutHigh(f, shorter) {
          assert f in FilesMeeting(files, reach);
        }
      } else {
        var first := FirstAbove(files, user, request.low.value);
        var shorter := reach.(low := Some(first));
        assert Within(request, shorter) && !Within(reach, shorter);
        forall f | f in files && Meets(f, shorter) ensures !SticksOutLow(f, shorter) && !SticksOutHigh(f, shorter) {
          assert f in FilesMeeting(files, reach);
        }
      }
    }
  }

  /** A wider range meets no fewer files, and if it meets no more, the same. */
  lemma {:induction false} MeetingGrows(files: seq<File>, r: Range, s: Range)
    requires Within(r, s)
    ensures |FilesMeeting(files, r)| <= |FilesMeeting(files, s)|
    ensures |FilesMeeting(files, r)| == |FilesMeeting(files, s)| ==> FilesMeeting(files, r) == FilesMeeting(files, s)
  {
    if files != [] {
      MeetingGrows(files[..|files| - 1], r, s);
    }
  }

  ghost function OutLow(files: seq<File>, r: Range): set<File> {
    set f | f in files && SticksOutLow(f, r)
  }

  ghost function OutHigh(files: seq<File>, r: Range): set<File> {
    set f | f in files && SticksOutHigh(f, r)
  }

  /** What must lie within every closed range around the request. */
  ghost predicate Forced(files: seq<File>, request: Range, r: Range) {
    Within(request, r) && forall s :: Within(request, s) && Closed(files, s) ==> Within(r, s)
  }

  /** A restart of the scan leaves fewer files sticking out at the low end. */
  lemma WidenLow(files: seq<File>, r: Range, f: File)
    requires f in files && Meets(f, r) && SticksOutLow(f, r)
    ensures OutLow(files, r.(low := Some(f.smallest.user))) < OutLow(files, r)
    ensures forall request :: Forced(files, request, r) ==> Forced(files, request, r.(low := Some(f.smallest.user)))
  {
    assert f in OutLow(files, r) && f !in OutLow(files, r.(low := Some(f.smallest.user)));
  }

  /** A restart at the high end leaves the low end as it was and fewer files sticking out at the high end. */
  lemma WidenHigh(files: seq<File>, r: Range, f: File)
    requires f in files && Meets(f, r) && SticksOutHigh(f, r)
    ensures OutLow(files, r.(high := Some(f.largest.user))) == OutLow(files, r)
    ensures OutHigh(files, r.(high := Some(f.largest.user))) < OutHigh(files, r)
    ensures forall request :: Forced(files, request, r) ==> Forced(files, request, r.(high := Some(f.largest.user)))
  {
    assert f in OutHigh(files, r) && f !in OutHigh(files, r.(high := Some(f.largest.user)));
  }

  /** At levels >= 1 the files meeting the request; at level 0, where each file may enlarge the
      range and restart the scan, the files meeting the least closed range around it. */
  method GetOverlappingInputs(v: Version, level: nat, request: Range) returns (inputs: seq<File>, ghost reach: Range)
    requires level < NUM_LEVELS
    ensures IsOverlapping(v[level], level, request, reach, inputs)
    ensures exists r :: IsOverlapping(v[level], level, request, r, inputs)
  {
    var files := v[level];
    var r := request;
    var i := 0;
    inputs := [];
    while i < |files|
      invariant i <= |files| && inputs == FilesMeeting(files[..i], r)
      invariant level > 0 ==> r == request
      invariant Forced(files, request, r)
      invariant level == 0 ==> Closed(files[..i], r)
      decreases OutLow(files, r), OutHigh(files, r), |files| - i
    {
      var f := files[i];
      i := i + 1;
      assert files[..i][..i - 1] == files[..i - 1];
      if r.low.Some? && f.largest.user < r.low.value {
        // before the range
      } else if r.high.Some? && f.smallest.user > r.high.value {
        // after the range
      } else {
        inputs := inputs + [f];
        if level == 0 {
          if SticksOutLow(f, r) {
            WidenLow(files, r, f);
            r := r.(low := Some(f.smallest.user));
            inputs := [];
            i := 0;
          } else if SticksOutHigh(f, r) {
            WidenHigh(files, r, f);
            r := r.(high := Some(f.largest.user));
            inputs := [];
            i := 0;
          }
        }
      }
    }
    assert files[..i] == files;
    reach := r;
    assert IsOverlapping(files, level, request, r, inputs);
  }
}
