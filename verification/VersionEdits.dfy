// Version edits and their manifest encoding (db/version_edit.cc, db/version_edit.h).

module VersionEdits {
  import opened DbFormat
  import opened Coding

  /** Internal keys are kept as the bytes they are stored as. */
  datatype FileMeta = FileMeta(number: nat, fileSize: nat, smallest: Bytes, largest: Bytes)

  datatype VersionEdit = VersionEdit(
    comparator: Option<Bytes>, logNumber: Option<nat>, prevLogNumber: Option<nat>,
    nextFileNumber: Option<nat>, lastSequence: Option<nat>,
    compactPointers: seq<(nat, Bytes)>, deletedFiles: seq<(nat, nat)>, newFiles: seq<(nat, FileMeta)>)

  const EMPTY_EDIT := VersionEdit(None, None, None, None, None, [], [], [])

  /** One tagged item of the encoding. */
  datatype Field =
    | Comparator(name: Bytes)
    | LogNumber(number: nat)
    | PrevLogNumber(number: nat)
    | NextFileNumber(number: nat)
    | LastSequence(number: nat)
    | CompactPointer(level: nat, key: Bytes)
    | DeletedFile(level: nat, number: nat)
    | NewFile(level: nat, file: FileMeta)

  datatype Status<+T> = Ok(value: T) | Corruption(msg: string)

  /** The order in which std::set<std::pair<int, uint64_t>> iterates. */
  predicate PairBefore(p: (nat, nat), q: (nat, nat)) {
    p.0 < q.0 || (p.0 == q.0 && p.1 < q.1)
  }

  ghost predicate IsPairSet(s: seq<(nat, nat)>) {
    forall i, j :: 0 <= i < j < |s| ==> PairBefore(s[i], s[j])
  }

  /** std::set::insert. */
  function InsertPair(s: seq<(nat, nat)>, p: (nat, nat)): (r: seq<(nat, nat)>)
    ensures forall q :: q in r <==> q in s || q == p
    ensures IsPairSet(s) ==> IsPairSet(r)
  {
    if s == [] then [p]
    else if s[0] == p then s
    else if PairBefore(p, s[0]) then [p] + s
    else
      var rest := InsertPair(s[1..], p);
      assert IsPairSet(s) ==> IsPairSet(s[1..]);
      assert IsPairSet(s) ==> forall q :: q in rest ==> PairBefore(s[0], q);
      [s[0]] + rest
  }

  /** The values the encoding has room for. */
  predicate InRangeField(f: Field) {
    match f
    case Comparator(name) => |name| < UINT32_LIMIT
    case LogNumber(n) => n < UINT64_LIMIT
    case PrevLogNumber(n) => n < UINT64_LIMIT
    case NextFileNumber(n) => n < UINT64_LIMIT
    case LastSequence(n) => n < UINT64_LIMIT
    case CompactPointer(level, key) => level < NUM_LEVELS && |key| < UINT32_LIMIT
    case DeletedFile(level, n) => level < NUM_LEVELS && n < UINT64_LIMIT
    case NewFile(level, file) =>
      && level < NUM_LEVELS && file.number < UINT64_LIMIT && file.fileSize < UINT64_LIMIT
      && |file.smallest| < UINT32_LIMIT && |file.largest| < UINT32_LIMIT
  }

  function Tag(f: Field): nat {
    match f
    case Comparator(_) => 1
    case LogNumber(_) => 2
    case NextFileNumber(_) => 3
    case LastSequence(_) => 4
    case CompactPointer(_, _) => 5
    case DeletedFile(_, _) => 6
    case NewFile(_, _) => 7
    case PrevLogNumber(_) => 9
  }

  function Payload(f: Field): Bytes {
    match f
    case Comparator(name) => PutLengthPrefixedSlice(name)
    case LogNumber(n) => PutVarint(n)
    case PrevLogNumber(n) => PutVarint(n)
    case NextFileNumber(n) => PutVarint(n)
    case LastSequence(n) => PutVarint(n)
    case CompactPointer(level, key) => PutVarint(level) + PutLengthPrefixedSlice(key)
    case DeletedFile(level, n) => PutVarint(level) + PutVarint(n)
    case NewFile(level, f) =>
      PutVarint(level) + (PutVarint(f.number) + (PutVarint(f.fileSize)
        + (PutLengthPrefixedSlice(f.smallest) + PutLengthPrefixedSlice(f.largest))))
  }

  function EncodeField(f: Field): Bytes {
    PutVarint(Tag(f)) + Payload(f)
  }

  function EncodeFields(fields: seq<Field>): Bytes {
    if fields == [] then [] else EncodeField(fields[0]) + EncodeFields(fields[1..])
  }

  function OptionalField(n: Option<nat>, make: nat -> Field): seq<Field> {
    if n.Some? then [make(n.value)] else []
  }

  function PointerFields(ps: seq<(nat, Bytes)>): seq<Field> {
    if ps == [] then [] else [CompactPointer(ps[0].0, ps[0].1)] + PointerFields(ps[1..])
  }

  function DeletionFields(ds: seq<(nat, nat)>): seq<Field> {
    if ds == [] then [] else [DeletedFile(ds[0].0, ds[0].1)] + DeletionFields(ds[1..])
  }

  function FileFields(fs: seq<(nat, FileMeta)>): seq<Field> {
    if fs == [] then [] else [NewFile(fs[0].0, fs[0].1)] + FileFields(fs[1..])
  }

  /** The scalar items of an edit. */
  function ScalarFields(e: VersionEdit): seq<Field> {
    (if e.comparator.Some? then [Comparator(e.comparator.value)] else [])
    + OptionalField(e.logNumber,
                    (n: nat) => LogNumber(n)) + OptionalField(e.prevLogNumber, (n: nat) => PrevLogNumber(n))
    + OptionalField(e.nextFileNumber,
                    (n: nat) => NextFileNumber(n)) + OptionalField(e.lastSequence, (n: nat) => LastSequence(n))
  }

  /** The items of an edit, in the order EncodeTo writes them. */
  function Fields(e: VersionEdit): seq<Field> {
    ScalarFields(e) + PointerFields(e.compactPointers) + DeletionFields(e.deletedFiles) + FileFields(e.newFiles)
  }

  function Encode(e: VersionEdit): Bytes {
    EncodeFields(Fields(e))
  }

  ghost predicate InRange(e: VersionEdit) {
    IsPairSet(e.deletedFiles) && forall f :: f in Fields(e) ==> InRangeField(f)
  }

  function ApplyField(e: VersionEdit, f: Field): VersionEdit {
    match f
    case Comparator(name) => e.(comparator := Some(name))
    case LogNumber(n) => e.(logNumber := Some(n))
    case PrevLogNumber(n) => e.(prevLogNumber := Some(n))
    case NextFileNumber(n) => e.(nextFileNumber := Some(n))
    case LastSequence(n) => e.(lastSequence := Some(n))
    case CompactPointer(level, key) => e.(compactPointers := e.compactPointers + [(level, key)])
    case DeletedFile(level, n) => e.(deletedFiles := InsertPair(e.deletedFiles, (level, n)))
    case NewFile(level, file) => e.(newFiles := e.newFiles + [(level, file)])
  }

  /** Every level an edit names exists. */
  ghost predicate LevelsExist(e: VersionEdit) {
    && (forall p :: p in e.compactPointers ==> p.0 < NUM_LEVELS)
    && (forall d :: d in e.deletedFiles ==> d.0 < NUM_LEVELS)
    && (forall f :: f in e.newFiles ==> f.0 < NUM_LEVELS)
  }

  function GetLevel(input: Bytes): (r: Option<(nat, Bytes)>)
    ensures r.Some? ==> |r.value.1| < |input| && r.value.0 < NUM_LEVELS
  {
    match GetVarint32(input)
    case None => None
    case Some(p) => if p.0 < NUM_LEVELS then Some(p) else None
  }

  function Fail(msg: string): Status<(Field, Bytes)> {
    Corruption(msg)
  }

  /** The payload of an item with the given tag, and what follows it. */
  function DecodeField(tag: nat, input: Bytes): (r: Status<(Field, Bytes)>)
    ensures r.Ok? ==> |r.value.1| <= |input|
  {
    if tag == 1 then
      match GetLengthPrefixedSlice(input)
      case Some(p) => Ok((Comparator(p.0), p.1))
      case None => Fail("comparator name")
    else if tag == 2 then
      match GetVarint64(input)
      case Some(p) => Ok((LogNumber(p.0), p.1))
      case None => Fail("log number")
    else if tag == 9 then
      match GetVarint64(input)
      case Some(p) => Ok((PrevLogNumber(p.0), p.1))
      case None => Fail("previous log number")
    else if tag == 3 then
      match GetVarint64(input)
      case Some(p) => Ok((NextFileNumber(p.0), p.1))
      case None => Fail("next file number")
    else if tag == 4 then
      match GetVarint64(input)
      case Some(p) => Ok((LastSequence(p.0), p.1))
      case None => Fail("last sequence number")
    else if tag == 5 then DecodeCompactPointer(input)
    else if tag == 6 then DecodeDeletedFile(input)
    else if tag == 7 then DecodeNewFile(input)
    else Fail("unknown tag")
  }

  function DecodeCompactPointer(input: Bytes): (r: Status<(Field, Bytes)>)
    ensures r.Ok? ==> |r.value.1| <= |input| && r.value.0.CompactPointer? && r.value.0.level < NUM_LEVELS
  {
    match GetLevel(input)
    case None => Fail("compaction pointer")
    case Some(l) =>
      match GetLengthPrefixedSlice(l.1)
      case None => Fail("compaction pointer")
      case Some(k) => Ok((CompactPointer(l.0, k.0), k.1))
  }

  function DecodeDeletedFile(input: Bytes): (r: Status<(Field, Bytes)>)
    ensures r.Ok? ==> |r.value.1| <= |input| && r.value.0.DeletedFile? && r.value.0.level < NUM_LEVELS
  {
    match GetLevel(input)
    case None => Fail("deleted file")
    case Some(l) =>
      match GetVarint64(l.1)
      case None => Fail("deleted file")
      case Some(n) => Ok((DeletedFile(l.0, n.0), n.1))
  }

  function DecodeNewFile(input: Bytes): (r: Status<(Field, Bytes)>)
    ensures r.Ok? ==> |r.value.1| <= |input| && r.value.0.NewFile? && r.value.0.level < NUM_LEVELS
  {
    match GetLevel(input)
    case None => Fail("new-file entry")
    case Some(l) =>
      match GetVarint64(l.1)
      case None => Fail("new-file entry")
      case Some(n) =>
        match GetVarint64(n.1)
        case None => Fail("new-file entry")
        case Some(s) =>
          match GetLengthPrefixedSlice(s.1)
          case None => Fail("new-file entry")
          case Some(a) =>
            match GetLengthPrefixedSlice(a.1)
            case None => Fail("new-file entry")
            case Some(b) => Ok((NewFile(l.0, FileMeta(n.0, s.0, a.0, b.0)), b.1))
  }

  /** What decoding the rest of the input makes of the edit so far. */
  function DecodeRest(input: Bytes, e: VersionEdit): Status<VersionEdit>
    decreases |input|
  {
    match GetVarint32(input)
    case None => if input == [] then Ok(e) else Corruption("invalid tag")
    case Some(t) =>
      match DecodeField(t.0, t.1)
      case Corruption(msg) => Corruption(msg)
      case Ok(f) => DecodeRest(f.1, ApplyField(e, f.0))
  }

  /** Clear() forgets everything but the compaction pointers. */
  function Clear(e: VersionEdit): VersionEdit {
    EMPTY_EDIT.(compactPointers := e.compactPointers)
  }

  lemma DecodedLevelExists(tag: nat, input: Bytes, e: VersionEdit)
    requires LevelsExist(e) && DecodeField(tag, input).Ok?
    ensures LevelsExist(ApplyField(e, DecodeField(tag, input).value.0))
  {
  }

  lemma EncodeStep(dst: Bytes, fields: seq<Field>, i: nat)
    requires i < |fields|
    ensures dst + EncodeFields(fields[i..]) == (dst + EncodeField(fields[i])) + EncodeFields(fields[i + 1..])
  {
    assert fields[i..][1..] == fields[i + 1..];
    var front, back := EncodeField(fields[i]), EncodeFields(fields[i + 1..]);
    assert dst + (front + back) == (dst + front) + back;
  }

  /** EncodeTo: the present numbers, then the pointers, the deletions and the new files. */
  method EncodeTo(e: VersionEdit) returns (dst: Bytes)
    ensures dst == Encode(e)
  {
    dst := [];
    var fields := Fields(e);
    for i := 0 to |fields|
      invariant dst + EncodeFields(fields[i..]) == EncodeFields(fields)
    {
      EncodeStep(dst, fields, i);
      dst := dst + EncodeField(fields[i]);
    }
  }

  /** DecodeFrom: reads items until the input ends or one of them is malformed. */
  method DecodeFrom(previous: VersionEdit, src: Bytes) returns (r: Status<VersionEdit>)
    ensures r == DecodeRest(src, Clear(previous))
    ensures r.Ok? && LevelsExist(previous) ==> LevelsExist(r.value)
  {
    var e := Clear(previous);
    var input := src;
    while true
      invariant DecodeRest(input, e) == DecodeRest(src, Clear(previous))
      invariant LevelsExist(previous) ==> LevelsExist(e)
      decreases |input|
    {
      var tag := GetVarint32(input);
      if tag.None? {
        return if input == [] then Ok(e) else Corruption("invalid tag");
      }
      var field := DecodeField(tag.value.0, tag.value.1);
      if field.Corruption? {
        return Corruption(field.msg);
      }
      if LevelsExist(e) {
        DecodedLevelExists(tag.value.0, tag.value.1, e);
      }
      e := ApplyField(e, field.value.0);
      input := field.value.1;
    }
  }

  lemma NewFileRoundTrip(level: nat, f: FileMeta, rest: Bytes)
    requires InRangeField(NewFile(level, f))
    ensures DecodeNewFile(Payload(NewFile(level, f)) + rest) == Ok((NewFile(level, f), rest))
  {
    var d := PutLengthPrefixedSlice(f.largest) + rest;
    var c := PutLengthPrefixedSlice(f.smallest) + d;
    var b := PutVarint(f.fileSize) + c;
    var a := PutVarint(f.number) + b;
    assert Payload(NewFile(level, f)) + rest == PutVarint(level) + a;
    VarintRoundTrip(level, a);
    VarintRoundTrip(f.number, b);
    VarintRoundTrip(f.fileSize, c);
    SliceRoundTrip(f.smallest, d);
    SliceRoundTrip(f.largest, rest);
  }

  lemma CompactPointerRoundTrip(level: nat, key: Bytes, rest: Bytes)
    requires InRangeField(CompactPointer(level, key))
    ensures DecodeCompactPointer(Payload(CompactPointer(level, key)) + rest) == Ok((CompactPointer(level, key), rest))
  {
    var a := PutLengthPrefixedSlice(key) + rest;
    assert Payload(CompactPointer(level, key)) + rest == PutVarint(level) + a;
    VarintRoundTrip(level, a);
    SliceRoundTrip(key, rest);
  }

  lemma DeletedFileRoundTrip(level: nat, n: nat, rest: Bytes)
    requires InRangeField(DeletedFile(level, n))
    ensures DecodeDeletedFile(Payload(DeletedFile(level, n)) + rest) == Ok((DeletedFile(level, n), rest))
  {
    var a := PutVarint(n) + rest;
    assert Payload(DeletedFile(level, n)) + rest == PutVarint(level) + a;
    VarintRoundTrip(level, a);
    VarintRoundTrip(n, rest);
  }

  lemma PayloadRoundTrip(f: Field, rest: Bytes)
    requires InRangeField(f)
    ensures DecodeField(Tag(f), Payload(f) + rest) == Ok((f, rest))
  {
    match f {
      case Comparator(name) =>
        SliceRoundTrip(name, rest);
        assert DecodeField(Tag(f), Payload(f) + rest) == Ok((f, rest));
      case LogNumber(n) =>
        VarintRoundTrip(n, rest);
        assert DecodeField(Tag(f), Payload(f) + rest) == Ok((f, rest));
      case PrevLogNumber(n) =>
        VarintRoundTrip(n, rest);
        assert DecodeField(Tag(f), Payload(f) + rest) == Ok((f, rest));
      case NextFileNumber(n) =>
        VarintRoundTrip(n, rest);
        assert DecodeField(Tag(f), Payload(f) + rest) == Ok((f, rest));
      case LastSequence(n) =>
        VarintRoundTrip(n, rest);
        assert DecodeField(Tag(f), Payload(f) + rest) == Ok((f, rest));
      case CompactPointer(level, key) =>
        CompactPointerRoundTrip(level, key, rest);
        assert DecodeField(Tag(f), Payload(f) + rest) == Ok((f, rest));
      case DeletedFile(level, n) =>
        DeletedFileRoundTrip(level, n, rest);
        assert DecodeField(Tag(f), Payload(f) + rest) == Ok((f, rest));
      case NewFile(level, file) =>
        NewFileRoundTrip(level, file, rest);
        assert DecodeField(Tag(f), Payload(f) + rest) == Ok((f, rest));
    }
  }

  function ApplyFields(e: VersionEdit, fields: seq<Field>): VersionEdit
    decreases fields
  {
    if fields == [] then e else ApplyFields(ApplyField(e, fields[0]), fields[1..])
  }

  lemma {:induction false} FieldsRoundTrip(fields: seq<Field>, e: VersionEdit)
    requires forall f :: f in fields ==> InRangeField(f)
    ensures DecodeRest(EncodeFields(fields), e) == Ok(ApplyFields(e, fields))
    decreases fields
  {
    if fields != [] {
      var f, rest := fields[0], EncodeFields(fields[1..]);
      assert EncodeFields(fields) == PutVarint(Tag(f)) + (Payload(f) + rest);
      VarintRoundTrip(Tag(f), Payload(f) + rest);
      PayloadRoundTrip(f, rest);
      FieldsRoundTrip(fields[1..], ApplyField(e, f));
    }
  }

  lemma {:induction false} ApplyConcat(e: VersionEdit, a: seq<Field>, b: seq<Field>)
    ensures ApplyFields(e, a + b) == ApplyFields(ApplyFields(e, a), b)
    decreases a
  {
    if a == [] {
      assert a + b == b;
    } else {
      assert (a + b)[1..] == a[1..] + b;
      ApplyConcat(ApplyField(e, a[0]), a[1..], b);
    }
  }

  lemma {:induction false} PointersApply(e: VersionEdit, ps: seq<(nat, Bytes)>)
    ensures ApplyFields(e, PointerFields(ps)) == e.(compactPointers := e.compactPointers + ps)
    decreases ps
  {
    if ps == [] {
      assert e.compactPointers + ps == e.compactPointers;
    } else {
      var e' := e.(compactPointers := e.compactPointers + [ps[0]]);
      PointersApply(e', ps[1..]);
      assert e.compactPointers + ps == e'.compactPointers + ps[1..];
    }
  }

  lemma {:induction false} InsertLast(s: seq<(nat, nat)>, p: (nat, nat))
    requires IsPairSet(s + [p])
    ensures InsertPair(s, p) == s + [p]
  {
    if s != [] {
      assert (s + [p])[0] == s[0] && (s + [p])[|s|] == p;
      assert (s + [p])[1..] == s[1..] + [p];
      InsertLast(s[1..], p);
    }
  }

  lemma {:induction false} DeletionsApply(e: VersionEdit, ds: seq<(nat, nat)>)
    requires IsPairSet(e.deletedFiles + ds)
    ensures ApplyFields(e, DeletionFields(ds)) == e.(deletedFiles := e.deletedFiles + ds)
    decreases ds
  {
    if ds == [] {
      assert e.deletedFiles + ds == e.deletedFiles;
    } else {
      var e' := e.(deletedFiles := e.deletedFiles + [ds[0]]);
      assert e.deletedFiles + ds == e'.deletedFiles + ds[1..];
      assert forall i :: 0 <= i < |e'.deletedFiles| ==> e'.deletedFiles[i] == (e.deletedFiles + ds)[i];
      InsertLast(e.deletedFiles, ds[0]);
      DeletionsApply(e', ds[1..]);
    }
  }

  lemma {:induction false} NewFilesApply(e: VersionEdit, fs: seq<(nat, FileMeta)>)
    ensures ApplyFields(e, FileFields(fs)) == e.(newFiles := e.newFiles + fs)
    decreases fs
  {
    if fs == [] {
      assert e.newFiles + fs == e.newFiles;
    } else {
      var e' := e.(newFiles := e.newFiles + [fs[0]]);
      NewFilesApply(e', fs[1..]);
      assert e.newFiles + fs == e'.newFiles + fs[1..];
    }
  }

  lemma ScalarsApply(e: VersionEdit, previous: VersionEdit)
    ensures ApplyFields(Clear(previous), ScalarFields(e))
      == e.(compactPointers := previous.compactPointers, deletedFiles := [], newFiles := [])
  {
    var e0 := Clear(previous);
    var c := if e.comparator.Some? then [Comparator(e.comparator.value)] else [];
    var l := OptionalField(e.logNumber, (n: nat) => LogNumber(n));
    var p := OptionalField(e.prevLogNumber, (n: nat) => PrevLogNumber(n));
    var n := OptionalField(e.nextFileNumber, (n: nat) => NextFileNumber(n));
    var s := OptionalField(e.lastSequence, (n: nat) => LastSequence(n));
    ApplyConcat(e0, c + l + p + n, s);
    ApplyConcat(e0, c + l + p, n);
    ApplyConcat(e0, c + l, p);
    ApplyConcat(e0, c, l);
    var e1 := e0.(comparator := e.comparator);
    assert ApplyFields(e0, c) == e1;
    var e2 := e1.(logNumber := e.logNumber);
    assert ApplyFields(e1, l) == e2;
    var e3 := e2.(prevLogNumber := e.prevLogNumber);
    assert ApplyFields(e2, p) == e3;
    var e4 := e3.(nextFileNumber := e.nextFileNumber);
    assert ApplyFields(e3, n) == e4;
    assert ApplyFields(e4, s) == e4.(lastSequence := e.lastSequence);
  }

  /** Decoding what EncodeTo wrote into an edit that has been in use: its compaction pointers stay, in
      front of the ones decoded. */
  lemma DecodedInto(e: VersionEdit, previous: VersionEdit)
    requires InRange(e)
    ensures DecodeRest(Encode(e), Clear(previous))
      == Ok(e.(compactPointers := previous.compactPointers + e.compactPointers))
  {
    var e0, pointers := Clear(previous), previous.compactPointers;
    var ps, ds, fs := PointerFields(e.compactPointers), DeletionFields(e.deletedFiles), FileFields(e.newFiles);
    var scalars := ScalarFields(e);
    assert Fields(e) == scalars + ps + ds + fs;
    FieldsRoundTrip(Fields(e), e0);
    ApplyConcat(e0, scalars + ps + ds, fs);
    ApplyConcat(e0, scalars + ps, ds);
    ApplyConcat(e0, scalars, ps);
    ScalarsApply(e, previous);
    PointersApply(e.(compactPointers := pointers, deletedFiles := [], newFiles := []), e.compactPointers);
    var e1 := e.(compactPointers := pointers + e.compactPointers);
    assert [] + e.deletedFiles == e.deletedFiles;
    DeletionsApply(e1.(deletedFiles := [], newFiles := []), e.deletedFiles);
    NewFilesApply(e1.(newFiles := []), e.newFiles);
    assert [] + e.newFiles == e.newFiles;
  }

  /** Decoding gives an edit back, exactly if the one decoded into has no compaction pointers. */
  lemma EditRoundTrip(e: VersionEdit, previous: VersionEdit)
    requires InRange(e)
    ensures DecodeRest(Encode(e), Clear(previous)) == Ok(e) <==> previous.compactPointers == []
  {
    DecodedInto(e, previous);
    assert [] + e.compactPointers == e.compactPointers;
    assert |previous.compactPointers + e.compactPointers| == |previous.compactPointers| + |e.compactPointers|;
  }

  /** An edit with a pointer, decoded into again: the pointer is still there. */
  lemma OldPointerStays()
    ensures var e, previous := EMPTY_EDIT.(logNumber := Some(9)), EMPTY_EDIT.(compactPointers := [(0, [7])]);
      InRange(e) && DecodeRest(Encode(e), Clear(previous)) == Ok(e.(compactPointers := [(0, [7])]))
  {
    var e, previous := EMPTY_EDIT.(logNumber := Some(9)), EMPTY_EDIT.(compactPointers := [(0, [7])]);
    assert Fields(e) == [LogNumber(9)];
    DecodedInto(e, previous);
    assert [(0, [7])] + [] == [(0, [7])];
  }
}
