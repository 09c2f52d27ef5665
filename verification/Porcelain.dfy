/** The parser of `git status --porcelain=v1 -z` (git/status.rs, parse_porcelain_v1_z), against a printer of such
    records. "Porcelain Format Version 1" of the git-status documentation: two status letters, a space and a path, ended
    by NUL; a rename or copy has the other path as a second NUL-ended field. */
module Porcelain {
  import opened Options
  import opened Seqs
  import opened Lex
  import opened Utf8

  const NUL: Byte := 0
  const SPACE: Byte := 0x20

  datatype FileStatus = FileStatus(relativePath: string, indexStatus: char, workingTreeStatus: char, staged: bool,
                                   conflicted: bool)

  datatype Error = MalformedStatus | NotUtf8 | IncompleteRename

  datatype Result<+T> = Ok(value: T) | Err(error: Error)

  predicate IsRenameOrCopy(index: char, working: char) {
    index == 'R' || index == 'C' || working == 'R' || working == 'C'
  }

  /** The letters of an unmerged entry. */
  predicate IsConflict(index: char, working: char) {
    || (index == 'D' && working == 'D') || (index == 'A' && working == 'A') || (index == 'U' && working == 'U')
    || (index == 'A' && working == 'U') || (index == 'U' && working == 'D')
    || (index == 'U' && working == 'A') || (index == 'D' && working == 'U')
  }

  function StatusOf(path: string, index: char, working: char): FileStatus {
    FileStatus(path, index, working, index != ' ' && index != '?', IsConflict(index, working))
  }

  function AsChar(b: Byte): char {
    b as char
  }

  /** What the field at i, which is not empty, says: a status, and where the next record begins. */
  function Record(fields: seq<seq<Byte>>, i: nat): (r: Result<(FileStatus, nat)>)
    requires i < |fields| && fields[i] != []
    ensures r.Ok? ==> i < r.value.1 <= |fields|
  {
    var field := fields[i];
    if |field| < 4 || field[2] != SPACE then Err(MalformedStatus)
    else
      var index, working := AsChar(field[0]), AsChar(field[1]);
      match Decode(field[3..])
      case None => Err(NotUtf8)
      case Some(path) =>
        if !IsRenameOrCopy(index, working) then Ok((StatusOf(path, index, working), i + 1))
        else if i + 1 >= |fields| || fields[i + 1] == [] then Err(IncompleteRename)
        else Ok((StatusOf(path, index, working), i + 2))
  }

  /** All statuses from a field on, in the order of the records; the first error ends the parse. */
  ghost function Statuses(fields: seq<seq<Byte>>, i: nat): Result<seq<FileStatus>>
    requires i <= |fields|
    decreases |fields| - i
  {
    if i == |fields| then Ok([])
    else if fields[i] == [] then Statuses(fields, i + 1)
    else
      match Record(fields, i)
      case Err(e) => Err(e)
      case Ok((status, next)) =>
        Following([status], Statuses(fields, next))
  }

  // ---------- sorting ----------

  ghost predicate SortedByPath(files: seq<FileStatus>) {
    forall i, j :: 0 <= i < j < |files| ==> AtMost(files[i].relativePath, files[j].relativePath)
  }

  /** What `sort_unstable_by` promises: the same statuses, ordered by path; those with equal paths in any order. */
  ghost predicate IsSortOf(files: seq<FileStatus>, unsorted: seq<FileStatus>) {
    SortedByPath(files) && multiset(files) == multiset(unsorted)
  }

  lemma AtMostTransitive(a: string, b: string, c: string)
    requires AtMost(a, b) && AtMost(b, c)
    ensures AtMost(a, c)
  {
    if a != b && b != c { Transitive(a, b, c); }
  }

  /** Stands for the library's sort. */
  method SortByPath(files: seq<FileStatus>) returns (sorted: seq<FileStatus>)
    ensures IsSortOf(sorted, files)
  {
    sorted := [];
    for i := 0 to |files|
      invariant IsSortOf(sorted, files[..i])
    {
      sorted := Insert(sorted, files[i]);
      assert files[..i + 1] == files[..i] + [files[i]];
    }
    assert files[..|files|] == files;
  }

  method Insert(sorted: seq<FileStatus>, f: FileStatus) returns (more: seq<FileStatus>)
    requires SortedByPath(sorted)
    ensures SortedByPath(more) && multiset(more) == multiset(sorted) + multiset{f}
  {
    var at: nat := |sorted|;
    while at > 0 && Less(f.relativePath, sorted[at - 1].relativePath)
      invariant at <= |sorted|
      invariant forall k :: at <= k < |sorted| ==> Less(f.relativePath, sorted[k].relativePath)
    {
      at := at - 1;
    }
    more := sorted[..at] + [f] + sorted[at..];
    if at > 0 { Trichotomy(f.relativePath, sorted[at - 1].relativePath); }
    InsertedSorted(sorted, f, at);
    InsertedOnce(sorted, f, at);
  }

  lemma InsertedOnce<T>(q: seq<T>, x: T, at: nat)
    requires at <= |q|
    ensures multiset(q[..at] + [x] + q[at..]) == multiset(q) + multiset{x}
  {
    assert q == q[..at] + q[at..];
  }

  lemma InsertedSorted(sorted: seq<FileStatus>, f: FileStatus, at: nat)
    requires SortedByPath(sorted) && at <= |sorted|
    requires at > 0 ==> AtMost(sorted[at - 1].relativePath, f.relativePath)
    requires forall k :: at <= k < |sorted| ==> Less(f.relativePath, sorted[k].relativePath)
    ensures SortedByPath(sorted[..at] + [f] + sorted[at..])
  {
    var more := sorted[..at] + [f] + sorted[at..];
    forall k | 0 <= k < at ensures AtMost(sorted[k].relativePath, f.relativePath) {
      if k < at - 1 { AtMostTransitive(sorted[k].relativePath, sorted[at - 1].relativePath, f.relativePath); }
    }
    assert forall i :: 0 <= i < |more| ==>
      more[i] == if i < at then sorted[i] else if i == at then f else sorted[i - 1];
  }

  // ---------- the parser ----------

  /** A result with statuses found before it. */
  ghost function Following(files: seq<FileStatus>, r: Result<seq<FileStatus>>): Result<seq<FileStatus>> {
    match r
    case Err(e) => Err(e)
    case Ok(rest) => Ok(files + rest)
  }

  lemma FollowingNothing(r: Result<seq<FileStatus>>)
    ensures Following([], r) == r
  {
    if r.Ok? { assert [] + r.value == r.value; }
  }

  lemma FollowingOne(files: seq<FileStatus>, status: FileStatus, r: Result<seq<FileStatus>>)
    ensures Following(files, Following([status], r)) == Following(files + [status], r)
  {
    if r.Ok? { assert files + ([status] + r.value) == (files + [status]) + r.value; }
  }

  /** What the data lists before the place `at`, empty fields aside, are the fields of entries. */
  ghost predicate Lists(bytes: seq<Byte>, entries: seq<Entry>, at: nat) {
    && (forall k :: 0 <= k < |entries| ==> IsEntry(entries[k]))
    && at <= |Split(NUL, bytes)| && Filled(Split(NUL, bytes), 0, at) == AllFields(entries)
  }

  /** These statuses, in some order sorted by path, tell of the entries. */
  ghost predicate TellSorted(files: seq<FileStatus>, entries: seq<Entry>) {
    exists told :: TellAll(told, entries) && IsSortOf(files, told)
  }

  /** The statuses of all entries, or what is wrong with the first record that is none. */
  method ParsePorcelain(bytes: seq<Byte>)
    returns (r: Result<seq<FileStatus>>, ghost entries: seq<Entry>, ghost at: nat)
    ensures match Statuses(Split(NUL, bytes), 0)
      case Ok(statuses) => r.Ok? && IsSortOf(r.value, statuses)
      case Err(e) => r == Err(e)
    ensures Lists(bytes, entries, at)
    ensures match r
      case Ok(files) => at == |Split(NUL, bytes)| && TellSorted(files, entries)
      case Err(e) => at < |Split(NUL, bytes)| && Split(NUL, bytes)[at] != [] && IsFault(Split(NUL, bytes), at, e)
  {
    entries, at := WhatIsListed(bytes);
    r := ParseFields(bytes);
  }

  method ParseFields(bytes: seq<Byte>) returns (r: Result<seq<FileStatus>>)
    ensures match Statuses(Split(NUL, bytes), 0)
      case Ok(statuses) => r.Ok? && IsSortOf(r.value, statuses)
      case Err(e) => r == Err(e)
  {
    var fields := Split(NUL, bytes);
    var files: seq<FileStatus>, index := [], 0;
    FollowingNothing(Statuses(fields, 0));
    while index < |fields|
      invariant index <= |fields|
      invariant Statuses(fields, 0) == Following(files, Statuses(fields, index))
    {
      if fields[index] == [] {
        index := index + 1;
        continue;
      }
      var record := Record(fields, index);
      if record.Err? { return Err(record.error); }
      FollowingOne(files, record.value.0, Statuses(fields, record.value.1));
      files := files + [record.value.0];
      index := record.value.1;
    }
    var sorted := SortByPath(files);
    assert files + [] == files;
    r := Ok(sorted);
  }

  // ---------- printing ----------

  /** What git reports for one path. A rename or copy names a second path; nothing is asked of its encoding. */
  datatype Entry = Entry(index: char, working: char, path: string, origin: seq<Byte>)

  predicate IsLetter(c: char) {
    0 < c as int < 256
  }

  predicate IsEntry(e: Entry) {
    && IsLetter(e.index) && IsLetter(e.working)
    && e.path != "" && NUL !in Encode(e.path)
    && NUL !in e.origin && (e.origin != [] <==> IsRenameOrCopy(e.index, e.working))
  }

  function StatusField(e: Entry): seq<Byte>
    requires IsEntry(e)
  {
    [e.index as Byte, e.working as Byte, SPACE] + Encode(e.path)
  }

  function FieldsOf(e: Entry): (f: seq<seq<Byte>>)
    requires IsEntry(e)
    ensures f != [] && f[0] != []
  {
    [StatusField(e)] + if IsRenameOrCopy(e.index, e.working) then [e.origin] else []
  }

  function AllFields(entries: seq<Entry>): seq<seq<Byte>>
    requires forall i :: 0 <= i < |entries| ==> IsEntry(entries[i])
  {
    if entries == [] then [] else FieldsOf(entries[0]) + AllFields(entries[1..])
  }

  /** Fields with a NUL after each. */
  function Terminated(fields: seq<seq<Byte>>): seq<Byte> {
    if fields == [] then [] else fields[0] + [NUL] + Terminated(fields[1..])
  }

  function Printed(entries: seq<Entry>): seq<Byte>
    requires forall i :: 0 <= i < |entries| ==> IsEntry(entries[i])
  {
    Terminated(AllFields(entries))
  }

  function Reported(entries: seq<Entry>): seq<FileStatus> {
    if entries == [] then [] else [Report(entries[0])] + Reported(entries[1..])
  }

  function Report(e: Entry): FileStatus {
    StatusOf(e.path, e.index, e.working)
  }

  /** What a status has to say of an entry. */
  ghost predicate Tells(f: FileStatus, e: Entry) {
    && f.relativePath == e.path && f.indexStatus == e.index && f.workingTreeStatus == e.working
    && (f.staged <==> e.index != ' ' && e.index != '?')
    && (f.conflicted <==> [e.index, e.working] in ["DD", "AU", "UD", "UA", "DU", "AA", "UU"])
  }

  ghost predicate TellAll(files: seq<FileStatus>, entries: seq<Entry>) {
    |files| == |entries| && forall i :: 0 <= i < |entries| ==> Tells(files[i], entries[i])
  }

  lemma ReportTells(e: Entry)
    ensures Tells(Report(e), e)
  {
    var unmerged := ["DD", "AU", "UD", "UA", "DU", "AA", "UU"];
    var pair := [e.index, e.working];
    assert unmerged[0] == ['D', 'D'] && unmerged[1] == ['A', 'U'] && unmerged[2] == ['U', 'D']
        && unmerged[3] == ['U', 'A'] && unmerged[4] == ['D', 'U'] && unmerged[5] == ['A', 'A']
        && unmerged[6] == ['U', 'U'];
    assert forall i :: 0 <= i < 7 ==>
      (pair == unmerged[i] <==> e.index == unmerged[i][0] && e.working == unmerged[i][1]);
  }

  lemma {:induction false} ReportedTells(entries: seq<Entry>)
    ensures TellAll(Reported(entries), entries)
  {
    if entries != [] {
      ReportTells(entries[0]);
      ReportedTells(entries[1..]);
    }
  }

  // ---------- parsing inverts printing ----------

  lemma {:induction false} SplitTerminated(fields: seq<seq<Byte>>)
    requires forall i :: 0 <= i < |fields| ==> NUL !in fields[i]
    ensures Split(NUL, Terminated(fields)) == fields + [[]]
  {
    if fields != [] {
      SplitTerminated(fields[1..]);
      SplitFirst(NUL, fields[0], Terminated(fields[1..]));
      assert fields[0] + [NUL] + Terminated(fields[1..]) == fields[0] + ([NUL] + Terminated(fields[1..]));
    }
  }

  lemma {:induction false} FieldsHaveNoNul(entries: seq<Entry>)
    requires forall i :: 0 <= i < |entries| ==> IsEntry(entries[i])
    ensures forall i :: 0 <= i < |AllFields(entries)| ==> NUL !in AllFields(entries)[i]
  {
    if entries != [] { FieldsHaveNoNul(entries[1..]); }
  }

  /** The status field of an entry has its letters, and a path that decodes. */
  lemma StatusFieldReads(e: Entry)
    requires IsEntry(e)
    ensures var field := StatusField(e);
      && |field| >= 4 && AsChar(field[0]) == e.index && AsChar(field[1]) == e.working && field[2] == SPACE
      && Decode(field[3..]) == Some(e.path)
  {
    RoundTrip(e.path);
    assert StatusField(e)[3..] == Encode(e.path);
    assert Encode(e.path) == EncodeChar(e.path[0]) + Encode(e.path[1..]);
  }

  /** These fields stand from i on. */
  ghost predicate StandAt(own: seq<seq<Byte>>, fields: seq<seq<Byte>>, i: nat) {
    i + |own| <= |fields| && fields[i..i + |own|] == own
  }

  lemma FieldsStand(e: Entry, fields: seq<seq<Byte>>, i: nat)
    requires IsEntry(e) && StandAt(FieldsOf(e), fields, i)
    ensures fields[i] == StatusField(e) && fields[i] != []
    ensures IsRenameOrCopy(e.index, e.working) ==> i + 1 < |fields| && fields[i + 1] == e.origin
  {
    assert fields[i] == FieldsOf(e)[0];
    if IsRenameOrCopy(e.index, e.working) { assert fields[i + 1] == FieldsOf(e)[1]; }
  }

  /** The record of an entry reads back as that entry, wherever its fields stand. */
  lemma RecordOfEntry(e: Entry, fields: seq<seq<Byte>>, i: nat)
    requires IsEntry(e) && StandAt(FieldsOf(e), fields, i)
    ensures i + |FieldsOf(e)| <= |fields| && fields[i] != []
    ensures Record(fields, i) == Ok((Report(e), i + |FieldsOf(e)|))
  {
    FieldsStand(e, fields, i);
    StatusFieldReads(e);
  }

  lemma StatusesFrom(e: Entry, fields: seq<seq<Byte>>, i: nat) returns (next: nat)
    requires IsEntry(e) && StandAt(FieldsOf(e), fields, i)
    ensures next == i + |FieldsOf(e)| && Statuses(fields, i) == Following([Report(e)], Statuses(fields, next))
  {
    RecordOfEntry(e, fields, i);
    next := i + |FieldsOf(e)|;
  }

  /** From i on there are these fields and the empty one after the last NUL. */
  ghost predicate Ends(fields: seq<seq<Byte>>, i: nat, rest: seq<seq<Byte>>) {
    i <= |fields| && fields[i..] == rest + [[]]
  }

  lemma EndsApart(fields: seq<seq<Byte>>, i: nat, own: seq<seq<Byte>>, rest: seq<seq<Byte>>)
    requires Ends(fields, i, own + rest)
    ensures StandAt(own, fields, i) && Ends(fields, i + |own|, rest)
  {
    var left := fields[i..];
    assert left[..|own|] == own && left[|own|..] == rest + [[]];
    assert fields[i..i + |own|] == left[..|own|] && fields[i + |own|..] == left[|own|..];
  }

  lemma {:induction false} StatusesOfEntries(entries: seq<Entry>, fields: seq<seq<Byte>>, i: nat)
    requires forall k :: 0 <= k < |entries| ==> IsEntry(entries[k])
    requires Ends(fields, i, AllFields(entries))
    ensures Statuses(fields, i) == Ok(Reported(entries))
    decreases |entries|
  {
    if entries == [] {
      NothingLeft(fields, i);
    } else {
      var next := EntryFirst(entries[0], AllFields(entries[1..]), fields, i);
      StatusesOfEntries(entries[1..], fields, next);
    }
  }

  /** An entry is read, and what follows stands after it. */
  lemma EntryFirst(e: Entry, rest: seq<seq<Byte>>, fields: seq<seq<Byte>>, i: nat) returns (next: nat)
    requires IsEntry(e) && Ends(fields, i, FieldsOf(e) + rest)
    ensures Ends(fields, next, rest)
    ensures Statuses(fields, i) == Following([Report(e)], Statuses(fields, next))
  {
    EndsApart(fields, i, FieldsOf(e), rest);
    next := StatusesFrom(e, fields, i);
  }

  lemma NothingLeft(fields: seq<seq<Byte>>, i: nat)
    requires i <= |fields| && fields[i..] == [[]]
    ensures Statuses(fields, i) == Ok([])
  {
    assert |fields| == i + 1 && fields[i] == fields[i..][0];
    assert Statuses(fields, i + 1) == Ok([]);
  }

  lemma PrintedParses(entries: seq<Entry>)
    requires forall i :: 0 <= i < |entries| ==> IsEntry(entries[i])
    ensures Statuses(Split(NUL, Printed(entries)), 0) == Ok(Reported(entries))
  {
    FieldsHaveNoNul(entries);
    SplitTerminated(AllFields(entries));
    StatusesOfEntries(entries, AllFields(entries) + [[]], 0);
  }

  /** Any entries, printed and parsed, come back with their paths, their letters and the right flags. */
  lemma ParseInvertsPrint(entries: seq<Entry>)
    requires forall i :: 0 <= i < |entries| ==> IsEntry(entries[i])
    ensures Statuses(Split(NUL, Printed(entries)), 0).Ok?
    ensures TellAll(Statuses(Split(NUL, Printed(entries)), 0).value, entries)
  {
    PrintedParses(entries);
    ReportedTells(entries);
  }

  /** And sorted by path. */
  method ParsePrinted(entries: seq<Entry>) returns (files: seq<FileStatus>, ghost told: seq<FileStatus>)
    requires forall i :: 0 <= i < |entries| ==> IsEntry(entries[i])
    ensures TellAll(told, entries) && IsSortOf(files, told)
  {
    ParseInvertsPrint(entries);
    told := Statuses(Split(NUL, Printed(entries)), 0).value;
    var r := ParseFields(Printed(entries));
    files := r.value;
  }

  // ---------- nothing but printed entries parses ----------

  /** The fields from i on that are not empty, up to `end`. */
  ghost function Filled(fields: seq<seq<Byte>>, i: nat, end: nat): seq<seq<Byte>>
    requires i <= end <= |fields|
    decreases end - i
  {
    if i == end then [] else (if fields[i] == [] then [] else [fields[i]]) + Filled(fields, i + 1, end)
  }

  lemma {:induction false} PiecesHaveNoNul(bytes: seq<Byte>)
    ensures forall i :: 0 <= i < |Split(NUL, bytes)| ==> NUL !in Split(NUL, bytes)[i]
  {
    if bytes != [] { PiecesHaveNoNul(bytes[1..]); }
  }

  lemma HeadApart<T>(field: seq<T>)
    requires |field| >= 3
    ensures field == [field[0], field[1], field[2]] + field[3..]
  {
  }

  /** A field that decodes is the field of its path. */
  lemma FieldOfPath(field: seq<Byte>, origin: seq<Byte>) returns (e: Entry)
    requires |field| >= 4 && field[2] == SPACE && NUL !in field && NUL !in origin && Decode(field[3..]).Some?
    requires origin != [] <==> IsRenameOrCopy(AsChar(field[0]), AsChar(field[1]))
    ensures e == Entry(AsChar(field[0]), AsChar(field[1]), Decode(field[3..]).value, origin)
    ensures IsEntry(e) && StatusField(e) == field
  {
    var text := field[3..];
    e := Entry(AsChar(field[0]), AsChar(field[1]), Decode(text).value, origin);
    DecodedIsEncoded(text);
    assert NUL !in text;
    assert field[0] in field && field[1] in field;
    assert e.path != "" by { assert Encode("") == [] && text != []; }
    HeadApart(field);
  }

  lemma EntryOfRecord(fields: seq<seq<Byte>>, i: nat) returns (e: Entry)
    requires i < |fields| && fields[i] != [] && Record(fields, i).Ok?
    requires forall k :: 0 <= k < |fields| ==> NUL !in fields[k]
    ensures var (status, next) := Record(fields, i).value;
      && IsEntry(e) && status == Report(e) && next <= |fields|
      && forall end :: next <= end <= |fields| ==> Filled(fields, i, end) == FieldsOf(e) + Filled(fields, next, end)
  {
    var field := fields[i];
    var renames := IsRenameOrCopy(AsChar(field[0]), AsChar(field[1]));
    e := FieldOfPath(field, if renames then fields[i + 1] else []);
    var next := Record(fields, i).value.1;
    forall end | next <= end <= |fields| ensures Filled(fields, i, end) == FieldsOf(e) + Filled(fields, next, end) {
      if renames { FilledTwo(fields, i, end); } else { FilledOne(fields, i, end); }
    }
  }

  lemma FilledOne(fields: seq<seq<Byte>>, i: nat, end: nat)
    requires i < end <= |fields| && fields[i] != []
    ensures Filled(fields, i, end) == [fields[i]] + Filled(fields, i + 1, end)
  {
  }

  lemma FilledTwo(fields: seq<seq<Byte>>, i: nat, end: nat)
    requires i + 2 <= end <= |fields| && fields[i] != [] && fields[i + 1] != []
    ensures Filled(fields, i, end) == ([fields[i]] + [fields[i + 1]]) + Filled(fields, i + 2, end)
  {
    FilledOne(fields, i, end);
    FilledOne(fields, i + 1, end);
    Associative([fields[i]], [fields[i + 1]], Filled(fields, i + 2, end));
  }

  ghost predicate IsText(bytes: seq<Byte>) {
    exists path :: bytes == Encode(path)
  }

  /** What is wrong with the record at a field that is not empty; 0x52 and 0x43 are the letters R and C. */
  ghost predicate IsFault(fields: seq<seq<Byte>>, i: nat, e: Error)
    requires i < |fields|
  {
    var field := fields[i];
    var malformed := |field| < 4 || field[2] != 0x20;
    match e
    case MalformedStatus => malformed
    case NotUtf8 => !malformed && !IsText(field[3..])
    case IncompleteRename =>
      && !malformed && IsText(field[3..])
      && (field[0] == 0x52 || field[0] == 0x43 || field[1] == 0x52 || field[1] == 0x43)
      && (i + 1 == |fields| || fields[i + 1] == [])
  }

  lemma RecordFails(fields: seq<seq<Byte>>, i: nat, e: Error)
    requires i < |fields| && fields[i] != []
    ensures Record(fields, i) == Err(e) <==> IsFault(fields, i, e)
  {
    var field := fields[i];
    if |field| >= 4 && field[2] == SPACE {
      DecodesIfText(field[3..]);
      LetterIs(field[0]);
      LetterIs(field[1]);
    }
  }

  lemma LetterIs(b: Byte)
    ensures (AsChar(b) == 'R' <==> b == 0x52) && (AsChar(b) == 'C' <==> b == 0x43)
  {
  }

  /** Strict decoding fails on nothing that is the encoding of a text. */
  lemma DecodesIfText(bytes: seq<Byte>)
    ensures Decode(bytes).Some? <==> IsText(bytes)
  {
    DecodedIsEncoded(bytes);
    if path :| bytes == Encode(path) { RoundTrip(path); }
  }

  /** Where a parse gets to from a field on: to the end, or to the first fault. */
  ghost predicate GetsTo(fields: seq<seq<Byte>>, i: nat, end: nat)
    requires i <= |fields|
  {
    match Statuses(fields, i)
    case Ok(_) => end == |fields|
    case Err(e) => i <= end < |fields| && fields[end] != [] && IsFault(fields, end, e)
  }

  /** Whatever is parsed is, empty fields aside, the fields of some entries, up to the end or to the first fault; and
      the statuses are theirs. */
  lemma {:induction false} ParsedIsPrinted(fields: seq<seq<Byte>>, i: nat) returns (entries: seq<Entry>, end: nat)
    requires i <= |fields| && forall k :: 0 <= k < |fields| ==> NUL !in fields[k]
    ensures forall k :: 0 <= k < |entries| ==> IsEntry(entries[k])
    ensures i <= end <= |fields| && GetsTo(fields, i, end) && Filled(fields, i, end) == AllFields(entries)
    ensures Statuses(fields, i).Ok? ==> Statuses(fields, i).value == Reported(entries)
    decreases |fields| - i
  {
    entries, end := [], i;
    if i < |fields| {
      if fields[i] == [] {
        entries, end := ParsedIsPrinted(fields, i + 1);
      } else if Record(fields, i).Err? {
        RecordFails(fields, i, Record(fields, i).error);
      } else {
        var e := EntryOfRecord(fields, i);
        var rest;
        rest, end := ParsedIsPrinted(fields, Record(fields, i).value.1);
        entries := [e] + rest;
        assert entries[1..] == rest;
      }
    }
  }

  lemma WhatIsListed(bytes: seq<Byte>) returns (entries: seq<Entry>, at: nat)
    ensures Lists(bytes, entries, at) && GetsTo(Split(NUL, bytes), 0, at)
    ensures Statuses(Split(NUL, bytes), 0).Ok? ==>
      Statuses(Split(NUL, bytes), 0).value == Reported(entries) && TellAll(Reported(entries), entries)
  {
    PiecesHaveNoNul(bytes);
    entries, at := ParsedIsPrinted(Split(NUL, bytes), 0);
    ReportedTells(entries);
  }

  /** So status data is accepted exactly when it lists entries, with empty fields between them or not: the same data
      without those is printed from the entries, and gives the same statuses. */
  lemma OnlyEntriesParse(bytes: seq<Byte>) returns (entries: seq<Entry>)
    requires Statuses(Split(NUL, bytes), 0).Ok?
    ensures Lists(bytes, entries, |Split(NUL, bytes)|)
    ensures TellAll(Statuses(Split(NUL, bytes), 0).value, entries)
    ensures Statuses(Split(NUL, bytes), 0) == Statuses(Split(NUL, Printed(entries)), 0)
  {
    var at;
    entries, at := WhatIsListed(bytes);
    PrintedParses(entries);
  }
}
