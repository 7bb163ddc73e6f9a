/** The ignore list: the newest records in memory, every new one appended to a file, and the file rewritten
    once half of its lines are stale. */
module IgnoreStores {
  import opened Events
  import opened IgnoreFields
  import opened RecordFile
  import opened RecordStores

  ghost predicate AllRecords(list: seq<string>) {
    forall k | 0 <= k < |list| :: RecordOk(list[k])
  }

  /** A file and a list that agree: reading the file back gives exactly the list, its last line is ended, and its
      lines were counted right. */
  ghost predicate Mirrors(list: seq<string>, size: nat, file: string, fileLines: nat) {
    && StoredAll([], size, Records(file)) == list
    && AllRecords(list)
    && Complete(file) && fileLines == LineCount(file)
  }

  /** Only a file that nothing was written to may end in an open line, and its lines were counted. */
  predicate CountedIfOpen(file: string, fileLines: nat) {
    Complete(file) || fileLines == LineCount(file)
  }

  predicate OneLine(r: string) {
    forall k | 0 <= k < |r| :: r[k] != '\n'
  }

  class IgnoreStore {
    const records: RecordStore
    var file: string
    var fileLines: nat
    ghost var appended: nat
    ghost var rewritten: nat

    /** The two stores agree, the file is less than twice as long as the list may be, and compaction has
        not rewritten more lines than were appended, plus one list. */
    ghost predicate Valid()
      reads this, records
    {
      && records.Valid()
      && fileLines < 2 * records.size
      && rewritten <= appended + records.size
      && rewritten + fileLines <= appended + 2 * records.size
      && CountedIfOpen(file, fileLines)
    }

    /** Reading the file back gives exactly the list in memory. */
    ghost predicate Durable()
      reads this, records
    {
      Mirrors(records.list, records.size, file, fileLines)
    }

    ghost function View(): Disk
      reads this, records
    {
      Disk(records.list, file, fileLines)
    }

    /** One fgets of the loader of FTS_Init, and what it skips of a line that is longer. */
    static method ReadLine(unread: string) returns (line: string, rest: string)
      requires unread != ""
      ensures line == FirstRecord(unread) && rest == AfterLine(unread)
    {
      var n := 0;
      while n < RECORD_MAX && n < |unread| && (n == 0 || unread[n - 1] != '\n')
        invariant n <= RECORD_MAX && n <= |unread|
        invariant forall k | 0 <= k < n - 1 :: unread[k] != '\n'
      {
        n := n + 1;
      }
      if unread[n - 1] == '\n' {
        LineEndIs(unread, n - 1);
        return unread[..n - 1], unread[n..];
      }
      var next := n;
      while next < |unread| && unread[next] != '\n'
        invariant n <= next <= |unread|
        invariant forall k | 0 <= k < next :: unread[k] != '\n'
      {
        next := next + 1;
      }
      LineEndIs(unread, next);
      line := unread[..n];
      rest := if next < |unread| then unread[next + 1..] else "";
    }

    /** IG_Compact */
    method Compact()
      // either one line was just appended to a valid store, or the file was just loaded
      requires records.Valid()
      requires fileLines <= 2 * records.size || rewritten == 0
      requires rewritten + fileLines <= appended + 2 * records.size || rewritten == 0
      requires rewritten <= appended + records.size && CountedIfOpen(file, fileLines)
      modifies this`file, this`fileLines, this`rewritten
      ensures Valid()
      ensures old(fileLines) < 2 * records.size ==> unchanged(this)
      ensures old(fileLines) >= 2 * records.size ==>
        && file == Written(records.list) && fileLines == |records.list|
        && rewritten == old(rewritten) + |records.list|
    {
      hide Records, LineCount, Complete, LineEnd, FirstRecord, RecordOk;
      if fileLines < 2 * records.size {
        return;
      }
      file := "";
      for i := 0 to |records.list|
        invariant file == Written(records.list[..i]) && unchanged(`fileLines) && unchanged(`rewritten)
      {
        assert records.list[..i + 1][..i] == records.list[..i];
        file := file + records.list[i] + "\n";
      }
      assert records.list[..|records.list|] == records.list;
      fileLines := |records.list|;
      rewritten := rewritten + fileLines;
      WrittenIsComplete(records.list);
    }

    /** The part of FTS_Init that fills the ignore list from its file, whatever the file holds. */
    constructor (size: nat, content: string)
      requires 1 < size
      ensures Valid() && fresh(records) && records.size == size
      ensures records.list == StoredAll([], size, Records(content))
      ensures LineCount(content) < 2 * size ==> file == content && fileLines == LineCount(content)
      ensures Durable() <==> LineCount(content) >= 2 * size || Complete(content)
      ensures appended == 0 && rewritten == if LineCount(content) >= 2 * size then |records.list| else 0
    {
      hide Records, LineCount, StoredAll, AllRecords;
      records := new RecordStore(size);
      file, fileLines, appended, rewritten := content, 0, 0, 0;
      new;
      Load();
      ListFits(records);
      RewrittenMirrors(records.list, records.size);
      Compact();
    }

    /** The loop over the lines of the file. */
    method Load()
      requires records.Valid() && records.list == [] && fileLines == 0
      modifies this`fileLines, records
      ensures records.Valid() && records.list == StoredAll([], records.size, Records(file))
      ensures AllRecords(records.list) && fileLines == LineCount(file)
    {
      hide AfterLine, FirstRecord, RecordOk, Stored;
      var unread := file;
      while unread != ""
        invariant records.Valid() && AllRecords(records.list)
        invariant StoredAll(records.list, records.size, Records(unread)) == StoredAll([], records.size, Records(file))
        invariant fileLines + LineCount(unread) == LineCount(file)
        decreases |unread|
      {
        RecordsAreOk(unread);
        ghost var was := unread;
        var line;
        line, unread := ReadLine(unread);
        fileLines := fileLines + 1;
        if line != "" {
          assert Records(was)[0] == line && Records(was)[1..] == Records(unread);
          AllStored(records.list, records.size, line);
          var isNew := records.Add(line);
        } else {
          assert Records(was) == Records(unread);
        }
      }
    }

    /** AddtoIGnore, for an event that `rule` matched. */
    method AddToIgnore(values: Fields, rule: IgnoreRule)
      requires Valid()
      modifies this, records
      ensures Valid() && records.list == Stored(old(records.list), records.size, AddedRecord(rule, values))
      ensures appended == old(appended) + (if AddedRecord(rule, values) in old(records.list) then 0 else 1)
      ensures rewritten == old(rewritten)
        + (if appended > old(appended) && old(fileLines) + 1 >= 2 * records.size then |records.list| else 0)
      ensures View() == Ignoring(old(View()), records.size, AddedRecord(rule, values))
      ensures Durable() <==> WillMirror(old(View()), records.size, AddedRecord(rule, values))
    {
      hide *;
      var r := AddedRecord(rule, values);
      AddedIsLong(rule, values);
      Add(r);
    }

    /** The part of AddtoIGnore behind the formatting. */
    method Add(r: string)
      requires Valid() && 0 < |r| <= RECORD_MAX
      modifies this, records
      ensures Valid() && records.list == Stored(old(records.list), records.size, r)
      ensures appended == old(appended) + (if r in old(records.list) then 0 else 1)
      ensures rewritten == old(rewritten)
        + (if appended > old(appended) && old(fileLines) + 1 >= 2 * records.size then |records.list| else 0)
      ensures View() == Ignoring(old(View()), records.size, r)
      ensures Durable() <==> WillMirror(old(View()), records.size, r)
    {
      hide Records, LineCount, Complete, LineEnd, FirstRecord, RecordOk, Stored, StoredAll, OneLine, Cut, WillMirror,
        Mirrors;
      KnownStays(records.list, records.size, r);
      ListFits(records);
      MirrorsAfter(View(), records.size, r);
      var isNew := records.Add(r);
      if isNew {
        file := file + r + "\n";
        fileLines := fileLines + 1;
        appended := appended + 1;
        EndedIsComplete(file[..|file| - 1]);
        Compact();
      }
    }

    /** IGnore, for an event that `rule` matched. */
    method Ignored(values: Fields, rule: IgnoreRule) returns (matched: bool)
      requires Valid()
      ensures matched <==> CheckedRecord(rule, values) in records.list
    {
      matched := CheckedRecord(rule, values) in records.keys;
    }
  }

  lemma AddedIsLong(rule: IgnoreRule, values: Fields)
    ensures 0 < |AddedRecord(rule, values)| <= RECORD_MAX
  {
    JoinedIsLong(Chosen(values, rule.ignore));
  }

  /** What one rule adds the other finds, of every event and whatever the list holds, exactly when the other
      checks what the first ignores, and ignores data and system name where the first does. */
  lemma AddedIsFound(a: IgnoreRule, b: IgnoreRule, size: nat)
    ensures (forall list, values: Fields :: CheckedRecord(b, values) in Stored(list, size, AddedRecord(a, values)))
      <==> forall i | 0 <= i < IGNORE_FIELDS ::
             a.ignore[i] == if i == 5 || i == 6 then b.ignore[i] else b.ckignore[i]
  {
    hide AddedRecord, CheckedRecord;
    RecordsOfAllEvents(a, b);
    if values: Fields :| AddedRecord(a, values) != CheckedRecord(b, values) {
      assert Stored([], size, AddedRecord(a, values)) == [AddedRecord(a, values)];
      assert CheckedRecord(b, values) !in Stored([], size, AddedRecord(a, values));
    }
  }

  lemma KnownStays(list: seq<string>, size: nat, r: string)
    ensures r in list ==> Stored(list, size, r) == list
  {
  }

  lemma ListFits(records: RecordStore)
    requires records.Valid()
    ensures 1 < records.size && |records.list| <= records.size && Distinct(records.list)
  {
  }

  lemma WrittenIsComplete(list: seq<string>)
    ensures Complete(Written(list))
  {
  }

  lemma AllStored(list: seq<string>, size: nat, r: string)
    requires AllRecords(list) && RecordOk(r)
    ensures AllRecords(Stored(list, size, r))
  {
  }

  // -------------------------------------------------------------------------------------------
  // The list, its file and the counted lines, as values

  datatype Disk = Disk(list: seq<string>, file: string, fileLines: nat)

  function Rewritten(d: Disk, size: nat): Disk {
    if d.fileLines < 2 * size then d else Disk(d.list, Written(d.list), |d.list|)
  }

  /** AddtoIGnore of one record. */
  function Ignoring(d: Disk, size: nat, r: string): Disk {
    if r in d.list then d
    else Rewritten(Disk(Stored(d.list, size, r), d.file + r + "\n", d.fileLines + 1), size)
  }

  /** What loading makes of a file. */
  function Started(size: nat, content: string): Disk {
    Rewritten(Disk(StoredAll([], size, Records(content)), content, LineCount(content)), size)
  }

  /** Storing a new record in two lists makes them the same: they are, or they differ only in what drops out. */
  predicate WillAgree(replay: seq<string>, list: seq<string>, size: nat, r: string) {
    || replay == list
    || (r in replay && replay == Younger(list, size) + [r])
    || (r !in replay && Younger(replay, size) == Younger(list, size))
  }

  function Younger(list: seq<string>, size: nat): seq<string> {
    if |list| < size || list == [] then list else list[1..]
  }

  /** When file and list agree after a record is added, told from what is there before. A known record changes
      nothing; a rewritten file agrees if every record is one line; otherwise the line must be readable where it is
      appended, and what the file held beyond the list must drop out. */
  ghost predicate WillMirror(d: Disk, size: nat, r: string) {
    if r in d.list then Mirrors(d.list, size, d.file, d.fileLines)
    else if d.fileLines + 1 >= 2 * size then AllRecords(Stored(d.list, size, r))
    else
      && OneLine(r) && Complete(d.file) && d.fileLines == LineCount(d.file)
      && AllRecords(Younger(d.list, size))
      && WillAgree(StoredAll([], size, Records(d.file)), d.list, size, r)
  }

  lemma AgreeIsSame(replay: seq<string>, list: seq<string>, size: nat, r: string)
    requires 1 < size && r !in list
    ensures WillAgree(replay, list, size, r) <==> Stored(replay, size, r) == Stored(list, size, r)
  {
    var a, b := Younger(replay, size), Younger(list, size);
    assert Stored(list, size, r) == b + [r];
    if r !in replay {
      assert Stored(replay, size, r) == a + [r];
      assert a + [r] == b + [r] <==> a == b by {
        assert (a + [r])[..|a|] == a && (b + [r])[..|b|] == b;
      }
    }
  }

  lemma AllWithNew(list: seq<string>, size: nat, r: string)
    requires r !in list && 0 < |r| <= RECORD_MAX
    ensures AllRecords(Stored(list, size, r)) <==> AllRecords(Younger(list, size)) && OneLine(r)
  {
    var y := Younger(list, size);
    assert Stored(list, size, r) == y + [r];
    if AllRecords(y + [r]) {
      assert (y + [r])[|y|] == r;
      forall k | 0 <= k < |y| ensures RecordOk(y[k]) {
        assert (y + [r])[k] == y[k];
      }
    }
  }

  lemma RewrittenMirrors(list: seq<string>, size: nat)
    requires Distinct(list) && |list| <= size
    ensures Mirrors(list, size, Written(list), |list|) <==> AllRecords(list)
  {
    if AllRecords(list) {
      WrittenIsReadBack(list);
      StoredAllFits(size, list);
    }
  }

  /** The replay of the file after a line is appended. */
  lemma ReplayMore(file: string, size: nat, r: string)
    requires RecordOk(r) && Complete(file)
    ensures StoredAll([], size, Records(file + r + "\n")) == Stored(StoredAll([], size, Records(file)), size, r)
    ensures LineCount(file + r + "\n") == LineCount(file) + 1
  {
    hide Records, LineCount, Stored;
    AppendedIsReadBack(file, r);
    OneRecord(r);
    RecordsOfMore(file, r + "\n");
    assert file + r + "\n" == file + (r + "\n");
    StoredAllMore([], size, Records(file), [r]);
    assert StoredAll(StoredAll([], size, Records(file)), size, [r])
      == Stored(StoredAll([], size, Records(file)), size, r);
  }

  lemma MirrorsAfter(d: Disk, size: nat, r: string)
    requires 1 < size && 0 < |r| <= RECORD_MAX && Distinct(d.list) && |d.list| <= size
    requires CountedIfOpen(d.file, d.fileLines)
    ensures var n := Ignoring(d, size, r); Mirrors(n.list, size, n.file, n.fileLines) <==> WillMirror(d, size, r)
  {
    hide Records, LineCount, Complete, RecordOk, OneLine, WillAgree, Written, StoredAll;
    if r !in d.list {
      StoredKeeps(d.list, size, r);
      AllWithNew(d.list, size, r);
      if d.fileLines + 1 >= 2 * size {
        hide Stored, AllRecords, Mirrors;
        RewrittenMirrors(Stored(d.list, size, r), size);
      } else {
        hide Stored, Younger;
        AppendedMirrors(d, size, r);
      }
    }
  }

  lemma AppendedMirrors(d: Disk, size: nat, r: string)
    requires 1 < size && 0 < |r| <= RECORD_MAX && r !in d.list && CountedIfOpen(d.file, d.fileLines)
    ensures Mirrors(Stored(d.list, size, r), size, d.file + r + "\n", d.fileLines + 1)
       <==> && OneLine(r) && Complete(d.file) && d.fileLines == LineCount(d.file)
            && AllRecords(Younger(d.list, size)) && WillAgree(StoredAll([], size, Records(d.file)), d.list, size, r)
  {
    hide Records, LineCount, Complete, RecordOk, StoredAll, Stored, Younger, AllRecords, WillAgree;
    var more := d.file + r + "\n";
    AllWithNew(d.list, size, r);
    if OneLine(r) {
      OneLineRecord(r);
      EndedIsComplete(d.file + r);
      if Complete(d.file) {
        ReplayMore(d.file, size, r);
        AgreeIsSame(StoredAll([], size, Records(d.file)), d.list, size, r);
      } else {
        ContinuedMiscounts(d, size, r);
      }
    }
  }

  lemma OneLineRecord(r: string)
    requires OneLine(r) && 0 < |r| <= RECORD_MAX
    ensures RecordOk(r)
  {
  }

  /** Appending to an open line adds no line. */
  lemma ContinuedMiscounts(d: Disk, size: nat, r: string)
    requires RecordOk(r) && !Complete(d.file)
    ensures LineCount(d.file + r + "\n") == LineCount(d.file)
  {
    assert d.file + r + "\n" == d.file + (r + "\n");
    RecordsOfContinued(d.file, r);
  }

  // -------------------------------------------------------------------------------------------
  // Runs

  function IgnoringAll(d: Disk, size: nat, rs: seq<string>): Disk
    decreases |rs|
  {
    if rs == [] then d else IgnoringAll(Ignoring(d, size, rs[0]), size, rs[1..])
  }

  /** Some record of the run makes the file be rewritten. */
  predicate Rewrites(d: Disk, size: nat, rs: seq<string>)
    decreases |rs|
  {
    rs != [] && ((rs[0] !in d.list && d.fileLines + 1 >= 2 * size) || Rewrites(Ignoring(d, size, rs[0]), size, rs[1..]))
  }

  ghost predicate MirrorsDisk(d: Disk, size: nat) {
    Mirrors(d.list, size, d.file, d.fileLines)
  }

  /** A file that began with an open line: still open, or one line was counted that it does not have. */
  predicate Miscounted(d: Disk) {
    if Complete(d.file) then d.fileLines == LineCount(d.file) + 1 else d.fileLines == LineCount(d.file)
  }

  ghost predicate DiskOk(d: Disk, size: nat) {
    && 1 < size && Distinct(d.list) && |d.list| <= size && AllRecords(d.list)
    && (MirrorsDisk(d, size) || Miscounted(d))
  }

  /** One record of a run. */
  lemma IgnoringStep(d: Disk, size: nat, r: string)
    requires DiskOk(d, size) && RecordOk(r)
    ensures var n := Ignoring(d, size, r);
      && DiskOk(n, size)
      && (MirrorsDisk(n, size) <==> MirrorsDisk(d, size) || (r !in d.list && d.fileLines + 1 >= 2 * size))
  {
    hide Records, LineCount, Complete, RecordOk, StoredAll, Stored, AllRecords, Written;
    if r !in d.list {
      StoredKeeps(d.list, size, r);
      AllStored(d.list, size, r);
      var n := Stored(d.list, size, r);
      if d.fileLines + 1 >= 2 * size {
        RewrittenMirrors(n, size);
      } else {
        EndedIsComplete(d.file + r);
        if Complete(d.file) {
          ReplayMore(d.file, size, r);
        } else {
          ContinuedMiscounts(d, size, r);
        }
      }
    }
  }

  lemma {:induction false} RunMirrors(d: Disk, size: nat, rs: seq<string>)
    requires DiskOk(d, size) && forall k | 0 <= k < |rs| :: RecordOk(rs[k])
    ensures MirrorsDisk(IgnoringAll(d, size, rs), size) <==> MirrorsDisk(d, size) || Rewrites(d, size, rs)
    decreases |rs|
  {
    hide DiskOk, MirrorsDisk, RecordOk, Ignoring;
    if rs != [] {
      IgnoringStep(d, size, rs[0]);
      RunMirrors(Ignoring(d, size, rs[0]), size, rs[1..]);
    }
  }

  /** Durability over runs, from any file: after any number of one-line records, file and list agree exactly when
      the file was short and ended with a line end, or has been rewritten, at the start or since. */
  lemma RunsAreDurable(size: nat, content: string, rs: seq<string>)
    requires 1 < size && forall k | 0 <= k < |rs| :: RecordOk(rs[k])
    ensures MirrorsDisk(IgnoringAll(Started(size, content), size, rs), size)
       <==> Complete(content) || LineCount(content) >= 2 * size || Rewrites(Started(size, content), size, rs)
  {
    StartedOk(size, content);
    RunMirrors(Started(size, content), size, rs);
  }

  lemma StartedOk(size: nat, content: string)
    requires 1 < size
    ensures DiskOk(Started(size, content), size)
    ensures MirrorsDisk(Started(size, content), size) <==> Complete(content) || LineCount(content) >= 2 * size
  {
    RecordsAreOk(content);
    hide Records, LineCount, Complete, RecordOk;
    AllStoredOk([], size, Records(content));
    hide StoredAll, AllRecords;
    RewrittenMirrors(StoredAll([], size, Records(content)), size);
  }

  lemma {:induction false} AllStoredOk(list: seq<string>, size: nat, records: seq<string>)
    requires Distinct(list) && |list| <= size && size > 0 && AllRecords(list) && AllRecords(records)
    ensures var s := StoredAll(list, size, records); Distinct(s) && |s| <= size && AllRecords(s)
    decreases |records|
  {
    hide RecordOk;
    if records != [] {
      StoredKeeps(list, size, records[0]);
      AllStored(list, size, records[0]);
      AllStoredOk(Stored(list, size, records[0]), size, records[1..]);
    }
  }
}
