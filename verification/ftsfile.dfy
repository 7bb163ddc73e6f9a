/** The first-time-seen file under concurrency: match threads store keys and hand their lines to a queue or
    write them themselves, a writer empties the queue, and whoever writes may rewrite the file. The file is
    its text, and what it holds is what the loader would read of it. */
module FtsFile {
  import opened Events
  import opened RecordFile
  import opened RecordStores
  import opened ChunkFile

  /** What a thread does with the line it carries. The last three phases hold the write lock. */
  datatype Phase =
    | Free
    | Pending(line: string)
    | Writing(line: string)
    | Compacting
    | Truncated
    | Unlocking

  datatype State = State(
    size: nat,
    store: seq<string>,
    file: string,
    fileLines: nat,
    queue: seq<string>,
    threads: seq<Phase>)

  /** `Check` is the part of FTS under fts_mutex, for one key. */
  datatype Action =
    | Check(t: nat, key: string)
    | Enqueue(t: nat)
    | Dequeue(t: nat)
    | LockWrite(t: nat)
    | Append(t: nat)
    | Truncate(t: nat)
    | Rewrite(t: nat)
    | Unlock(t: nat)

  predicate HoldsWriteLock(p: Phase) {
    p.Writing? || p.Compacting? || p.Truncated? || p.Unlocking?
  }

  predicate Enabled(s: State, a: Action) {
    && a.t < |s.threads|
    && var p := s.threads[a.t];
       match a
       case Check(_, _) => p == Free
       case Enqueue(_) => p.Pending?
       case Dequeue(_) => p == Free && s.queue != []
       case LockWrite(_) => p.Pending? && forall u | 0 <= u < |s.threads| :: !HoldsWriteLock(s.threads[u])
       case Append(_) => p.Writing?
       case Truncate(_) => p.Compacting?
       case Rewrite(_) => p.Truncated?
       case Unlock(_) => p.Unlocking?
  }

  function Step(s: State, a: Action): State
    requires Enabled(s, a)
  {
    var p := s.threads[a.t];
    match a
    case Check(t, key) =>
      s.(store := Stored(s.store, s.size, key),
        threads := s.threads[t := if key in s.store then Free else Pending(key)])
    case Enqueue(t) => s.(queue := s.queue + [p.line], threads := s.threads[t := Free])
    case Dequeue(t) => s.(queue := s.queue[1..], threads := s.threads[t := Pending(s.queue[0])])
    case LockWrite(t) => s.(threads := s.threads[t := Writing(p.line)])
    case Append(t) =>
      s.(file := s.file + p.line + "\n", fileLines := s.fileLines + 1,
         threads := s.threads[t := if s.fileLines + 1 < 2 * s.size then Unlocking else Compacting])
    case Truncate(t) => s.(file := "", threads := s.threads[t := Truncated])
    case Rewrite(t) => s.(file := Written(s.store), fileLines := |s.store|, threads := s.threads[t := Unlocking])
    case Unlock(t) => s.(threads := s.threads[t := Free])
  }

  /** Some thread has the line of this key in hand, on its way to the file. */
  ghost predicate Carried(s: State, key: string) {
    exists t :: 0 <= t < |s.threads| && (s.threads[t] == Pending(key) || s.threads[t] == Writing(key))
  }

  ghost predicate Kept(s: State, key: string) {
    key in Reads(s.file) || key in s.queue || Carried(s, key)
  }

  /** Between truncating and rewriting the file under the write lock. */
  ghost predicate Rewriting(s: State) {
    exists t :: 0 <= t < |s.threads| && s.threads[t] == Truncated
  }

  /** All lines on their way are records: none is empty, too long, or has a line end inside. */
  ghost predicate RecordsOnly(s: State) {
    && (forall i | 0 <= i < |s.store| :: RecordOk(s.store[i]))
    && (forall i | 0 <= i < |s.queue| :: RecordOk(s.queue[i]))
    && (forall t | 0 <= t < |s.threads| && (s.threads[t].Pending? || s.threads[t].Writing?) ::
      RecordOk(s.threads[t].line))
  }

  /** The same of the keys a run brings. */
  ghost predicate BringsRecords(actions: seq<Action>) {
    forall i | 0 <= i < |actions| && actions[i].Check? :: RecordOk(actions[i].key)
  }

  ghost predicate Inv(s: State) {
    && RecordsOnly(s) && Closed(s.file)
    && 1 < s.size && Distinct(s.store) && |s.store| <= s.size
    && OneWriter(s)
    && (Rewriting(s) || forall key | key in s.store :: Kept(s, key))
    && (Rewriting(s) || s.fileLines == |Reads(s.file)|)
    && s.fileLines <= 2 * s.size
    && BusyIfLong(s)
  }

  ghost predicate OneWriter(s: State) {
    forall t, u {:trigger s.threads[t], s.threads[u]} | 0 <= t < |s.threads| && 0 <= u < |s.threads| ::
      HoldsWriteLock(s.threads[t]) && HoldsWriteLock(s.threads[u]) ==> t == u
  }

  /** A file of twice the size of the store is about to be rewritten. */
  ghost predicate BusyIfLong(s: State) {
    s.fileLines == 2 * s.size ==>
      exists t :: 0 <= t < |s.threads| && (s.threads[t] == Compacting || s.threads[t] == Truncated)
  }

  /** A step brings no line that is not a record. */
  predicate BringsRecord(a: Action) {
    a.Check? ==> RecordOk(a.key)
  }

  lemma StepRecords(s: State, a: Action)
    requires RecordsOnly(s) && Enabled(s, a) && BringsRecord(a)
    ensures RecordsOnly(Step(s, a))
  {
    hide RecordOk;
  }

  lemma RecordLength(r: string)
    ensures RecordOk(r) ==> 0 < |r| <= RECORD_MAX
  {
  }

  /** What a step does to the file. */
  lemma StepFile(s: State, a: Action)
    requires RecordsOnly(s) && Closed(s.file) && Enabled(s, a)
    ensures var r := Step(s, a);
      && Closed(r.file)
      && Reads(r.file) == match a
         case Append(t) => Reads(s.file) + [s.threads[t].line]
         case Truncate(_) => []
         case Rewrite(_) => s.store
         case _ => Reads(s.file)
  {
    hide Reads, OpenTail, RecordOk;
    match a
    case Append(t) =>
      RecordLength(s.threads[t].line);
      AppendedReads(s.file, s.threads[t].line);
    case Truncate(_) => NothingReads();
    case Rewrite(_) => WrittenReads(s.store);
    case _ =>
  }

  /** Which keys a step can take out of reach: none. */
  lemma StepKeeps(s: State, a: Action, key: string)
    requires Inv(s) && Enabled(s, a) && !a.Truncate? && !a.Rewrite?
    requires Kept(s, key)
    ensures Kept(Step(s, a), key)
  {
    var r := Step(s, a);
    StepFile(s, a);
    hide Reads, OpenTail, RecordOk;
    CarriedElsewhere(s, r, a.t, key);
    match a
    case Enqueue(t) =>
      assert r.queue[|s.queue|] == s.threads[t].line;
    case Dequeue(t) =>
      assert r.threads[t] == Pending(s.queue[0]);
    case LockWrite(t) =>
      assert r.threads[t] == Writing(s.threads[t].line);
    case Append(t) =>
      assert Reads(r.file)[|Reads(s.file)|] == s.threads[t].line;
    case _ =>
  }

  /** Only the acting thread can put down what it carries. */
  lemma CarriedElsewhere(s: State, r: State, t: nat, key: string)
    requires t < |s.threads| == |r.threads| && forall u | 0 <= u < |s.threads| && u != t :: r.threads[u] == s.threads[u]
    ensures Carried(s, key) ==> Carried(r, key) || s.threads[t] == Pending(key) || s.threads[t] == Writing(key)
  {
    if Carried(s, key) {
      var u :| 0 <= u < |s.threads| && (s.threads[u] == Pending(key) || s.threads[u] == Writing(key));
      assert u == t || r.threads[u] == s.threads[u];
    }
  }

  lemma RewritingAfter(s: State, a: Action)
    requires OneWriter(s) && Enabled(s, a)
    ensures OneWriter(Step(s, a)) && (Rewriting(Step(s, a)) <==> a.Truncate? || (Rewriting(s) && !a.Rewrite?))
  {
    var r := Step(s, a);
    assert forall u | 0 <= u < |s.threads| && u != a.t :: r.threads[u] == s.threads[u];
    if Rewriting(s) {
      var u :| 0 <= u < |s.threads| && s.threads[u] == Truncated;
      assert r.threads[u] == Truncated || u == a.t;
    }
    if a.Truncate? {
      assert r.threads[a.t] == Truncated;
    }
  }

  lemma StepInv(s: State, a: Action)
    requires Inv(s) && Enabled(s, a) && BringsRecord(a)
    ensures Inv(Step(s, a))
  {
    var r := Step(s, a);
    if a.Check? { StoredKeeps(s.store, s.size, a.key); }
    RewritingAfter(s, a);
    StepRecords(s, a);
    StepFile(s, a);
    StepLines(s, a);
    hide Reads, OpenTail, RecordOk, RecordsOnly, Written, OneWriter, Rewriting, BusyIfLong, Kept;
    if !Rewriting(r) {
      forall key | key in r.store ensures Kept(r, key) {
        if a.Check? && key == a.key && key !in s.store {
          NewKeyIsCarried(s, a);
        } else if !a.Rewrite? {
          StepKeeps(s, a, key);
        } else {
          RewrittenKeyIsKept(r, key);
        }
      }
    }
  }

  lemma NewKeyIsCarried(s: State, a: Action)
    requires Enabled(s, a) && a.Check? && a.key !in s.store
    ensures Kept(Step(s, a), a.key)
  {
    assert Step(s, a).threads[a.t] == Pending(a.key);
  }

  lemma RewrittenKeyIsKept(r: State, key: string)
    requires key in Reads(r.file)
    ensures Kept(r, key)
  {
  }

  lemma StepLines(s: State, a: Action)
    requires BusyIfLong(s) && s.fileLines <= 2 * s.size && |s.store| <= s.size && OneWriter(s) && Enabled(s, a)
    requires 1 < s.size
    ensures var r := Step(s, a); r.fileLines <= 2 * r.size && BusyIfLong(r)
  {
    var r := Step(s, a);
    if s.fileLines == 2 * s.size {
      var t :| 0 <= t < |s.threads| && (s.threads[t] == Compacting || s.threads[t] == Truncated);
      assert t == a.t || r.threads[t] == s.threads[t];
    }
    assert r.threads[a.t] == Compacting || !a.Append? || r.fileLines < 2 * r.size;
  }

  ghost predicate CanRun(s: State, actions: seq<Action>)
    decreases |actions|
  {
    actions == [] || (Enabled(s, actions[0]) && CanRun(Step(s, actions[0]), actions[1..]))
  }

  ghost function After(s: State, actions: seq<Action>): State
    requires CanRun(s, actions)
    decreases |actions|
  {
    if actions == [] then s else After(Step(s, actions[0]), actions[1..])
  }

  lemma {:induction false} RunInv(s: State, actions: seq<Action>)
    requires Inv(s) && CanRun(s, actions) && BringsRecords(actions)
    ensures Inv(After(s, actions))
    decreases |actions|
  {
    hide Inv;
    if actions != [] {
      StepInv(s, actions[0]);
      RunInv(Step(s, actions[0]), actions[1..]);
    }
  }

  /** A store freshly filled from its file. */
  ghost predicate Loaded(s: State) {
    && 1 < s.size && s.fileLines == |Reads(s.file)| < 2 * s.size && s.queue == []
    && s.store == StoredAll([], s.size, Reads(s.file))
    && forall t | 0 <= t < |s.threads| :: s.threads[t] == Free
  }

  lemma {:induction false} StoredComesFromFile(list: seq<string>, size: nat, records: seq<string>)
    requires Distinct(list) && |list| <= size && size > 0
    ensures forall key | key in StoredAll(list, size, records) :: key in list || key in records
    ensures Distinct(StoredAll(list, size, records)) && |StoredAll(list, size, records)| <= size
    decreases |records|
  {
    if records != [] {
      StoredKeeps(list, size, records[0]);
      StoredComesFromFile(Stored(list, size, records[0]), size, records[1..]);
    }
  }

  lemma LoadedInv(s: State)
    requires Loaded(s) && Closed(s.file)
    ensures Inv(s)
  {
    StoredComesFromFile([], s.size, Reads(s.file));
    ListIsOk(s.size, s.file);
    hide Reads, OpenTail, RecordOk, StoredAll;
    forall key | key in s.store ensures Kept(s, key) {
      assert key in Reads(s.file);
    }
  }

  /** No remembered key is ever lost, if the file was closed when it was loaded and the keys are records:
      whatever any number of match and writer threads do, in any order, a key in the store has its line in the
      file, in the queue, or in the hand of a thread that is about to write or queue it, except while the holder
      of the write lock rewrites the file from the store. */
  lemma NoKeyIsLost(s: State, actions: seq<Action>)
    requires Loaded(s) && Closed(s.file) && CanRun(s, actions) && BringsRecords(actions)
    ensures var r := After(s, actions);
      Rewriting(r) || forall key | key in r.store :: key in Reads(r.file) || key in r.queue || Carried(r, key)
  {
    LoadedInv(s);
    RunInv(s, actions);
    hide Reads, OpenTail, After;
    var r := After(s, actions);
    assert Rewriting(r) || forall key | key in r.store :: Kept(r, key);
  }

  /** When every line has been handed over, the file alone holds every remembered key. */
  lemma QuietFileIsComplete(s: State)
    requires Inv(s) && s.queue == [] && forall t | 0 <= t < |s.threads| :: s.threads[t] == Free
    ensures forall key | key in s.store :: key in Reads(s.file)
  {
    hide Reads, OpenTail;
    forall key | key in s.store ensures key in Reads(s.file) {
      assert Kept(s, key);
    }
  }

  /** One match thread stores a key and writes its line itself. */
  function StoreAndWrite(t: nat, key: string): seq<Action> {
    [Check(t, key), LockWrite(t), Append(t), Unlock(t)]
  }

  lemma Runs(s: State, a: Action, rest: seq<Action>)
    ensures CanRun(s, [a] + rest) <==> Enabled(s, a) && CanRun(Step(s, a), rest)
    ensures CanRun(s, [a] + rest) ==> After(s, [a] + rest) == After(Step(s, a), rest)
  {
    assert ([a] + rest)[1..] == rest;
  }

  lemma StoreAndWriteRuns(s: State, t: nat, key: string)
    requires t < |s.threads| && (forall u | 0 <= u < |s.threads| :: s.threads[u] == Free)
    requires key !in s.store && s.fileLines + 1 < 2 * s.size
    ensures CanRun(s, StoreAndWrite(t, key))
    ensures var r := After(s, StoreAndWrite(t, key));
      && r.store == Stored(s.store, s.size, key) && r.file == s.file + key + "\n" && r.queue == s.queue
      && forall u | 0 <= u < |r.threads| :: r.threads[u] == Free
  {
    hide Reads, Stored;
    var s1 := Step(s, Check(t, key));
    var s2 := Step(s1, LockWrite(t));
    var s3 := Step(s2, Append(t));
    Runs(s, Check(t, key), [LockWrite(t), Append(t), Unlock(t)]);
    Runs(s1, LockWrite(t), [Append(t), Unlock(t)]);
    Runs(s2, Append(t), [Unlock(t)]);
    Runs(s3, Unlock(t), []);
    assert StoreAndWrite(t, key) == [Check(t, key)] + [LockWrite(t), Append(t), Unlock(t)];
    assert [LockWrite(t), Append(t), Unlock(t)] == [LockWrite(t)] + [Append(t), Unlock(t)];
    assert [Append(t), Unlock(t)] == [Append(t)] + [Unlock(t)] && [Unlock(t)] == [Unlock(t)] + [];
  }

  /** Both conditions are needed. Whatever key is new to the store and to the file: after storing it and writing
      its line, with nothing left to hand over, the file has it exactly when it has no line end inside and either
      the file was closed or its open line, continued with the key, is cut to just the key. The record of the open
      line is gone from its place: the line is read together with the key. */
  lemma OpenFileLosesKeys(s: State, t: nat, key: string)
    requires Loaded(s) && t < |s.threads| && s.fileLines + 1 < 2 * s.size
    requires key !in s.store && key !in Reads(s.file) && 0 < |key| <= RECORD_MAX
    ensures CanRun(s, StoreAndWrite(t, key))
    ensures var r := After(s, StoreAndWrite(t, key));
      && key in r.store && r.queue == [] && (forall u | 0 <= u < |r.threads| :: r.threads[u] == Free)
      && (key in Reads(r.file) <==> RecordOk(key) && (Closed(s.file) || Cut(OpenTail(s.file) + key) == key))
      && (!Closed(s.file) && RecordOk(key) ==>
            var n := |Reads(s.file)|;
            && n > 0 && Reads(s.file)[n - 1] == OpenTail(s.file)
            && Reads(r.file) == Reads(s.file)[..n - 1] + Pieces(OpenTail(s.file) + key))
  {
    StoreAndWriteRuns(s, t, key);
    hide StoreAndWrite, CanRun, After, OpenTail, Reads, Pieces, Cut;
    var stored := Stored(s.store, s.size, key);
    assert stored[|stored| - 1] == key;
    NewRecordIsRead(s.file, key);
    if !Closed(s.file) && RecordOk(key) {
      OpenIsContinued(s.file, key);
    }
  }

  /** Rewriting the file heals it: whatever it was like before, all that the invariant asks of it holds again. */
  lemma RewriteHeals(s: State, t: nat)
    requires Enabled(s, Rewrite(t)) && RecordsOnly(s) && OneWriter(s)
    requires 1 < s.size && Distinct(s.store) && |s.store| <= s.size
    ensures Inv(Step(s, Rewrite(t)))
  {
    WrittenReads(s.store);
    StepRecords(s, Rewrite(t));
    RewritingAfter(s, Rewrite(t));
    hide Reads, OpenTail, RecordOk, Written, RecordsOnly, OneWriter, Rewriting, Carried, Distinct;
  }

  // -------------------------------------------------------------------------------------------
  // Loading

  /** One fgets of the loader of FTS_Init, without the line end. */
  method ReadLine(unread: string) returns (line: string, rest: string)
    requires |unread| > 0
    ensures line == ChunkRecord(unread) && rest == unread[Chunk(unread)..]
  {
    var n := 0;
    while n < RECORD_MAX && n < |unread| && (n == 0 || unread[n - 1] != '\n')
      invariant n <= RECORD_MAX && n <= |unread|
      invariant forall k | 0 <= k < n - 1 :: unread[k] != '\n'
    {
      n := n + 1;
    }
    if unread[n - 1] == '\n' {
      LineEndIs(unread, n - 1);
      line := unread[..n - 1];
    } else {
      LineEndAtLeast(unread, n);
      line := unread[..n];
    }
    rest := unread[n..];
  }

  /** The part of FTS_Init that fills the store from its file, and the compaction behind it. */
  method Load(size: nat, content: string) returns (records: RecordStore, file: string, fileLines: nat)
    requires 1 < size
    ensures fresh(records) && records.Valid() && records.size == size
    ensures records.list == StoredAll([], size, Reads(content))
    ensures if |Reads(content)| < 2 * size then file == content else file == Written(records.list) && Closed(file)
    ensures Loaded(State(size, records.list, file, fileLines, [], []))
  {
    hide Reads, OpenTail, Chunk, ChunkRecord, Stored, RecordOk, Written;
    records := new RecordStore(size);
    var unread := content;
    fileLines := 0;
    while unread != ""
      invariant records.Valid() && fresh(records) && records.size == size
      invariant StoredAll(records.list, size, Reads(unread)) == StoredAll([], size, Reads(content))
      invariant fileLines + |Reads(unread)| == |Reads(content)|
      decreases |unread|
    {
      ReadsStep(unread);
      ghost var was := unread;
      var line;
      line, unread := ReadLine(unread);
      if line != "" {
        fileLines := fileLines + 1;
        assert Reads(was) == [line] + Reads(unread) && ([line] + Reads(unread))[1..] == Reads(unread);
        var isNew := records.Add(line);
      } else {
        assert Reads(was) == Reads(unread);
      }
    }
    NothingReads();
    file := content;
    ListIsOk(size, content);
    if fileLines >= 2 * size {
      file := WrittenBack(records);
      fileLines := |records.list|;
      WrittenReads(records.list);
      StoredAllFits(size, records.list);
    }
  }

  lemma ListIsOk(size: nat, content: string)
    requires 1 < size
    ensures forall k | 0 <= k < |StoredAll([], size, Reads(content))| ::
      RecordOk(StoredAll([], size, Reads(content))[k])
  {
    StoredComesFromFile([], size, Reads(content));
    ReadsAreOk(content);
    hide Reads, RecordOk;
    var list := StoredAll([], size, Reads(content));
    forall k | 0 <= k < |list| ensures RecordOk(list[k]) {
      assert list[k] in list;
    }
  }

  /** The loop of FTS_Compact over the list. */
  method WrittenBack(records: RecordStore) returns (file: string)
    ensures file == Written(records.list)
  {
    file := "";
    for i := 0 to |records.list|
      invariant file == Written(records.list[..i])
    {
      assert records.list[..i + 1][..i] == records.list[..i];
      file := file + records.list[i] + "\n";
    }
    assert records.list[..|records.list|] == records.list;
  }
}
