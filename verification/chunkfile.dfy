/** The first-time-seen file as its loader reads it: a line longer than one read is several records. */
module ChunkFile {
  import opened RecordFile

  /** How much of a file one fgets takes: a line with its end, or 255 characters, or what is left. */
  function Chunk(file: string): (n: nat)
    requires |file| > 0
    ensures 0 < n <= |file| && n <= RECORD_MAX
  {
    ChunkAt(file, LineEnd(file))
  }

  function ChunkAt(file: string, end: nat): (n: nat)
    requires |file| > 0 && end <= |file|
    ensures 0 < n <= |file| && n <= RECORD_MAX
  {
    if end < RECORD_MAX && end < |file| then end + 1
    else if |file| < RECORD_MAX then |file|
    else RECORD_MAX
  }

  /** What is left of it without the line end. */
  function ChunkRecord(file: string): (r: string)
    requires |file| > 0
    ensures |r| <= RECORD_MAX
  {
    if file[Chunk(file) - 1] == '\n' then file[..Chunk(file) - 1] else file[..Chunk(file)]
  }

  /** The records of a file: what is read, without blank lines. */
  function Reads(file: string): seq<string>
    decreases |file|
  {
    if file == "" then [] else FirstRead(file) + Reads(file[Chunk(file)..])
  }

  function FirstRead(file: string): seq<string>
    requires |file| > 0
  {
    if ChunkRecord(file) == "" then [] else [ChunkRecord(file)]
  }

  /** What the last read leaves open: a line without its end, unless it filled the read. */
  function OpenTail(file: string): (t: string)
    decreases |file|
  {
    if file == "" then ""
    else if Chunk(file) < |file| then OpenTail(file[Chunk(file)..])
    else if file[|file| - 1] == '\n' || |file| == RECORD_MAX then ""
    else file
  }

  predicate Closed(file: string) {
    OpenTail(file) == ""
  }

  /** A read that is finished takes the same from whatever is appended to. */
  predicate Finished(file: string, n: nat)
    requires 0 < n <= |file|
  {
    file[n - 1] == '\n' || n == RECORD_MAX
  }

  lemma ChunkFinished(file: string)
    requires |file| > 0
    ensures Chunk(file) < |file| ==> Finished(file, Chunk(file))
    ensures forall k | 0 <= k < |ChunkRecord(file)| :: ChunkRecord(file)[k] != '\n'
  {
    BeforeLineEnd(file);
  }

  lemma ChunkOfMore(file: string, more: string)
    requires |file| > 0 && Finished(file, Chunk(file))
    ensures Chunk(file + more) == Chunk(file)
    ensures FirstRead(file + more) == FirstRead(file)
    ensures (file + more)[Chunk(file)..] == file[Chunk(file)..] + more
  {
    var n := Chunk(file);
    BeforeLineEnd(file);
    if LineEnd(file) < |file| {
      LineEndOfMore(file, more);
    } else {
      BeforeLineEnd(file + more);
      assert forall k | 0 <= k < |file| :: (file + more)[k] == file[k];
      LineEndAtLeast(file + more, |file|);
    }
    assert (file + more)[..n] == file[..n] && (file + more)[n - 1] == file[n - 1];
    assert (file + more)[..n - 1] == file[..n - 1];
  }

  lemma LineEndAtLeast(file: string, n: nat)
    requires n <= |file| && forall k | 0 <= k < n :: file[k] != '\n'
    ensures LineEnd(file) >= n
  {
    assert LineEnd(file) < |file| ==> file[LineEnd(file)] == '\n';
  }

  lemma ReadsStep(file: string)
    requires |file| > 0
    ensures Reads(file) == FirstRead(file) + Reads(file[Chunk(file)..])
  {
  }

  lemma TailStep(file: string)
    requires |file| > 0
    ensures OpenTail(file) == if Chunk(file) < |file| then OpenTail(file[Chunk(file)..])
      else if Finished(file, |file|) then "" else file
  {
  }

  lemma NothingReads()
    ensures Reads("") == [] && OpenTail("") == ""
  {
  }

  lemma ClosedFinishes(file: string)
    requires |file| > 0 && Closed(file)
    ensures Finished(file, Chunk(file)) && Closed(file[Chunk(file)..])
  {
    TailStep(file);
    ChunkFinished(file);
    NothingReads();
    hide OpenTail, ChunkRecord, Chunk;
    assert Chunk(file) == |file| ==> file[Chunk(file)..] == "";
  }

  lemma Grouped<T>(a: seq<T>, b: seq<T>, c: seq<T>)
    ensures a + (b + c) == (a + b) + c
  {
  }

  /** Appending to a closed file leaves its records alone. */
  lemma {:induction false} ReadsOfMore(file: string, more: string)
    requires Closed(file)
    ensures Reads(file + more) == Reads(file) + Reads(more)
    ensures OpenTail(file + more) == OpenTail(more)
    decreases |file|
  {
    hide Reads, OpenTail, Chunk, FirstRead, ChunkRecord, LineEnd;
    if file == "" {
      NothingReads();
      assert file + more == more;
    } else {
      ClosedFinishes(file);
      ChunkOfMore(file, more);
      var rest := file[Chunk(file)..];
      ReadsOfMore(rest, more);
      ReadsStep(file);
      ReadsStep(file + more);
      TailStep(file + more);
      Grouped(FirstRead(file), Reads(rest), Reads(more));
      if Chunk(file) == |file + more| {
        NothingReads();
        assert more == "" && file + more == file;
      }
    }
  }

  lemma {:induction false} ReadsAreOk(file: string)
    ensures forall k | 0 <= k < |Reads(file)| :: RecordOk(Reads(file)[k])
    decreases |file|
  {
    hide Reads, Chunk, ChunkRecord, LineEnd;
    if file == "" {
      NothingReads();
    } else {
      ChunkFinished(file);
      ReadsAreOk(file[Chunk(file)..]);
      ReadsStep(file);
    }
  }

  /** A line that fits one read is read as it is. */
  lemma OneLineReads(r: string)
    requires RecordOk(r)
    ensures Reads(r + "\n") == [r] && Closed(r + "\n")
  {
    var line := r + "\n";
    LineEndIs(line, |r|);
    if |r| < RECORD_MAX {
      assert Chunk(line) == |line| && line[..|r|] == r && line[|line|..] == "";
      assert Reads("") == [];
    } else {
      assert Chunk(line) == RECORD_MAX && line[..RECORD_MAX] == r && line[RECORD_MAX..] == "\n";
      NewlineReads();
    }
  }

  lemma NewlineReads()
    ensures Reads("\n") == [] && OpenTail("\n") == ""
  {
    LineEndIs("\n", 0);
    assert Chunk("\n") == 1 && "\n"[1..] == "" && "\n"[..0] == "";
    assert Reads("") == [];
  }

  /** An open file is a closed one and an open line. */
  lemma {:induction false} OpenSplit(file: string) returns (before: string)
    ensures file == before + OpenTail(file) && Closed(before)
    ensures |OpenTail(file)| < RECORD_MAX && forall k | 0 <= k < |OpenTail(file)| :: OpenTail(file)[k] != '\n'
    decreases |file|
  {
    hide Reads, OpenTail, Chunk, FirstRead, ChunkRecord, LineEnd, Finished;
    if file == "" {
      NothingReads();
      before := "";
    } else if Chunk(file) < |file| {
      TailStep(file);
      var rest := file[Chunk(file)..];
      var b := OpenSplit(rest);
      before := file[..Chunk(file)] + b;
      assert file == file[..Chunk(file)] + rest;
      FirstChunkCloses(file);
      ReadsOfMore(file[..Chunk(file)], b);
      Grouped(file[..Chunk(file)], b, OpenTail(rest));
    } else {
      WholeChunk(file);
      NothingReads();
      before := if OpenTail(file) == "" then file else "";
    }
  }

  lemma WholeChunk(file: string)
    requires |file| > 0 && Chunk(file) == |file|
    ensures OpenTail(file) != "" ==>
      OpenTail(file) == file && |file| < RECORD_MAX && forall k | 0 <= k < |file| :: file[k] != '\n'
  {
    BeforeLineEnd(file);
  }

  lemma FirstChunkCloses(file: string)
    requires |file| > 0 && Chunk(file) < |file|
    ensures Closed(file[..Chunk(file)])
  {
    ChunkFinished(file);
    BeforeLineEnd(file);
    var c := file[..Chunk(file)];
    if c[|c| - 1] == '\n' {
      LineEndIs(c, |c| - 1);
    } else {
      LineEndAtLeast(c, |c|);
    }
  }

  /** An open line of its own. */
  lemma TailReads(t: string)
    requires 0 < |t| < RECORD_MAX && forall k | 0 <= k < |t| :: t[k] != '\n'
    ensures Reads(t) == [t]
  {
    LineEndIs(t, |t|);
    assert Chunk(t) == |t| && t[..|t|] == t && t[|t|..] == "";
    assert Reads("") == [];
  }

  /** The reads of a line that two of them take at most. */
  function Pieces(line: string): seq<string> {
    if |line| <= RECORD_MAX then [line] else [line[..RECORD_MAX], line[RECORD_MAX..]]
  }

  /** What is appended to an open line continues it. */
  lemma ContinuedReads(t: string, r: string)
    requires 0 < |t| < RECORD_MAX && (forall k | 0 <= k < |t| :: t[k] != '\n') && RecordOk(r)
    ensures Reads(t + (r + "\n")) == Pieces(t + r)
  {
    hide Reads;
    Grouped(t, r, "\n");
    if |t| + |r| <= RECORD_MAX {
      OneLineReads(t + r);
    } else {
      LongLineReads(t + r);
    }
  }

  /** A line that takes two reads. */
  lemma LongLineReads(line: string)
    requires RECORD_MAX < |line| <= 2 * RECORD_MAX && forall k | 0 <= k < |line| :: line[k] != '\n'
    ensures Reads(line + "\n") == Pieces(line)
  {
    hide Reads, FirstRead, Chunk, RecordOk, LineEnd, OpenTail, Closed, Cut;
    var text, rest := line + "\n", line[RECORD_MAX..];
    LongLineStarts(line);
    ReadsStep(text);
    OneLineReads(rest);
    assert Reads(text) == [line[..RECORD_MAX]] + [rest];
  }

  lemma LongLineStarts(line: string)
    requires RECORD_MAX < |line| && forall k | 0 <= k < |line| :: line[k] != '\n'
    ensures Chunk(line + "\n") == RECORD_MAX && FirstRead(line + "\n") == [line[..RECORD_MAX]]
    ensures (line + "\n")[RECORD_MAX..] == line[RECORD_MAX..] + "\n"
    ensures |line| <= 2 * RECORD_MAX ==> RecordOk(line[RECORD_MAX..])
  {
    LineEndIs(line + "\n", |line|);
    assert (line + "\n")[..RECORD_MAX] == line[..RECORD_MAX];
  }

  /** Appending a record is reading it back exactly when the file is closed and the record has no line end inside. */
  lemma AppendedReads(file: string, r: string)
    requires 0 < |r| <= RECORD_MAX
    ensures Reads(file + r + "\n") == Reads(file) + [r] <==> Closed(file) && RecordOk(r)
    ensures RecordOk(r) ==> (Closed(file) ==> Closed(file + r + "\n"))
  {
    assert file + r + "\n" == file + (r + "\n");
    if !RecordOk(r) {
      ReadsAreOk(file + r + "\n");
      assert (Reads(file) + [r])[|Reads(file)|] == r;
    } else if Closed(file) {
      ReadsOfMore(file, r + "\n");
      OneLineReads(r);
    } else {
      OpenIsNotReadBack(file, r);
    }
  }

  /** A record appended to an open file does not become one of its own: the record of the open line leaves, and
      that line is read together with what follows it. */
  lemma OpenIsContinued(file: string, r: string)
    requires !Closed(file) && RecordOk(r)
    ensures var n := |Reads(file)|;
      && n > 0 && Reads(file)[n - 1] == OpenTail(file)
      && Reads(file + r + "\n") == Reads(file)[..n - 1] + Pieces(OpenTail(file) + r)
    ensures 0 < |OpenTail(file)| < RECORD_MAX
  {
    hide Reads, OpenTail, LineEnd, Pieces;
    var t := OpenTail(file);
    Grouped(file, r, "\n");
    var before := OpenSplit(file);
    ReadsOfMore(before, t);
    ReadsOfMore(before, t + (r + "\n"));
    TailReads(t);
    Grouped(before, t, r + "\n");
    ContinuedReads(t, r);
  }

  lemma OpenIsNotReadBack(file: string, r: string)
    requires !Closed(file) && RecordOk(r)
    ensures Reads(file + (r + "\n")) != Reads(file) + [r]
  {
    assert 0 < |r| <= RECORD_MAX;
    hide Reads, OpenTail, RecordOk;
    OpenIsContinued(file, r);
    Grouped(file, r, "\n");
    var n, t := |Reads(file)|, OpenTail(file);
    assert (Reads(file) + [r])[n - 1] == t;
    assert (Reads(file)[..n - 1] + Pieces(t + r))[n - 1] == Pieces(t + r)[0];
    assert |Pieces(t + r)[0]| > |t|;
  }

  /** A new record is lost with the open line, unless the line is cut to just this record. */
  lemma OpenLosesRecord(file: string, r: string)
    requires !Closed(file) && RecordOk(r) && r !in Reads(file)
    ensures r in Reads(file + r + "\n") <==> Cut(OpenTail(file) + r) == r
  {
    assert 0 < |r| <= RECORD_MAX;
    hide Reads, OpenTail, RecordOk;
    OpenIsContinued(file, r);
    var n, t := |Reads(file)|, OpenTail(file);
    var b := Reads(file)[..n - 1];
    assert r !in b;
    AmongPieces(t, r);
    hide Pieces, Cut;
    assert r in b + Pieces(t + r) <==> r in Pieces(t + r);
  }

  /** When a new record is among those of the file it was appended to. */
  lemma NewRecordIsRead(file: string, r: string)
    requires r !in Reads(file) && 0 < |r| <= RECORD_MAX
    ensures r in Reads(file + r + "\n") <==> RecordOk(r) && (Closed(file) || Cut(OpenTail(file) + r) == r)
  {
    hide OpenTail, Reads, Cut, RecordOk;
    AppendedReads(file, r);
    if !RecordOk(r) {
      ReadsAreOk(file + r + "\n");
    } else if Closed(file) {
      assert (Reads(file) + [r])[|Reads(file)|] == r;
    } else {
      OpenLosesRecord(file, r);
    }
  }

  lemma AmongPieces(t: string, r: string)
    requires 0 < |t| < RECORD_MAX && |r| <= RECORD_MAX
    ensures r in Pieces(t + r) <==> Cut(t + r) == r
  {
    var p := Pieces(t + r);
    assert p[0] == Cut(t + r);
    assert forall k | 1 <= k < |p| :: |p[k]| < |r|;
  }

  /** What compaction writes is read back. */
  lemma {:induction false} WrittenReads(records: seq<string>)
    requires forall k | 0 <= k < |records| :: RecordOk(records[k])
    ensures Reads(Written(records)) == records && Closed(Written(records))
  {
    hide Reads, OpenTail;
    if records == [] {
      NothingReads();
    } else {
      var n := |records| - 1;
      WrittenReads(records[..n]);
      AppendedReads(Written(records[..n]), records[n]);
      assert Written(records) == Written(records[..n]) + records[n] + "\n";
      hide Written, RecordOk;
      assert records == records[..n] + [records[n]];
    }
  }

  /** What is read of a line: all of it if that is 255 characters at most, nothing of a blank one; of a longer line the
      first 255 characters and then what is read of the others. */
  lemma ReadsOfLine(line: string, rest: string)
    requires forall k | 0 <= k < |line| :: line[k] != '\n'
    ensures |line| < 255 ==> Reads(line + ("\n" + rest)) == (if line == "" then [] else [line]) + Reads(rest)
    ensures |line| >= 255 ==> Reads(line + ("\n" + rest)) == [line[..255]] + Reads(line[255..] + ("\n" + rest))
  {
    var file := line + ("\n" + rest);
    LineEndIs(file, |line|);
    if |line| < 255 {
      assert file[..|line|] == line && file[|line| + 1..] == rest;
    } else {
      assert file[..255] == line[..255] && file[255..] == line[255..] + ("\n" + rest);
    }
  }
}
