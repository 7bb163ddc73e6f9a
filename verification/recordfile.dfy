/** Line files of short text records, as the ignore store writes them and reads them back. */
module RecordFile {

  const OS_FLSIZE: nat := 256

  /** A record holds what snprintf and fgets leave of a line: at most 255 characters. */
  const RECORD_MAX: nat := OS_FLSIZE - 1

  function Cut(line: string): (r: string)
    ensures |r| <= RECORD_MAX && r <= line
  {
    if |line| <= RECORD_MAX then line else line[..RECORD_MAX]
  }

  /** The length of the first line, its newline not counted. */
  function LineEnd(file: string): (n: nat)
    ensures n <= |file|
    ensures n < |file| ==> file[n] == '\n'
  {
    if file == "" || file[0] == '\n' then 0 else 1 + LineEnd(file[1..])
  }

  lemma {:induction false} BeforeLineEnd(file: string)
    ensures forall k | 0 <= k < LineEnd(file) :: file[k] != '\n'
  {
    if file != "" && file[0] != '\n' {
      BeforeLineEnd(file[1..]);
    }
  }

  lemma LineEndIs(file: string, n: nat)
    requires n <= |file| && (forall k | 0 <= k < n :: file[k] != '\n') && (n < |file| ==> file[n] == '\n')
    ensures LineEnd(file) == n
  {
    if n > 0 {
      LineEndIs(file[1..], n - 1);
    }
  }

  /** What is left of a non-empty file after its first line. */
  function AfterLine(file: string): (rest: string)
    requires |file| > 0
    ensures |rest| < |file|
  {
    Rest(file, LineEnd(file))
  }

  function Rest(file: string, n: nat): (rest: string)
    requires n <= |file| && |file| > 0
    ensures |rest| < |file|
  {
    if n < |file| then file[n + 1..] else ""
  }

  function FirstRecord(file: string): string {
    Cut(file[..LineEnd(file)])
  }

  /** The records of a file: the start of every line that is not blank. */
  function Records(file: string): seq<string>
    decreases |file|
  {
    if file == "" then []
    else (if FirstRecord(file) == "" then [] else [FirstRecord(file)]) + Records(AfterLine(file))
  }

  function LineCount(file: string): nat
    decreases |file|
  {
    if file == "" then 0 else 1 + LineCount(AfterLine(file))
  }

  /** The last line is ended. */
  predicate Complete(file: string) {
    file == "" || file[|file| - 1] == '\n'
  }

  predicate RecordOk(r: string) {
    0 < |r| <= RECORD_MAX && forall k | 0 <= k < |r| :: r[k] != '\n'
  }

  function Written(records: seq<string>): string {
    if records == [] then "" else Written(records[..|records| - 1]) + records[|records| - 1] + "\n"
  }

  lemma {:induction false} RecordsAreOk(file: string)
    ensures forall k | 0 <= k < |Records(file)| :: RecordOk(Records(file)[k])
    decreases |file|
  {
    if file != "" {
      BeforeLineEnd(file);
      RecordsAreOk(AfterLine(file));
    }
  }

  /** A first line that is ended is the first line of whatever is appended to. */
  lemma FirstLineOfMore(file: string, more: string)
    requires LineEnd(file) < |file|
    ensures FirstRecord(file + more) == FirstRecord(file) && AfterLine(file + more) == AfterLine(file) + more
  {
    FirstRecordOfMore(file, more);
    AfterLineOfMore(file, more);
    hide *;
  }

  lemma FirstRecordOfMore(file: string, more: string)
    requires LineEnd(file) < |file|
    ensures FirstRecord(file + more) == FirstRecord(file)
  {
    LineEndOfMore(file, more);
    hide LineEnd, Cut;
    var n := LineEnd(file);
    assert (file + more)[..n] == file[..n];
  }

  lemma AfterLineOfMore(file: string, more: string)
    requires LineEnd(file) < |file|
    ensures AfterLine(file + more) == AfterLine(file) + more
  {
    LineEndOfMore(file, more);
    RestOfMore(file, more, LineEnd(file));
    hide LineEnd, Rest;
  }

  lemma RestOfMore(file: string, more: string, n: nat)
    requires n < |file|
    ensures Rest(file + more, n) == Rest(file, n) + more
  {
  }

  lemma LineEndOfMore(file: string, more: string)
    requires LineEnd(file) < |file|
    ensures LineEnd(file + more) == LineEnd(file)
  {
    if file[0] != '\n' {
      LineEndOfMore(file[1..], more);
      assert (file + more)[1..] == file[1..] + more;
    }
  }

  lemma LinesAreEnded(file: string)
    requires file != ""
    ensures Complete(file) ==> LineEnd(file) < |file|
    ensures LineEnd(file) < |file| ==> (Complete(AfterLine(file)) <==> Complete(file))
  {
    BeforeLineEnd(file);
    hide LineEnd;
    var n := LineEnd(file);
    if n + 1 < |file| {
      assert file[n + 1..][|file| - n - 2] == file[|file| - 1];
    }
  }

  lemma {:induction false} RecordsOfMore(file: string, more: string)
    requires Complete(file)
    ensures Records(file + more) == Records(file) + Records(more)
    ensures LineCount(file + more) == LineCount(file) + LineCount(more)
    decreases |file|
  {
    hide AfterLine, FirstRecord;
    if file == "" {
      assert file + more == more;
    } else {
      LinesAreEnded(file);
      FirstLineOfMore(file, more);
      RecordsOfMore(AfterLine(file), more);
      assert Records(file) + Records(more)
          == (if FirstRecord(file) == "" then [] else [FirstRecord(file)]) + (Records(AfterLine(file)) + Records(more));
    }
  }

  lemma OneRecord(r: string)
    requires RecordOk(r)
    ensures Records(r + "\n") == [r] && LineCount(r + "\n") == 1
  {
    LineEndIs(r + "\n", |r|);
    assert (r + "\n")[..|r|] == r && AfterLine(r + "\n") == "";
  }

  /** Without an ended last line, what is appended continues that line: no record is gained by one line. */
  lemma {:induction false} RecordsOfContinued(file: string, r: string)
    requires !Complete(file) && RecordOk(r)
    ensures |Records(file + (r + "\n"))| == |Records(file)|
    ensures LineCount(file + (r + "\n")) == LineCount(file)
    decreases |file|
  {
    hide LineEnd, Cut, AfterLine, FirstRecord;
    if LineEnd(file) < |file| {
      LinesAreEnded(file);
      FirstLineOfMore(file, r + "\n");
      RecordsOfContinued(AfterLine(file), r);
    } else {
      LastLineGoesOn(file, r);
    }
  }

  lemma LastLineGoesOn(file: string, r: string)
    requires !Complete(file) && LineEnd(file) == |file| && RecordOk(r)
    ensures Records(file + (r + "\n")) == [Cut(file + r)] && Records(file) == [Cut(file)]
    ensures LineCount(file + (r + "\n")) == 1 && LineCount(file) == 1
  {
    BeforeLineEnd(file);
    var more := file + (r + "\n");
    assert more == (file + r) + "\n";
    LineEndIs(more, |file + r|);
    hide LineEnd;
    assert more[..|file + r|] == file + r && file[..|file|] == file;
    assert AfterLine(file) == "" && AfterLine(more) == "";
    assert Records("") == [] && LineCount("") == 0;
  }

  /** Appending a record is reading it back exactly when the file ended with a line end and the record
      has none inside. */
  lemma AppendedIsReadBack(file: string, r: string)
    requires 0 < |r| <= RECORD_MAX
    ensures Records(file + r + "\n") == Records(file) + [r] <==> Complete(file) && RecordOk(r)
  {
    if !RecordOk(r) {
      RecordsAreOk(file + r + "\n");
      assert (Records(file) + [r])[|Records(file)|] == r;
    } else if Complete(file) {
      assert file + r + "\n" == file + (r + "\n");
      RecordsOfMore(file, r + "\n");
      OneRecord(r);
    } else {
      assert file + r + "\n" == file + (r + "\n");
      RecordsOfContinued(file, r);
    }
  }

  lemma NothingIsReadBack()
    ensures Records("") == [] && Complete("") && LineCount("") == 0
  {
  }

  lemma EndedIsComplete(file: string)
    ensures Complete(file + "\n")
  {
  }

  /** What was written record by record is read back. */
  lemma {:induction false} WrittenIsReadBack(records: seq<string>)
    requires forall k | 0 <= k < |records| :: RecordOk(records[k])
    ensures Records(Written(records)) == records && Complete(Written(records))
    ensures LineCount(Written(records)) == |records|
  {
    hide Records, LineCount, Complete;
    if records == [] {
      NothingIsReadBack();
    } else {
      var n := |records| - 1;
      WrittenIsReadBack(records[..n]);
      AppendedIsReadBack(Written(records[..n]), records[n]);
      OneRecord(records[n]);
      RecordsOfMore(Written(records[..n]), records[n] + "\n");
      EndedIsComplete(Written(records[..n]) + records[n]);
      assert Written(records) == Written(records[..n]) + (records[n] + "\n");
    }
  }

  /** What is read of a line: its first 255 characters, or nothing of a blank one; a last line may have no end. */
  lemma RecordsOfLine(line: string, rest: string)
    requires forall k | 0 <= k < |line| :: line[k] != '\n'
    ensures var first := if |line| == 0 then [] else [if |line| <= 255 then line else line[..255]];
      && Records(line + ("\n" + rest)) == first + Records(rest)
      && Records(line) == first
  {
    var file := line + ("\n" + rest);
    LineEndIs(file, |line|);
    assert file[..|line|] == line && file[|line| + 1..] == rest;
    if line != "" {
      LineEndIs(line, |line|);
      assert line[..|line|] == line && Records("") == [];
    }
  }
}
