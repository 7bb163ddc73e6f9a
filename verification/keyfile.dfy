/**
 The agent key file: one line `id name ip key` an agent, searched by scanning, extended at its end, and
 blanked in place.
 */
module KeyFiles {
  import opened Wrappers

  const AUTHD_FIRST_ID: nat := 1024

  /** What removal writes over a line, after its id. */
  const MARK: string := " #*#*#*#*#*#*#*#*#*#*#"

  predicate Has(s: string, c: char) {
    exists i :: 0 <= i < |s| && s[i] == c
  }

  /** Where strchr finds a blank, or the length. */
  function BlankAt(s: string): (n: nat)
    ensures n <= |s|
    ensures forall i | 0 <= i < n :: s[i] != ' '
    ensures n < |s| ==> s[n] == ' '
  {
    if s == "" || s[0] == ' ' then 0 else 1 + BlankAt(s[1..])
  }

  lemma BlankAtIs(s: string, n: nat)
    requires n <= |s| && (forall i | 0 <= i < n :: s[i] != ' ') && (n < |s| ==> s[n] == ' ')
    ensures BlankAt(s) == n
  {
  }

  /** The first field of a text, when a blank ends it. */
  function Head(s: string): Option<string> {
    if BlankAt(s) < |s| then Some(s[..BlankAt(s)]) else None
  }

  function Tail(s: string): string
    requires Head(s).Some?
  {
    s[BlankAt(s) + 1..]
  }

  predicate Comment(line: string) {
    line != "" && line[0] == '#'
  }

  function IdOf(line: string): Option<string> {
    if Comment(line) then None else Head(line)
  }

  predicate Blanked(line: string) {
    IdOf(line).Some? && Comment(Tail(line))
  }

  /** The name an entry that is not removed is found by. */
  function NameOf(line: string): Option<string> {
    if IdOf(line).None? || Comment(Tail(line)) then None else Head(Tail(line))
  }

  /** The text up to the first slash. */
  function Unmasked(ip: string): string {
    if ip == "" || ip[0] == '/' then "" else [ip[0]] + Unmasked(ip[1..])
  }

  /** getFullnameById of one line: the name and the address. */
  function FullNameOf(line: string): Option<string> {
    if NameOf(line).None? || Head(Tail(Tail(line))).None? then None
    else Some(NameOf(line).value + "-" + Unmasked(Head(Tail(Tail(line))).value))
  }

  /** CountAgents of one line: it has three blanks and is not removed. */
  predicate Counted(line: string) {
    NameOf(line).Some? && line[0] != ' ' && Head(Tail(Tail(line))).Some?
  }

  predicate Digits(s: string) {
    forall i | 0 <= i < |s| :: '0' <= s[i] <= '9'
  }

  /** A line a buffer of 256 characters holds, whose id is a number, with room for the mark behind the id. */
  predicate WellFormed(line: string) {
    && |line| <= 254 && !Has(line, '\n')
    && (IdOf(line).Some? ==> var id := IdOf(line).value; Digits(id) && |id| <= 8 && HasRoom(line, id))
  }

  predicate HasRoom(line: string, id: string) {
    |id| + |MARK| <= |line|
  }

  /** What removal makes of a line. */
  function Blank(line: string, id: string): (r: string)
    requires HasRoom(line, id)
    ensures |r| == |line|
  {
    id + MARK + line[|id| + |MARK|..]
  }

  /** A removed line keeps its id, and has neither name nor address and does not count. */
  lemma BlankIsBlanked(line: string)
    requires IdOf(line).Some? && HasRoom(line, IdOf(line).value)
    ensures var r := Blank(line, IdOf(line).value);
      && IdOf(r) == IdOf(line) && Blanked(r)
      && NameOf(r) == None && FullNameOf(r) == None && !Counted(r)
  {
    var id := IdOf(line).value;
    var r := Blank(line, id);
    assert r[|id|] == ' ' && r[|id| + 1] == '#';
    BlankAtIs(r, |id|);
    assert r[..|id|] == id && Tail(r)[0] == '#';
    if id == "" {
      assert r[0] == ' ';
    } else {
      assert r[0] == line[0];
    }
  }

  lemma BlankIsWellFormed(line: string)
    requires WellFormed(line) && IdOf(line).Some?
    ensures WellFormed(Blank(line, IdOf(line).value))
  {
    BlankIsBlanked(line);
    var id := IdOf(line).value;
    var r := Blank(line, id);
    forall i | 0 <= i < |r| ensures r[i] != '\n' {
      if i < |id| {
        assert r[i] == line[i];
      } else if i < |id| + |MARK| {
        assert r[i] == MARK[i - |id|];
      } else {
        assert r[i] == line[i];
      }
    }
  }

  // -------------------------------------------------------------------------------------------
  // The file as a whole

  /** The bytes of a file of these lines. */
  function Text(lines: seq<string>): string {
    if lines == [] then "" else lines[0] + "\n" + Text(lines[1..])
  }

  lemma TextOfCons(line: string, rest: seq<string>)
    ensures Text([line] + rest) == (line + "\n") + Text(rest)
    ensures Text([line]) == line + "\n" && Text([]) == ""
  {
    assert ([line] + rest)[1..] == rest && [line][1..] == [];
  }

  lemma {:induction false} TextOfMore(a: seq<string>, b: seq<string>)
    ensures Text(a + b) == Text(a) + Text(b)
  {
    hide Text;
    if a == [] {
      TextOfCons("", []);
      assert a + b == b;
    } else {
      TextOfMore(a[1..], b);
      TextOfCons(a[0], a[1..]);
      TextOfCons(a[0], a[1..] + b);
      assert a == [a[0]] + a[1..] && a + b == [a[0]] + (a[1..] + b);
      Joined(a[0] + "\n", Text(a[1..]), Text(b));
    }
  }

  lemma Joined(a: string, b: string, c: string)
    ensures a + (b + c) == (a + b) + c
  {
  }

  /** The first line with an id, as IDExist finds it. */
  function FirstWith(lines: seq<string>, id: string): (k: Option<nat>)
    ensures k.Some? ==>
      && k.value < |lines| && IdOf(lines[k.value]) == Some(id)
      && forall i | 0 <= i < k.value :: IdOf(lines[i]) != Some(id)
    ensures k.None? ==> forall i | 0 <= i < |lines| :: IdOf(lines[i]) != Some(id)
  {
    if lines == [] then None
    else if IdOf(lines[0]) == Some(id) then Some(0)
    else
      match FirstWith(lines[1..], id)
      case None => None
      case Some(k) => Some(k + 1)
  }

  /** The address book entry of an id, as getFullnameById finds it. */
  function FullName(lines: seq<string>, id: string): Option<string> {
    if lines == [] then None
    else if IdOf(lines[0]) == Some(id) && FullNameOf(lines[0]).Some? then FullNameOf(lines[0])
    else FullName(lines[1..], id)
  }

  predicate NameKnown(lines: seq<string>, name: string) {
    exists i :: 0 <= i < |lines| && NameOf(lines[i]) == Some(name)
  }

  function Agents(lines: seq<string>): nat {
    if lines == [] then 0 else (if Counted(lines[0]) then 1 else 0) + Agents(lines[1..])
  }

  function Removed(lines: seq<string>, id: string): (r: seq<string>)
    requires forall i | 0 <= i < |lines| :: WellFormed(lines[i])
    ensures |r| == |lines|
  {
    match FirstWith(lines, id)
    case None => lines
    case Some(k) => assert WellFormed(lines[k]); lines[k := Blank(lines[k], id)]
  }

  /** Removal changes no other line, so no other agent is looked up differently, no id is forgotten, and one
      agent less is counted if the entry was live. */
  lemma RemovalConcernsOneAgent(lines: seq<string>, id: string)
    requires forall i | 0 <= i < |lines| :: WellFormed(lines[i])
    ensures var r := Removed(lines, id);
      && (forall i | 0 <= i < |r| :: WellFormed(r[i]) && IdOf(r[i]) == IdOf(lines[i]))
      && (forall i | 0 <= i < |r| && IdOf(lines[i]) != Some(id) :: r[i] == lines[i])
      && (forall other | other != id :: FullName(r, other) == FullName(lines, other))
      && (forall i | 0 <= i < |r| && IdOf(lines[i]) != Some(id) && NameOf(lines[i]).Some? ::
        NameKnown(r, NameOf(lines[i]).value))
      && (forall name | NameKnown(r, name) :: NameKnown(lines, name))
      && Agents(r) == Agents(lines) -
           match FirstWith(lines, id) case None => 0 case Some(k) => if Counted(lines[k]) then 1 else 0
  {
    match FirstWith(lines, id)
    case None =>
    case Some(k) =>
      BlankIsBlanked(lines[k]);
      BlankIsWellFormed(lines[k]);
      var r := Removed(lines, id);
      forall other | other != id ensures FullName(r, other) == FullName(lines, other) {
        SameFullName(lines, r, other);
      }
      AgentsUpdated(lines, k, r[k]);
      forall name | NameKnown(r, name) ensures NameKnown(lines, name) {
        var i :| 0 <= i < |r| && NameOf(r[i]) == Some(name);
        assert i != k;
      }
  }

  lemma {:induction false} SameFullName(a: seq<string>, b: seq<string>, id: string)
    requires |a| == |b| && forall i | 0 <= i < |a| :: a[i] == b[i] || (IdOf(a[i]) != Some(id) && IdOf(b[i]) != Some(id))
    ensures FullName(a, id) == FullName(b, id)
  {
    if a != [] {
      SameFullName(a[1..], b[1..], id);
    }
  }

  lemma {:induction false} AgentsUpdated(lines: seq<string>, k: nat, line: string)
    requires k < |lines|
    ensures Agents(lines[k := line])
      == Agents(lines) - (if Counted(lines[k]) then 1 else 0) + (if Counted(line) then 1 else 0)
  {
    if k == 0 {
      assert lines[k := line][1..] == lines[1..];
    } else {
      AgentsUpdated(lines[1..], k - 1, line);
      assert lines[k := line][1..] == lines[1..][k - 1 := line];
    }
  }

  /** The agent itself is gone exactly when no later line is a live entry of the same id. */
  lemma RemovedIsGone(lines: seq<string>, id: string, k: nat)
    requires (forall i | 0 <= i < |lines| :: WellFormed(lines[i])) && FirstWith(lines, id) == Some(k)
    ensures FullName(Removed(lines, id), id) == None
       <==> forall i | k < i < |lines| && IdOf(lines[i]) == Some(id) :: FullNameOf(lines[i]) == None
  {
    var r := Removed(lines, id);
    BlankIsBlanked(lines[k]);
    NoFullName(r, id);
    forall i | k < i < |lines| ensures r[i] == lines[i] {}
    forall i | 0 <= i <= k ensures !(IdOf(r[i]) == Some(id) && FullNameOf(r[i]).Some?) {
      assert i == k || r[i] == lines[i];
    }
  }

  lemma {:induction false} NoFullName(lines: seq<string>, id: string)
    ensures FullName(lines, id) == None
      <==> forall i | 0 <= i < |lines| && IdOf(lines[i]) == Some(id) :: FullNameOf(lines[i]) == None
  {
    if lines != [] {
      NoFullName(lines[1..], id);
      assert FullName(lines, id) == None ==> forall i | 0 < i < |lines| :: lines[i] == lines[1..][i - 1];
    }
  }

  // -------------------------------------------------------------------------------------------
  // Numbers for agents

  /** The number a string of digits stands for. */
  function Value(id: string): nat
    requires Digits(id)
  {
    if id == "" then 0 else Value(id[..|id| - 1]) * 10 + (id[|id| - 1] - '0') as nat
  }

  function Decimal(n: nat): (s: string)
    ensures s != "" && Digits(s)
  {
    var last := '0' + (n % 10) as char;
    if n < 10 then [last] else Decimal(n / 10) + [last]
  }

  lemma {:induction false} DecimalIsValue(n: nat)
    ensures Value(Decimal(n)) == n
  {
    var s := Decimal(n);
    if n >= 10 {
      DecimalIsValue(n / 10);
      assert s[..|s| - 1] == Decimal(n / 10);
    } else {
      assert s[..0] == "";
    }
  }

  lemma {:induction false} DecimalIsShort(n: nat, k: nat)
    requires k >= 1 && n < Power10(k)
    ensures |Decimal(n)| <= k
  {
    if n >= 10 {
      assert k >= 2;
      DecimalIsShort(n / 10, k - 1);
    }
  }

  function Power10(k: nat): nat {
    if k == 0 then 1 else 10 * Power10(k - 1)
  }

  /** A line, live or removed, holds this number. */
  predicate Taken(lines: seq<string>, n: nat)
    requires forall i | 0 <= i < |lines| :: WellFormed(lines[i])
  {
    exists i :: 0 <= i < |lines| && HoldsNumber(lines[i], n)
  }

  predicate HoldsNumber(line: string, n: nat)
    requires WellFormed(line)
  {
    IdOf(line).Some? && Value(IdOf(line).value) == n
  }

  /** No removal gives a number back, and an appended line adds its own. */
  lemma TakenStaysTaken(lines: seq<string>, id: string, n: nat)
    requires forall i | 0 <= i < |lines| :: WellFormed(lines[i])
    ensures forall i | 0 <= i < |lines| :: WellFormed(Removed(lines, id)[i])
    ensures Taken(Removed(lines, id), n) <==> Taken(lines, n)
  {
    RemovalConcernsOneAgent(lines, id);
    var r := Removed(lines, id);
    if Taken(lines, n) {
      var i :| 0 <= i < |lines| && HoldsNumber(lines[i], n);
      assert HoldsNumber(r[i], n);
    }
    if Taken(r, n) {
      var i :| 0 <= i < |r| && HoldsNumber(r[i], n);
      assert HoldsNumber(lines[i], n);
    }
  }

  /** The least number from the first on that no line holds. */
  ghost predicate LeastFree(lines: seq<string>, maxAgents: nat, n: nat)
    requires forall i | 0 <= i < |lines| :: WellFormed(lines[i])
  {
    && AUTHD_FIRST_ID <= n < AUTHD_FIRST_ID + maxAgents && !Taken(lines, n)
    && forall m: nat | AUTHD_FIRST_ID <= m < n :: Taken(lines, m)
  }

  ghost predicate SomeFree(lines: seq<string>, maxAgents: nat)
    requires forall i | 0 <= i < |lines| :: WellFormed(lines[i])
  {
    exists n: nat :: AUTHD_FIRST_ID <= n < AUTHD_FIRST_ID + maxAgents && !Taken(lines, n)
  }

  /** The line OS_AddNewAgent writes. */
  function Entry(id: string, name: string, ip: string, key: string): string {
    id + (" " + (name + (" " + (ip + (" " + key)))))
  }

  /** A field of an entry: not empty, no blanks, no line ends, not the start of a comment. */
  predicate FieldOk(s: string) {
    s != "" && s[0] != '#' && !Has(s, ' ') && !Has(s, '\n')
  }

  lemma EntryIsCounted(id: string, name: string, ip: string, key: string)
    requires FieldOk(id) && FieldOk(name) && FieldOk(ip)
    ensures var line := Entry(id, name, ip, key);
      IdOf(line) == Some(id) && NameOf(line) == Some(name) && Counted(line)
      && FullNameOf(line) == Some(name + "-" + Unmasked(ip))
  {
    hide Head, Tail, Unmasked;
    var last := ip + (" " + key);
    HeadOf(id, name + (" " + last));
    HeadOf(name, last);
    HeadOf(ip, key);
  }

  lemma HeadOf(field: string, rest: string)
    requires FieldOk(field)
    ensures var s := field + (" " + rest);
      Head(s) == Some(field) && Tail(s) == rest && s != "" && s[0] == field[0]
  {
    var s := field + (" " + rest);
    assert forall i | 0 <= i < |field| :: s[i] == field[i];
    BlankAtIs(s, |field|);
    assert s[..|field|] == field && s[|field| + 1..] == rest;
  }

  class KeyFile {
    const maxAgents: nat
    var content: string
    ghost var lines: seq<string>

    ghost predicate Valid()
      reads this
    {
      && 3 < maxAgents < 1_000_000
      && content == Text(lines)
      && forall i | 0 <= i < |lines| :: WellFormed(lines[i])
    }

    constructor (maxAgents: nat, content: string, ghost lines: seq<string>)
      requires 3 < maxAgents < 1_000_000 && content == Text(lines)
      requires forall i | 0 <= i < |lines| :: WellFormed(lines[i])
      ensures Valid() && this.lines == lines && this.maxAgents == maxAgents
    {
      this.maxAgents, this.content, this.lines := maxAgents, content, lines;
    }

    /** One fgets, on a file whose lines fit the buffer. */
    static method ReadLine(unread: string, ghost rest: seq<string>) returns (line: string, after: string)
      requires unread == Text(rest) && rest != [] && WellFormed(rest[0])
      ensures line == rest[0] && after == Text(rest[1..])
    {
      var n := 0;
      assert unread[|rest[0]|] == '\n' && forall i | 0 <= i < |rest[0]| :: unread[i] == rest[0][i] != '\n';
      while unread[n] != '\n'
        invariant n <= |rest[0]|
        decreases |rest[0]| - n
      {
        n := n + 1;
      }
      line := unread[..n];
      after := unread[n + 1..];
    }

    /** IDExist: the position it leaves is the start of the line it found. */
    method IdExist(id: string) returns (found: bool, position: nat)
      requires Valid()
      ensures found <==> FirstWith(lines, id).Some?
      ensures found ==> position == |Text(lines[..FirstWith(lines, id).value])|
    {
      found, position := false, 0;
      var unread := content;
      ghost var k := 0;
      assert lines[0..] == lines;
      while unread != ""
        invariant k <= |lines| && unread == Text(lines[k..]) && position == |Text(lines[..k])|
        invariant !found && forall i | 0 <= i < k :: IdOf(lines[i]) != Some(id)
        decreases |lines| - k
      {
        var line;
        assert lines[k..] != [];
        line, unread := ReadLine(unread, lines[k..]);
        if IdOf(line) == Some(id) {
          return true, position;
        }
        TextGrows(lines, k);
        position := position + |line| + 1;
        k := k + 1;
      }
    }

    /** CountAgents */
    method CountAgents() returns (count: nat)
      requires Valid()
      ensures count == Agents(lines)
    {
      count := 0;
      var unread := content;
      ghost var k := 0;
      assert lines[0..] == lines;
      while unread != ""
        invariant k <= |lines| && unread == Text(lines[k..])
        invariant count + Agents(lines[k..]) == Agents(lines)
        decreases |lines| - k
      {
        var line;
        assert lines[k..] != [];
        line, unread := ReadLine(unread, lines[k..]);
        if Counted(line) {
          count := count + 1;
        }
        k := k + 1;
      }
    }

    /** MapIDToBitArray: one bit for every number, set if a line holds it. */
    method MapIds() returns (bits: array<bool>)
      requires Valid()
      ensures fresh(bits) && bits.Length == maxAgents && Marked(bits[..], lines)
    {
      bits := new bool[maxAgents](_ => false);
      var unread := content;
      ghost var k := 0;
      assert lines[0..] == lines && lines[..0] == [];
      while unread != ""
        invariant k <= |lines| && unread == Text(lines[k..]) && Marked(bits[..], lines[..k])
        decreases |lines| - k
      {
        var line;
        FirstLineWellFormed(lines, k);
        line, unread := ReadLine(unread, lines[k..]);
        ghost var was := bits[..];
        if IdOf(line).Some? {
          var number := Value(IdOf(line).value);
          if AUTHD_FIRST_ID <= number < maxAgents + AUTHD_FIRST_ID {
            bits[number - AUTHD_FIRST_ID] := true;
          }
        }
        MarkedOneMore(lines, k, was, bits[..]);
        k := k + 1;
      }
      assert lines[..k] == lines;
    }

    /** The search of OS_AddNewAgent for a number. */
    method NewNumber() returns (number: Option<nat>)
      requires Valid()
      ensures number.Some? ==> LeastFree(lines, maxAgents, number.value) && 1024 <= number.value < 1024 + maxAgents
      ensures number.None? ==> forall n: nat | AUTHD_FIRST_ID <= n < AUTHD_FIRST_ID + maxAgents :: Taken(lines, n)
    {
      var bits := MapIds();
      var i := 0;
      while i < maxAgents
        invariant i <= maxAgents && forall b: nat | b < i :: bits[..][b]
      {
        if !bits[i] {
          FreeAt(lines, bits[..], i);
          return Some(i + AUTHD_FIRST_ID);
        }
        i := i + 1;
      }
      AllTaken(lines, bits[..]);
      return None;
    }

    /** OS_AddNewAgent; the name, address and id were checked by its callers, the key is the random part. */
    method AddNewAgent(name: string, ip: Option<string>, id: Option<string>, key: string) returns (added: bool)
      requires Valid()
      requires FieldOk(name) && |name| <= 128 && |key| == 64 && !Has(key, '\n')
      requires ip.Some? ==> FieldOk(ip.value) && |ip.value| <= 49
      requires id.Some? ==> FieldOk(id.value) && Digits(id.value) && |id.value| <= 8
      modifies this
      ensures Valid()
      ensures added <==> (Agents(old(lines)) < maxAgents - 3 && (id.Some? || SomeFree(old(lines), maxAgents)))
      ensures !added ==> unchanged(this)
      ensures added ==> |lines| == |old(lines)| + 1 && lines[..|old(lines)|] == old(lines)
      ensures added && id.Some? ==> lines[|old(lines)|] == Entry(id.value, name, ip.GetOr("any"), key)
      ensures added && id.None? ==>
        exists n: nat :: LeastFree(old(lines), maxAgents, n)
          && lines[|old(lines)|] == Entry(Decimal(n), name, ip.GetOr("any"), key)
      ensures Agents(lines) == Agents(old(lines)) + if added then 1 else 0
    {
      hide Text, WellFormed, Taken, Entry, Digits, Has;
      AnyIsField();
      var count := CountAgents();
      if count >= maxAgents - 3 {
        return false;
      }
      var nid;
      if id.None? {
        var number := NewNumber();
        if number.None? {
          return false;
        }
        DecimalIsField(number.value);
        nid := Decimal(number.value);
      } else {
        nid := id.value;
      }
      Append(nid, name, ip.GetOr("any"), key);
      added := true;
    }

    method Append(id: string, name: string, ip: string, key: string)
      requires Valid()
      requires FieldOk(id) && Digits(id) && |id| <= 8 && FieldOk(name) && |name| <= 128 && FieldOk(ip) && |ip| <= 49
      requires |key| == 64 && !Has(key, '\n')
      modifies this
      ensures Valid() && lines == old(lines) + [Entry(id, name, ip, key)] && Agents(lines) == Agents(old(lines)) + 1
    {
      hide WellFormed, Entry;
      var entry := Entry(id, name, ip, key);
      EntryIsWellFormed(id, name, ip, key);
      EntryIsCounted(id, name, ip, key);
      TextOfMore(lines, [entry]);
      AgentsOfMore(lines, entry);
      assert [entry][1..] == [];
      content := content + (entry + "\n");
      lines := lines + [entry];
    }

    /** OS_RemoveAgent without REUSE_ID: the mark is written over the line in place. */
    method RemoveAgent(id: string) returns (removed: bool)
      requires Valid()
      modifies this
      ensures Valid() && lines == Removed(old(lines), id)
      ensures removed <==> FirstWith(old(lines), id).Some?
      ensures |content| == |old(content)|
      ensures removed ==>
        var k := FirstWith(old(lines), id).value;
        var start := |Text(old(lines)[..k])|;
        && start + |old(lines)[k]| <= |content|
        && forall p | 0 <= p < |content| && !(start <= p < start + |old(lines)[k]|) :: content[p] == old(content)[p]
    {
      hide Text, WellFormed, Removed, FirstWith, HasRoom, Blank;
      var position;
      removed, position := IdExist(id);
      RemovedLines(lines, id);
      if !removed {
        return;
      }
      ghost var k := FirstWith(lines, id).value;
      Overwritten(lines, k, id);
      Mark(id, position, lines[k]);
      lines := Removed(lines, id);
    }

    /** The write itself. */
    method Mark(id: string, position: nat, ghost line: string)
      requires HasRoom(line, id) && position + |line| <= |content|
      modifies this`content
      ensures content == old(content)[..position] + (id + MARK) + old(content)[position + |id + MARK|..]
      ensures |content| == |old(content)|
      ensures forall p | 0 <= p < |content| && !(position <= p < position + |line|) :: content[p] == old(content)[p]
    {
      var written := id + MARK;
      content := content[..position] + written + content[position + |written|..];
    }
  }

  lemma RemovedLines(lines: seq<string>, id: string)
    requires forall i | 0 <= i < |lines| :: WellFormed(lines[i])
    ensures match FirstWith(lines, id)
      case None => Removed(lines, id) == lines
      case Some(k) => k < |lines| && HasRoom(lines[k], id) && Removed(lines, id) == lines[k := Blank(lines[k], id)]
    ensures forall i | 0 <= i < |Removed(lines, id)| :: WellFormed(Removed(lines, id)[i])
  {
    RemovalConcernsOneAgent(lines, id);
  }

  lemma FirstLineWellFormed(lines: seq<string>, k: nat)
    requires k < |lines| && forall i | 0 <= i < |lines| :: WellFormed(lines[i])
    ensures WellFormed(lines[k]) && lines[k..] != [] && lines[k..][0] == lines[k] && lines[k..][1..] == lines[k + 1..]
  {
  }

  /** The numbers the first lines hold. */
  ghost predicate Marked(bits: seq<bool>, lines: seq<string>)
    requires forall i | 0 <= i < |lines| :: WellFormed(lines[i])
  {
    forall b: nat | b < |bits| :: bits[b] <==> Taken(lines, AUTHD_FIRST_ID + b)
  }

  lemma TakenByOneMore(lines: seq<string>, k: nat, n: nat)
    requires k < |lines| && forall i | 0 <= i < |lines| :: WellFormed(lines[i])
    ensures Taken(lines[..k + 1], n) <==> Taken(lines[..k], n) || HoldsNumber(lines[k], n)
  {
    if Taken(lines[..k + 1], n) {
      var i :| 0 <= i < k + 1 && HoldsNumber(lines[..k + 1][i], n);
      assert i < k ==> HoldsNumber(lines[..k][i], n);
    }
    if Taken(lines[..k], n) {
      var i :| 0 <= i < k && HoldsNumber(lines[..k][i], n);
      assert HoldsNumber(lines[..k + 1][i], n);
    }
    if HoldsNumber(lines[k], n) {
      assert HoldsNumber(lines[..k + 1][k], n);
    }
  }

  /** An entry whose fields have the lengths their checks allow fits its line. */
  lemma EntryIsWellFormed(id: string, name: string, ip: string, key: string)
    requires FieldOk(id) && Digits(id) && |id| <= 8 && FieldOk(name) && |name| <= 128 && FieldOk(ip) && |ip| <= 49
    requires |key| == 64 && !Has(key, '\n')
    ensures WellFormed(Entry(id, name, ip, key))
  {
    EntryIsCounted(id, name, ip, key);
    NoLineEnd(ip, key);
    NoLineEnd(name, ip + (" " + key));
    NoLineEnd(id, name + (" " + (ip + (" " + key))));
  }

  lemma NoLineEnd(field: string, rest: string)
    requires !Has(field, '\n') && !Has(rest, '\n')
    ensures !Has(field + (" " + rest), '\n')
  {
    var s := field + (" " + rest);
    forall i | 0 <= i < |s| ensures s[i] != '\n' {
      if i < |field| {
        assert s[i] == field[i];
      } else if i > |field| {
        assert s[i] == rest[i - |field| - 1];
      }
    }
  }

  lemma {:induction false} AgentsOfMore(lines: seq<string>, line: string)
    ensures Agents(lines + [line]) == Agents(lines) + if Counted(line) then 1 else 0
  {
    if lines == [] {
      assert [] + [line] == [line] && [line][1..] == [];
    } else {
      AgentsOfMore(lines[1..], line);
      assert (lines + [line])[1..] == lines[1..] + [line];
    }
  }

  lemma DecimalIsField(n: nat)
    requires n < 10_000_000
    ensures FieldOk(Decimal(n)) && Digits(Decimal(n)) && |Decimal(n)| <= 7 && Value(Decimal(n)) == n
  {
    DecimalIsValue(n);
    assert Power10(7) == 10_000_000;
    DecimalIsShort(n, 7);
  }

  lemma TextGrows(lines: seq<string>, k: nat)
    requires k < |lines|
    ensures |Text(lines[..k + 1])| == |Text(lines[..k])| + |lines[k]| + 1
  {
    TextOfMore(lines[..k], [lines[k]]);
    assert lines[..k + 1] == lines[..k] + [lines[k]];
    assert [lines[k]][1..] == [];
  }

  /** Writing the mark at the start of a line is replacing the line. */
  lemma Overwritten(lines: seq<string>, k: nat, id: string)
    requires k < |lines| && HasRoom(lines[k], id)
    ensures var start, text := |Text(lines[..k])|, Text(lines);
      && start + |lines[k]| <= |text|
      && text[..start] + (id + MARK) + text[start + |id + MARK|..] == Text(lines[k := Blank(lines[k], id)])
  {
    hide Text;
    var line, blank := lines[k], Blank(lines[k], id);
    TextAround(lines, k);
    TextAround(lines[k := blank], k);
    assert lines[k := blank][..k] == lines[..k] && lines[k := blank][k + 1..] == lines[k + 1..];
    MarkWritten(Text(lines[..k]), line, Text(lines[k + 1..]), id + MARK);
  }

  lemma MarkWritten(before: string, line: string, after: string, w: string)
    requires |w| <= |line|
    ensures var text := before + (line + "\n" + after);
      && |before| + |line| <= |text|
      && text[..|before|] + w + text[|before| + |w|..] == before + ((w + line[|w|..]) + "\n" + after)
  {
    var text := before + (line + "\n" + after);
    assert text[..|before|] == before;
    assert text[|before| + |w|..] == line[|w|..] + "\n" + after;
  }

  /** A file after writing at a position; what goes past the end makes it longer. */
  function WrittenAt(text: string, p: nat, w: string): string
    requires p <= |text|
  {
    text[..p] + w + if p + |w| <= |text| then text[p + |w|..] else ""
  }

  lemma IdIsShorter(line: string)
    ensures IdOf(line).Some? ==> |IdOf(line).value| < |line|
  {
  }

  /** The line end behind an entry survives removal exactly when the entry is long enough for the mark. */
  lemma RemovalStaysInLine(lines: seq<string>, k: nat, id: string)
    requires k < |lines| && IdOf(lines[k]) == Some(id)
    ensures |Text(lines[..k])| <= |Text(lines)|
    ensures var start, after := |Text(lines[..k])|, WrittenAt(Text(lines), |Text(lines[..k])|, id + MARK);
      && start + |lines[k]| < |after|
      && (after[start + |lines[k]|] == '\n' <==> HasRoom(lines[k], id))
  {
    TextAround(lines, k);
    hide Text, IdOf;
    var start, line, text := |Text(lines[..k])|, lines[k], Text(lines);
    assert text[start + |line|] == '\n';
    var after := WrittenAt(text, start, id + MARK);
    if !HasRoom(line, id) {
      IdIsShorter(line);
      assert after[start + |line|] == (id + MARK)[|line|];
    }
  }

  lemma TextAround(lines: seq<string>, k: nat)
    requires k < |lines|
    ensures Text(lines) == Text(lines[..k]) + (lines[k] + "\n" + Text(lines[k + 1..]))
  {
    hide Text;
    TextOfMore(lines[..k], lines[k..]);
    TextOfCons(lines[k], lines[k + 1..]);
    assert lines[..k] + lines[k..] == lines;
    assert lines[k..] == [lines[k]] + lines[k + 1..];
  }

  lemma AnyIsField()
    ensures FieldOk("any") && |"any"| <= 49
  {
  }

  lemma MarkedOneMore(lines: seq<string>, k: nat, was: seq<bool>, bits: seq<bool>)
    requires k < |lines| && forall i | 0 <= i < |lines| :: WellFormed(lines[i])
    requires Marked(was, lines[..k]) && |bits| == |was|
    requires forall b: nat | b < |bits| :: bits[b] <==> was[b] || HoldsNumber(lines[k], AUTHD_FIRST_ID + b)
    ensures Marked(bits, lines[..k + 1])
  {
    hide Taken, HoldsNumber;
    forall b: nat | b < |bits| ensures bits[b] <==> Taken(lines[..k + 1], AUTHD_FIRST_ID + b) {
      TakenByOneMore(lines, k, AUTHD_FIRST_ID + b);
    }
  }

  lemma FreeAt(lines: seq<string>, bits: seq<bool>, i: nat)
    requires forall i | 0 <= i < |lines| :: WellFormed(lines[i])
    requires Marked(bits, lines) && i < |bits| && !bits[i] && forall b: nat | b < i :: bits[b]
    ensures LeastFree(lines, |bits|, i + AUTHD_FIRST_ID)
  {
    hide Taken;
    forall m: nat | AUTHD_FIRST_ID <= m < i + AUTHD_FIRST_ID ensures Taken(lines, m) {
      assert bits[m - AUTHD_FIRST_ID];
    }
  }

  lemma AllTaken(lines: seq<string>, bits: seq<bool>)
    requires forall i | 0 <= i < |lines| :: WellFormed(lines[i])
    requires Marked(bits, lines) && forall b: nat | b < |bits| :: bits[b]
    ensures forall n: nat | AUTHD_FIRST_ID <= n < AUTHD_FIRST_ID + |bits| :: Taken(lines, n)
  {
    hide Taken;
    forall n: nat | AUTHD_FIRST_ID <= n < AUTHD_FIRST_ID + |bits| ensures Taken(lines, n) {
      assert bits[n - AUTHD_FIRST_ID];
    }
  }

  // -------------------------------------------------------------------------------------------
  // Runs of additions and removals

  ghost predicate AllWellFormed(lines: seq<string>) {
    forall i | 0 <= i < |lines| :: WellFormed(lines[i])
  }

  /** One change of the file: an entry is removed, added under a given id, or added under a number that
      was searched for. */
  datatype Change = Remove(id: string) | AddAs(line: string) | AddNew(line: string, number: nat)

  /** What AddNewAgent and RemoveAgent allow. */
  ghost predicate Allowed(lines: seq<string>, maxAgents: nat, c: Change)
    requires AllWellFormed(lines)
  {
    match c
    case Remove(_) => true
    case AddAs(line) => Agents(lines) < maxAgents - 3 && WellFormed(line)
    case AddNew(line, n) =>
      && Agents(lines) < maxAgents - 3 && WellFormed(line)
      && HoldsNumber(line, n) && LeastFree(lines, maxAgents, n)
  }

  ghost function Changed(lines: seq<string>, c: Change): seq<string>
    requires AllWellFormed(lines)
  {
    match c
    case Remove(id) => Removed(lines, id)
    case AddAs(line) => lines + [line]
    case AddNew(line, _) => lines + [line]
  }

  lemma ChangeKeeps(lines: seq<string>, maxAgents: nat, c: Change, n: nat)
    requires AllWellFormed(lines) && Allowed(lines, maxAgents, c)
    ensures AllWellFormed(Changed(lines, c))
    ensures Taken(lines, n) ==> Taken(Changed(lines, c), n)
    ensures c.AddNew? ==> !Taken(lines, c.number) && Taken(Changed(lines, c), c.number)
    ensures Agents(Changed(lines, c)) <= Agents(lines) || Agents(Changed(lines, c)) <= maxAgents - 3
  {
    if c.Remove? {
      TakenStaysTaken(lines, c.id, n);
      RemovalConcernsOneAgent(lines, c.id);
    } else {
      var r := Changed(lines, c);
      AgentsOfMore(lines, c.line);
      assert r[..|lines|] == lines && r[..|lines| + 1] == r;
      TakenByOneMore(r, |lines|, n);
      if c.AddNew? { TakenByOneMore(r, |lines|, c.number); }
    }
  }

  ghost predicate Run(lines: seq<string>, maxAgents: nat, changes: seq<Change>)
    requires AllWellFormed(lines)
    decreases |changes|
  {
    changes == [] ||
    (Allowed(lines, maxAgents, changes[0])
     && (ChangeKeeps(lines, maxAgents, changes[0], 0); Run(Changed(lines, changes[0]), maxAgents, changes[1..])))
  }

  ghost function After(lines: seq<string>, maxAgents: nat, changes: seq<Change>): (r: seq<string>)
    requires AllWellFormed(lines) && Run(lines, maxAgents, changes)
    ensures AllWellFormed(r)
    decreases |changes|
  {
    if changes == [] then lines
    else
      ChangeKeeps(lines, maxAgents, changes[0], 0);
      After(Changed(lines, changes[0]), maxAgents, changes[1..])
  }

  /** A number that a line held once is never handed out again, however entries come and go. */
  lemma {:induction false} NumbersAreNeverReused(lines: seq<string>, maxAgents: nat, changes: seq<Change>, n: nat,
                                                 k: nat)
    requires AllWellFormed(lines) && Run(lines, maxAgents, changes) && Taken(lines, n)
    requires k < |changes| && changes[k].AddNew?
    ensures changes[k].number != n
    decreases |changes|
  {
    ChangeKeeps(lines, maxAgents, changes[0], n);
    if k > 0 {
      NumbersAreNeverReused(Changed(lines, changes[0]), maxAgents, changes[1..], n, k - 1);
    }
  }

  /** So all the numbers handed out in a run are different. */
  lemma {:induction false} NewNumbersDiffer(lines: seq<string>, maxAgents: nat, changes: seq<Change>, j: nat, k: nat)
    requires AllWellFormed(lines) && Run(lines, maxAgents, changes)
    requires j < k < |changes| && changes[j].AddNew? && changes[k].AddNew?
    ensures changes[j].number != changes[k].number
    decreases |changes|
  {
    hide AllWellFormed, Changed, Allowed, Taken;
    ChangeKeeps(lines, maxAgents, changes[0], 0);
    var next := Changed(lines, changes[0]);
    if j == 0 {
      NumbersAreNeverReused(next, maxAgents, changes[1..], changes[0].number, k - 1);
    } else {
      NewNumbersDiffer(next, maxAgents, changes[1..], j - 1, k - 1);
    }
  }

  /** A file never comes to hold more than MAX_AGENTS - 3 counted entries. */
  lemma {:induction false} AgentsStayBounded(lines: seq<string>, maxAgents: nat, changes: seq<Change>)
    requires AllWellFormed(lines) && Run(lines, maxAgents, changes) && Agents(lines) <= maxAgents - 3
    ensures Agents(After(lines, maxAgents, changes)) <= maxAgents - 3
    decreases |changes|
  {
    if changes != [] {
      ChangeKeeps(lines, maxAgents, changes[0], 0);
      AgentsStayBounded(Changed(lines, changes[0]), maxAgents, changes[1..]);
    }
  }

  // -------------------------------------------------------------------------------------------
  // The format of a line

  /** The entry written is the four fields with one blank between them. */
  lemma EntryIsFourFields(id: string, name: string, ip: string, key: string)
    ensures Entry(id, name, ip, key) == id + " " + name + " " + ip + " " + key
  {
  }

  lemma HeadIs(s: string, field: string, rest: string)
    requires !Has(field, ' ')
    ensures s == field + " " + rest <==> Head(s) == Some(field) && Tail(s) == rest
  {
    if Head(s).Some? {
      assert s == s[..BlankAt(s)] + " " + s[BlankAt(s) + 1..];
    }
    if s == field + " " + rest {
      assert forall i | 0 <= i < |field| :: s[i] == field[i];
      BlankAtIs(s, |field|);
      assert s[..|field|] == field && s[|field| + 1..] == rest;
    }
  }

  /** The id of a line is what stands before its first blank, unless the line is a comment. */
  lemma IdOfLine(line: string, id: string)
    requires !Has(id, ' ')
    ensures IdOf(line) == Some(id) <==> !(line != "" && line[0] == '#') && exists rest :: line == id + " " + rest
  {
    if IdOf(line) == Some(id) {
      HeadIs(line, id, Tail(line));
      assert line == id + " " + Tail(line);
    } else if rest :| line == id + " " + rest {
      HeadIs(line, id, rest);
    }
  }

  /** A line that begins with a comment sign, or has no blank, has no id. */
  lemma NoIdInLine(line: string)
    ensures IdOf(line) == None <==> (line != "" && line[0] == '#') || !Has(line, ' ')
  {
    if BlankAt(line) < |line| {
      assert line[BlankAt(line)] == ' ';
    }
  }

  /** An agent is found by the name behind its id, unless the line is removed, and counts if a third blank follows and
      the id is not empty; its address goes to the first slash. */
  lemma AgentOfLine(id: string, name: string, ip: string, rest: string)
    requires !Has(id, ' ') && !Has(name, ' ') && !Has(ip, ' ') && !(id != "" && id[0] == '#')
    ensures var line, removed := id + " " + (name + " " + (ip + " " + rest)), name != "" && name[0] == '#';
      && NameOf(line) == (if removed then None else Some(name))
      && (Counted(line) <==> !removed && id != "")
      && FullNameOf(line) == if removed then None else Some(name + "-" + Unmasked(ip))
  {
    var last := ip + " " + rest;
    var middle := name + " " + last;
    var line := id + " " + middle;
    HeadIs(line, id, middle);
    HeadIs(middle, name, last);
    HeadIs(last, ip, rest);
    assert id != "" ==> line[0] == id[0] && id[0] != ' ' by { assert id != "" ==> !Has(id, ' '); }
    assert id == "" ==> line[0] == ' ';
    assert name != "" ==> middle[0] == name[0];
    assert name == "" ==> middle[0] == ' ';
    hide Head, Tail, Unmasked, Has;
  }

  lemma {:induction false} AddressToSlash(ip: string, rest: string)
    requires !Has(ip, '/')
    ensures Unmasked(ip) == ip && Unmasked(ip + ("/" + rest)) == ip
  {
    if ip == "" {
      assert ip + ("/" + rest) == "/" + rest;
    } else {
      assert forall i | 0 <= i < |ip| - 1 :: ip[1..][i] == ip[i + 1];
      AddressToSlash(ip[1..], rest);
      assert (ip + ("/" + rest))[1..] == ip[1..] + ("/" + rest);
    }
  }
}
