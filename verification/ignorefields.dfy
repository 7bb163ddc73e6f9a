/** The fields of an event that make its record in the ignore list: a rule adds records for the fields it asks to
    ignore and looks for records of the fields it asks to check. */
module IgnoreFields {
  import opened RecordFile

  const IGNORE_FIELDS: nat := 8

  /** The places of data and system name in a record: name, id, dstuser, srcip, dstip, data, system name, location. */
  const DATA: nat := 5
  const SYSTEM_NAME: nat := 6

  const NO_FIELDS: seq<bool> := seq(IGNORE_FIELDS, _ => false)

  type Mask = m: seq<bool> | |m| == IGNORE_FIELDS witness NO_FIELDS

  /** The values of the fields; a missing one is empty. */
  type Fields = v: seq<string> | |v| == IGNORE_FIELDS witness seq(IGNORE_FIELDS, _ => "")

  datatype IgnoreRule = IgnoreRule(ignore: Mask, ckignore: Mask)

  /** The text snprintf makes of the fields of an event, blanks between them. */
  function Joined(fields: seq<string>): string
    requires |fields| > 0
  {
    if |fields| == 1 then fields[0] else fields[0] + " " + Joined(fields[1..])
  }

  /** The separators alone make every line of an event longer than nothing. */
  lemma JoinedIsLong(fields: seq<string>)
    requires |fields| >= 2
    ensures 0 < |Cut(Joined(fields))| <= RECORD_MAX
  {
  }

  /** The chosen fields; the others are left empty. */
  function Chosen(values: Fields, mask: Mask): (fields: Fields)
    ensures forall i | 0 <= i < IGNORE_FIELDS :: fields[i] == if mask[i] then values[i] else ""
  {
    seq(IGNORE_FIELDS, i requires 0 <= i < IGNORE_FIELDS => if mask[i] then values[i] else "")
  }

  /** The fields IGnore takes: data and system name are chosen by the mask for adding. */
  function Checked(rule: IgnoreRule): (mask: Mask)
    ensures forall i | 0 <= i < IGNORE_FIELDS ::
      mask[i] == if i == DATA || i == SYSTEM_NAME then rule.ignore[i] else rule.ckignore[i]
  {
    rule.ckignore[DATA := rule.ignore[DATA]][SYSTEM_NAME := rule.ignore[SYSTEM_NAME]]
  }

  /** What AddtoIGnore adds. */
  function AddedRecord(rule: IgnoreRule, values: Fields): string {
    Cut(Joined(Chosen(values, rule.ignore)))
  }

  /** What IGnore looks for. */
  function CheckedRecord(rule: IgnoreRule, values: Fields): string {
    Cut(Joined(Chosen(values, Checked(rule))))
  }

  /** Where a field starts in the text of all. */
  function Start(fields: seq<string>, i: nat): nat
    requires i < |fields|
  {
    if i == 0 then 0 else |fields[0]| + 1 + Start(fields[1..], i - 1)
  }

  /** At most `room` characters of a text. */
  function Begin(text: string, room: nat): string {
    if |text| <= room then text else text[..room]
  }

  /** The fields are the same, or one is empty and the other begins visibly. */
  predicate SameOrEmpty(a: string, b: string) {
    a == b || (a == "" && b[0] != ' ') || (b == "" && a[0] != ' ')
  }

  /** Every difference starts behind the first `room` characters. */
  predicate DifferBehind(f: seq<string>, g: seq<string>, room: nat)
    requires |f| == |g|
  {
    forall i | 0 <= i < |f| && f[i] != g[i] :: Start(f, i) >= room
  }

  lemma {:induction false} JoinedDiffer(f: seq<string>, g: seq<string>, room: nat)
    requires |f| == |g| > 0 && forall i | 0 <= i < |f| :: SameOrEmpty(f[i], g[i])
    ensures Begin(Joined(f), room) == Begin(Joined(g), room) <==> DifferBehind(f, g, room)
  {
    hide Begin, DifferBehind, SameOrEmpty;
    if f[0] != g[0] {
      DifferAtOnce(f, g, room);
    } else if |f| == 1 {
      assert f == g;
      NoDifference(g, room);
    } else {
      var p, left := |f[0]| + 1, room - |f[0]| - 1;
      DifferLater(f, g, room);
      BeginAfter(f[0] + " ", Joined(f[1..]), room);
      BeginAfter(g[0] + " ", Joined(g[1..]), room);
      if room >= p {
        JoinedDiffer(f[1..], g[1..], left);
      }
    }
  }

  lemma NoDifference(g: seq<string>, room: nat)
    ensures DifferBehind(g, g, room)
  {
  }

  lemma DifferAtOnce(f: seq<string>, g: seq<string>, room: nat)
    requires |f| == |g| > 0 && f[0] != g[0] && SameOrEmpty(f[0], g[0])
    ensures DifferBehind(f, g, room) <==> room == 0
    ensures Begin(Joined(f), room) == Begin(Joined(g), room) <==> room == 0
  {
    assert Start(f, 0) == 0;
    if f[0] == "" {
      FirstDiffers(f, g, room);
    } else {
      FirstDiffers(g, f, room);
    }
  }

  lemma DifferLater(f: seq<string>, g: seq<string>, room: nat)
    requires |f| == |g| > 1 && f[0] == g[0]
    ensures var p := |f[0]| + 1;
      DifferBehind(f, g, room) <==> room < p || DifferBehind(f[1..], g[1..], room - p)
  {
    var p := |f[0]| + 1;
    forall i {:trigger Start(f, i)} | 1 <= i < |f| ensures Start(f, i) == p + Start(f[1..], i - 1) {
    }
    assert forall i {:trigger f[1..][i]} | 0 <= i < |f| - 1 ::
      f[1..][i] == f[i + 1] && g[1..][i] == g[i + 1] && Start(f, i + 1) == p + Start(f[1..], i);
  }

  lemma FirstDiffers(f: seq<string>, g: seq<string>, room: nat)
    requires |f| == |g| > 0 && f[0] == "" && g[0] != "" && g[0][0] != ' '
    ensures Begin(Joined(f), room) == Begin(Joined(g), room) <==> room == 0
  {
    if room > 0 {
      assert Begin(Joined(g), room)[0] == g[0][0];
      if |f| > 1 {
        assert Begin(Joined(f), room)[0] == ' ';
      }
    }
  }

  lemma BeginAfter(p: string, text: string, room: nat)
    ensures Begin(p + text, room) == if room < |p| then p[..room] else p + Begin(text, room - |p|)
    ensures room >= |p| ==> Begin(p + text, room)[|p|..] == Begin(text, room - |p|)
  {
    if room < |p| {
      assert (p + text)[..room] == p[..room];
    }
  }

  /** Of an event without fields that begin with a blank the two rules make one record exactly when every field
      that one of them takes and the other does not is missing or starts after the cut. */
  lemma RecordsOfOneEvent(a: IgnoreRule, b: IgnoreRule, values: Fields)
    requires forall i | 0 <= i < IGNORE_FIELDS && values[i] != "" :: values[i][0] != ' '
    ensures AddedRecord(a, values) == CheckedRecord(b, values)
      <==> forall i | 0 <= i < IGNORE_FIELDS && values[i] != "" && a.ignore[i] != Checked(b)[i] ::
             Start(Chosen(values, a.ignore), i) >= RECORD_MAX
  {
    var f, g := Chosen(values, a.ignore), Chosen(values, Checked(b));
    JoinedDiffer(f, g, RECORD_MAX);
    hide Joined, Start, Chosen, Checked;
    assert forall i {:trigger f[i]} | 0 <= i < IGNORE_FIELDS ::
      f[i] != g[i] <==> values[i] != "" && a.ignore[i] != Checked(b)[i];
  }

  lemma {:induction false} StartAfterNothing(fields: seq<string>, i: nat)
    requires i < |fields| && forall k | 0 <= k < i :: fields[k] == ""
    ensures Start(fields, i) == i
  {
    if i > 0 {
      StartAfterNothing(fields[1..], i - 1);
    }
  }

  /** An event with one field. */
  function OneField(i: nat): Fields {
    seq(IGNORE_FIELDS, k => if k == i then "x" else "")
  }

  /** One rule looks for what the other adds, of every event, exactly when the first checks what the second ignores, and
      ignores data and system name, which are fields 5 and 6, where the second does. */
  lemma RecordsOfAllEvents(a: IgnoreRule, b: IgnoreRule)
    ensures (forall values: Fields :: AddedRecord(a, values) == CheckedRecord(b, values))
      <==> forall i | 0 <= i < IGNORE_FIELDS ::
             a.ignore[i] == if i == 5 || i == 6 then b.ignore[i] else b.ckignore[i]
  {
    if i :| 0 <= i < IGNORE_FIELDS && a.ignore[i] != Checked(b)[i] {
      var values := OneField(i);
      RecordsOfOneEvent(a, b, values);
      StartAfterNothing(Chosen(values, a.ignore), i);
      assert AddedRecord(a, values) != CheckedRecord(b, values);
    } else {
      assert a.ignore == Checked(b);
    }
  }

  /** Two fields that are blanks make the records of rules equal that take only one of them each. */
  lemma BlanksLookAlike(a: IgnoreRule, b: IgnoreRule)
    requires a.ignore == NO_FIELDS[0 := true] && Checked(b) == NO_FIELDS[1 := true]
    ensures var values: Fields := [" ", " ", "", "", "", "", "", ""]; AddedRecord(a, values) == CheckedRecord(b, values)
  {
    var values: Fields := [" ", " ", "", "", "", "", "", ""];
    var f, g := Chosen(values, a.ignore), Chosen(values, Checked(b));
    assert f[1..][0] == "" && g[1..][0] == " " && f[1..][1..] == g[1..][1..];
    assert Joined(f) == " " + " " + ("" + " " + Joined(f[1..][1..]));
    assert Joined(g) == "" + " " + (" " + " " + Joined(g[1..][1..]));
  }
}
