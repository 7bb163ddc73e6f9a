/**
 Where a loaded rule is put, told by the fields of the rules: for each node of a sibling list that the walk comes to.
 */
module RulePlaces {
  import opened RuleTrees

  lemma GrownAt(mode: Mode, x: Rule, f: seq<Tree>, i: nat)
    requires 0 < i < |f|
    ensures var g := Grown(mode, x, f);
      g[i] == if EndsAt(mode, x, f[0]) then f[i] else Grown(mode, x, f[1..])[i - 1]
  {
    GrownStep(mode, x, f);
    hide Grown, Inserted, Takes;
  }

  /** A rule that depends on a group goes under every rule of another signature whose group the word match accepts. */
  lemma {:induction false} GroupPlaces(accepts: string -> bool, x: Rule, f: seq<Tree>, i: nat)
    requires i < |f|
    ensures var kids := Grown(ByGroup(accepts), x, f[i].kids);
      Grown(ByGroup(accepts), x, f)[i] ==
        Node(f[i].rule, if accepts(f[i].rule.group) && f[i].rule.sigid != x.sigid then Inserted(kids, x) else kids)
  {
    if i > 0 {
      GrownAt(ByGroup(accepts), x, f, i);
      GroupPlaces(accepts, x, f[1..], i - 1);
    }
  }

  /** One that depends on a level goes under every rule of another signature whose coded level is at least that. */
  lemma {:induction false} LevelPlaces(level: int, x: Rule, f: seq<Tree>, i: nat)
    requires i < |f|
    ensures var r, kids := f[i].rule, Grown(ByLevel(level), x, f[i].kids);
      var coded := (if r.configured == 0 then 99 else r.configured) * (if r.accuracy then 100 else 1);
      Grown(ByLevel(level), x, f)[i] ==
        Node(r, if coded >= level && r.sigid != x.sigid then Inserted(kids, x) else kids)
  {
    if i > 0 {
      GrownAt(ByLevel(level), x, f, i);
      LevelPlaces(level, x, f[1..], i - 1);
    }
  }

  /** One that depends on a signature goes under the first rule of that signature, which is the last that the walk
      comes to in this list; below the rules before it the walk goes on alike. */
  lemma {:induction false} SidPlaces(sid: int, x: Rule, f: seq<Tree>, i: nat)
    requires i < |f|
    ensures Grown(BySid(sid), x, f)[i] ==
      if forall j | 0 <= j < i :: f[j].rule.sigid != sid then
        Node(f[i].rule, if f[i].rule.sigid == sid then Inserted(f[i].kids, x) else Grown(BySid(sid), x, f[i].kids))
      else f[i]
  {
    if i == 0 {
      SidFirst(sid, x, f);
    } else {
      GrownAt(BySid(sid), x, f, i);
      SidEnds(sid, x, f[0]);
      hide *;
      if f[0].rule.sigid != sid {
        SidPlaces(sid, x, f[1..], i - 1);
        NoSidBefore(f, i, sid);
      }
    }
  }

  lemma SidEnds(sid: int, x: Rule, t: Tree)
    ensures EndsAt(BySid(sid), x, t) <==> t.rule.sigid == sid
  {
  }

  lemma SidFirst(sid: int, x: Rule, f: seq<Tree>)
    requires f != []
    ensures Grown(BySid(sid), x, f)[0] ==
      if f[0].rule.sigid == sid then Node(f[0].rule, Inserted(f[0].kids, x))
      else Node(f[0].rule, Grown(BySid(sid), x, f[0].kids))
  {
    hide Inserted;
  }

  /** One that depends on a category goes under the first top rule of that category, and nowhere else. */
  lemma {:induction false} CategoryPlaces(category: int, x: Rule, f: seq<Tree>, i: nat)
    requires i < |f|
    ensures Grown(ByCategory(category), x, f)[i] ==
      if f[i].rule.category == category && forall j | 0 <= j < i :: f[j].rule.category != category
      then Node(f[i].rule, Inserted(f[i].kids, x)) else f[i]
  {
    if i > 0 {
      GrownAt(ByCategory(category), x, f, i);
      if f[0].rule.category != category {
        CategoryPlaces(category, x, f[1..], i - 1);
        NoCategoryBefore(f, i, category);
      }
    }
  }

  lemma NoSidBefore(f: seq<Tree>, i: nat, sid: int)
    requires 0 < i < |f| && f[0].rule.sigid != sid
    ensures f[1..][i - 1] == f[i]
    ensures (forall j | 0 <= j < i :: f[j].rule.sigid != sid)
      <==> forall j | 0 <= j < i - 1 :: f[1..][j].rule.sigid != sid
  {
    assert forall j {:trigger f[j]} | 0 < j < i :: f[j] == f[1..][j - 1];
  }

  lemma NoCategoryBefore(f: seq<Tree>, i: nat, category: int)
    requires 0 < i < |f| && f[0].rule.category != category
    ensures f[1..][i - 1] == f[i]
    ensures (forall j | 0 <= j < i :: f[j].rule.category != category)
      <==> forall j | 0 <= j < i - 1 :: f[1..][j].rule.category != category
  {
    assert forall j {:trigger f[j]} | 0 < j < i :: f[j] == f[1..][j - 1];
  }
}
