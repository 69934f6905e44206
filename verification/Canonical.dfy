/** Collapsing a cluster of rows into one canonical row. */
module Canonical {
  import opened Collections
  import opened Fields
  import opened Strings

  /** Python's text functions, uninterpreted: `strip`, `repr` of a list value, the strong-key
      normaliser, and the accent-folded token set of a name. */
  datatype Texts = Texts(strip: string -> string, show: seq<Field> -> string,
                         normKey: string -> string, nameTokens: string -> set<string>)

  /** The completeness score: present beats absent, then length, then the printed value. */
  datatype Score = Score(rank: nat, length: nat, tie: string)

  function ScoreOf(tx: Texts, f: Field): Score {
    match f.value
    case Null => Score(0, 0, "")
    case Text(s) => Score(1, |tx.strip(s)|, s)
    case Rows(subs) => Score(1, |subs|, tx.show(subs))
    case _ => Score(1, 1, Printed(f.value))
  }

  predicate ScoreLe(a: Score, b: Score) {
    a.rank < b.rank ||
    (a.rank == b.rank && (a.length < b.length || (a.length == b.length && LexLe(a.tie, b.tie))))
  }

  lemma ScoreOrder(a: Score, b: Score, c: Score)
    ensures ScoreLe(a, b) || ScoreLe(b, a)
    ensures ScoreLe(a, b) && ScoreLe(b, a) ==> a == b
    ensures ScoreLe(a, b) && ScoreLe(b, c) ==> ScoreLe(a, c)
  {
    LexTotal(a.tie, b.tie);
    if ScoreLe(a, b) && ScoreLe(b, a) {
      LexAntisymmetric(a.tie, b.tie);
    }
    if LexLe(a.tie, b.tie) && LexLe(b.tie, c.tie) {
      LexTransitive(a.tie, b.tie, c.tie);
    }
  }

  /** Python's `max(candidates, key=score)`: the first of the best. */
  function PickCanonical(tx: Texts, candidates: seq<Field>): (best: Field)
    requires candidates != []
    ensures best in candidates
  {
    var last := candidates[|candidates| - 1];
    if |candidates| == 1 then last
    else
      var best := PickCanonical(tx, candidates[..|candidates| - 1]);
      if ScoreLe(ScoreOf(tx, last), ScoreOf(tx, best)) then best else last
  }

  lemma {:induction false} PickedIsBest(tx: Texts, candidates: seq<Field>)
    requires candidates != []
    ensures forall f :: f in candidates ==> ScoreLe(ScoreOf(tx, f), ScoreOf(tx, PickCanonical(tx, candidates)))
  {
    var last := candidates[|candidates| - 1];
    ScoreOrder(ScoreOf(tx, last), ScoreOf(tx, last), ScoreOf(tx, last));
    if |candidates| > 1 {
      var front := candidates[..|candidates| - 1];
      PickedIsBest(tx, front);
      var best := PickCanonical(tx, front);
      assert candidates == front + [last];
      forall f | f in candidates ensures ScoreLe(ScoreOf(tx, f), ScoreOf(tx, PickCanonical(tx, candidates))) {
        ScoreOrder(ScoreOf(tx, last), ScoreOf(tx, best), ScoreOf(tx, last));
        ScoreOrder(ScoreOf(tx, f), ScoreOf(tx, best), ScoreOf(tx, last));
      }
    }
  }

  // ---- What the pick is worth, told by values ------------------------------

  /** A present value is never given up for an absent one. */
  lemma PresentBeatsAbsent(tx: Texts, candidates: seq<Field>)
    requires exists f :: f in candidates && f.value != Null
    ensures candidates != [] && PickCanonical(tx, candidates).value != Null
  {
    PickedIsBest(tx, candidates);
  }

  /** No text has a longer stripped text than a picked one, and none as long comes after it. */
  lemma LongestTextWins(tx: Texts, candidates: seq<Field>, f: Field)
    requires f in candidates && f.value.Text? && PickCanonical(tx, candidates).value.Text?
    ensures var kept := PickCanonical(tx, candidates).value.text;
      && |tx.strip(f.value.text)| <= |tx.strip(kept)|
      && (|tx.strip(f.value.text)| == |tx.strip(kept)| ==> LexLe(f.value.text, kept))
  {
    PickedIsBest(tx, candidates);
  }

  /** No list has more sub-fields than a picked one, and none with as many is shown after it. */
  lemma LongestListWins(tx: Texts, candidates: seq<Field>, f: Field)
    requires f in candidates && f.value.Rows? && PickCanonical(tx, candidates).value.Rows?
    ensures var kept := PickCanonical(tx, candidates).value.subs;
      && |f.value.subs| <= |kept|
      && (|f.value.subs| == |kept| ==> LexLe(tx.show(f.value.subs), tx.show(kept)))
  {
    PickedIsBest(tx, candidates);
  }

  /** Numbers and truth values are told apart by how they print, and weigh one character: a longer text
      or list is kept over them, an empty one is not. */
  lemma ScalarsWeighOne(tx: Texts, candidates: seq<Field>, f: Field)
    requires f in candidates
    ensures var v, kept := f.value, PickCanonical(tx, candidates).value;
      && ((v.Number? || v.Boolean?) && (kept.Number? || kept.Boolean?) ==> LexLe(Printed(v), Printed(kept)))
      && ((v.Number? || v.Boolean?) && kept.Text? ==>
            |tx.strip(kept.text)| > 1 || (|tx.strip(kept.text)| == 1 && LexLe(Printed(v), kept.text)))
      && ((v.Number? || v.Boolean?) && kept.Rows? ==>
            |kept.subs| > 1 || (|kept.subs| == 1 && LexLe(Printed(v), tx.show(kept.subs))))
      && (v.Text? && (kept.Number? || kept.Boolean?) ==>
            |tx.strip(v.text)| < 1 || (|tx.strip(v.text)| == 1 && LexLe(v.text, Printed(kept))))
      && (v.Rows? && (kept.Number? || kept.Boolean?) ==>
            |v.subs| < 1 || (|v.subs| == 1 && LexLe(tx.show(v.subs), Printed(kept))))
  {
    PickedIsBest(tx, candidates);
  }

  /** A text and a list are compared by length. */
  lemma LongerOfBothWins(tx: Texts, candidates: seq<Field>, f: Field)
    requires f in candidates
    ensures var v, kept := f.value, PickCanonical(tx, candidates).value;
      && (v.Text? && kept.Rows? ==> |tx.strip(v.text)| <= |kept.subs|)
      && (v.Rows? && kept.Text? ==> |v.subs| <= |tx.strip(kept.text)|)
  {
    PickedIsBest(tx, candidates);
  }

  /** Of candidates with the value that is kept, the first is. */
  lemma {:induction false} FirstOfEqualsWins(tx: Texts, candidates: seq<Field>) returns (k: nat)
    requires candidates != []
    ensures k < |candidates| && candidates[k] == PickCanonical(tx, candidates)
    ensures forall j :: 0 <= j < k ==> candidates[j].value != candidates[k].value
  {
    var front, last := candidates[..|candidates| - 1], candidates[|candidates| - 1];
    k := |front|;
    if |candidates| > 1 {
      var at := FirstOfEqualsWins(tx, front);
      var best := PickCanonical(tx, front);
      PickedIsBest(tx, front);
      assert forall j :: 0 <= j < |front| ==> candidates[j] == front[j] && front[j] in front;
      if ScoreLe(ScoreOf(tx, last), ScoreOf(tx, best)) {
        k := at;
      }
    }
  }

  /** All sub-fields of a cluster, row by row. */
  function AllSubs(rows: seq<Field>): seq<Field> {
    if |rows| == 0 then [] else AllSubs(rows[..|rows| - 1]) + Subs(rows[|rows| - 1])
  }

  lemma {:induction false} AllSubsAre(rows: seq<Field>)
    ensures forall f :: f in AllSubs(rows) <==> exists r :: r in rows && f in Subs(r)
  {
    if rows != [] {
      var front, last := rows[..|rows| - 1], rows[|rows| - 1];
      AllSubsAre(front);
      assert rows == front + [last];
      forall f ensures f in AllSubs(rows) <==> exists r :: r in rows && f in Subs(r) {
        if f in Subs(last) {
          assert last in rows;
        }
        if f in AllSubs(front) {
          var r :| r in front && f in Subs(r);
          assert r in rows;
        }
        if r :| r in rows && f in Subs(r) {
          assert r in front || r == last;
        }
      }
    }
  }

  /** Sub-field names in the order first seen. */
  function Names(subs: seq<Field>): seq<string> {
    if |subs| == 0 then []
    else
      var names := Names(subs[..|subs| - 1]);
      var name := subs[|subs| - 1].name;
      if name in names then names else names + [name]
  }

  function Named(subs: seq<Field>, name: string): seq<Field> {
    if |subs| == 0 then []
    else
      var front := Named(subs[..|subs| - 1], name);
      if subs[|subs| - 1].name == name then front + [subs[|subs| - 1]] else front
  }

  lemma {:induction false} NamedAre(subs: seq<Field>, name: string)
    ensures forall f :: f in Named(subs, name) <==> f in subs && f.name == name
    ensures Named(subs, name) != [] <==> name in Names(subs)
  {
    if subs != [] {
      var front := subs[..|subs| - 1];
      NamedAre(front, name);
      assert subs == front + [subs[|subs| - 1]];
    }
  }

  lemma {:induction false} NamesAreDistinct(subs: seq<Field>)
    ensures forall i, j :: 0 <= i < j < |Names(subs)| ==> Names(subs)[i] != Names(subs)[j]
    ensures forall name :: name in Names(subs) <==> exists f :: f in subs && f.name == name
  {
    if subs != [] {
      var front := subs[..|subs| - 1];
      NamesAreDistinct(front);
      assert subs == front + [subs[|subs| - 1]];
      forall name ensures name in Names(subs) <==> exists f :: f in subs && f.name == name {
        if f :| f in subs && f.name == name {
          assert f in front || f == subs[|subs| - 1];
        }
      }
    }
  }

  /** Of two names the one listed first was seen first. */
  lemma {:induction false} NamesInOrderSeen(subs: seq<Field>, i: nat, j: nat) returns (p: nat)
    requires i < j < |Names(subs)|
    ensures p < |subs| && subs[p].name == Names(subs)[i] && forall q :: 0 <= q <= p ==> subs[q].name != Names(subs)[j]
  {
    var front := subs[..|subs| - 1];
    if j < |Names(front)| {
      p := NamesInOrderSeen(front, i, j);
    } else {
      NamesAreDistinct(front);
      assert Names(front)[i] in Names(front);
      var f :| f in front && f.name == Names(front)[i];
      p :| 0 <= p < |front| && front[p] == f;
      forall q | 0 <= q <= p ensures subs[q].name != Names(subs)[j] {
        assert front[q] in front && front[q].name in Names(front);
      }
    }
  }

  function Picks(tx: Texts, subs: seq<Field>, names: seq<string>): (merged: seq<Field>)
    requires forall name :: name in names ==> Named(subs, name) != []
    ensures |merged| == |names|
  {
    if |names| == 0 then []
    else Picks(tx, subs, names[..|names| - 1]) + [PickCanonical(tx, Named(subs, names[|names| - 1]))]
  }

  lemma {:induction false} PicksAre(tx: Texts, subs: seq<Field>, names: seq<string>)
    requires forall name :: name in names ==> Named(subs, name) != []
    ensures forall i :: 0 <= i < |names| ==>
              Picks(tx, subs, names)[i] == PickCanonical(tx, Named(subs, names[i])) &&
                  Picks(tx, subs, names)[i].name == names[i]
  {
    if names != [] {
      PicksAre(tx, subs, names[..|names| - 1]);
      NamedAre(subs, names[|names| - 1]);
    }
  }

  function MaxConfidence(rows: seq<Field>): real
    requires rows != []
  {
    var last := rows[|rows| - 1].confidence;
    if |rows| == 1 then last
    else
      var best := MaxConfidence(rows[..|rows| - 1]);
      if best < last then last else best
  }

  /** The canonical row: best sub-field per name, pages unioned, the rest from the first row. */
  function Canonicalise(tx: Texts, cluster: seq<Field>): Field
    requires cluster != []
  {
    var base := cluster[0];
    if !base.value.Rows? then base
    else
      var subs := AllSubs(cluster);
      assert forall name :: name in Names(subs) ==> Named(subs, name) != [] by {
        forall name | name in Names(subs) ensures Named(subs, name) != [] {
          NamedAre(subs, name);
        }
      }
      NewField(base.name, Rows(Picks(tx, subs, Names(subs))), Sorted(PagesOf(cluster)), MaxConfidence(cluster),
          base.bbox)
  }

  /** The source's loops: candidates gathered by name row after row, then one pick per name. */
  method CanonicaliseRows(tx: Texts, cluster: seq<Field>) returns (r: Field)
    requires cluster != []
    ensures r == Canonicalise(tx, cluster)
  {
    var base := cluster[0];
    if !base.value.Rows? {
      return base;
    }
    var seenNames, byName := Gather(cluster);
    var merged := PickEach(tx, AllSubs(cluster), seenNames, byName);
    r := NewField(base.name, Rows(merged), Sorted(PagesOf(cluster)), MaxConfidence(cluster), base.bbox);
  }

  lemma GatheredNames(subs: seq<Field>, seenNames: seq<string>, byName: map<string, seq<Field>>)
    requires Gathered(subs, seenNames, byName)
    ensures forall name :: name in seenNames ==> Named(subs, name) != []
  {
    forall name | name in seenNames ensures Named(subs, name) != [] {
      NamedAre(subs, name);
    }
  }

  method PickEach(tx: Texts, ghost subs: seq<Field>, seenNames: seq<string>, byName: map<string, seq<Field>>)
    returns (merged: seq<Field>)
    requires Gathered(subs, seenNames, byName)
    ensures forall name :: name in seenNames ==> Named(subs, name) != []
    ensures merged == Picks(tx, subs, seenNames)
  {
    GatheredNames(subs, seenNames, byName);
    merged := [];
    for n := 0 to |seenNames|
      invariant merged == Picks(tx, subs, seenNames[..n])
    {
      merged := merged + [PickCanonical(tx, byName[seenNames[n]])];
      assert seenNames[..n + 1][..n] == seenNames[..n];
    }
    assert seenNames[..|seenNames|] == seenNames;
  }

  method Gather(cluster: seq<Field>) returns (seenNames: seq<string>, byName: map<string, seq<Field>>)
    ensures Gathered(AllSubs(cluster), seenNames, byName)
  {
    seenNames, byName := [], map[];
    for i := 0 to |cluster|
      invariant Gathered(AllSubs(cluster[..i]), seenNames, byName)
    {
      seenNames, byName := GatherRow(AllSubs(cluster[..i]), seenNames, byName, cluster[i]);
      assert cluster[..i + 1][..i] == cluster[..i];
    }
    assert cluster[..|cluster|] == cluster;
  }

  method GatherRow(ghost done: seq<Field>, seenNames: seq<string>, byName: map<string, seq<Field>>, row: Field)
    returns (seenNames': seq<string>, byName': map<string, seq<Field>>)
    requires Gathered(done, seenNames, byName)
    ensures Gathered(done + Subs(row), seenNames', byName')
  {
    seenNames', byName' := seenNames, byName;
    var inner := Subs(row);
    assert done + inner[..0] == done;
    for k := 0 to |inner|
      invariant Gathered(done + inner[..k], seenNames', byName')
    {
      var sub := inner[k];
      GatherOne(done + inner[..k], seenNames', byName', sub);
      if sub.name !in byName' {
        seenNames' := seenNames' + [sub.name];
        byName' := byName'[sub.name := []];
      }
      byName' := byName'[sub.name := byName'[sub.name] + [sub]];
      OneMore(done, inner, k);
    }
    assert inner[..|inner|] == inner;
  }

  lemma GatherOne(done: seq<Field>, seenNames: seq<string>, byName: map<string, seq<Field>>, sub: Field)
    requires Gathered(done, seenNames, byName)
    ensures sub.name in byName ==> Gathered(done + [sub], seenNames, byName[sub.name := byName[sub.name] + [sub]])
    ensures sub.name !in byName ==> Gathered(done + [sub], seenNames + [sub.name], byName[sub.name := [] + [sub]])
  {
    assert (done + [sub])[..|done|] == done;
  }

  ghost predicate Gathered(subs: seq<Field>, seenNames: seq<string>, byName: map<string, seq<Field>>) {
    && seenNames == Names(subs)
    && (forall name :: name in byName <==> name in seenNames)
    && (forall name :: name in byName ==> byName[name] == Named(subs, name))
    && (forall name :: name !in byName ==> Named(subs, name) == [])
  }
}
