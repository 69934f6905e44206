/** Names do not join transitively: two names without a word in common are both variants of the
    name that has the words of both, and a cluster is compared by the row that opened it. */
module FuzzyNames {
  import opened Collections
  import opened Wrappers
  import opened Fields
  import opened Canonical
  import opened EntityResolution
  import opened ClusterOrder

  function NamedRow(field: string, name: string): Field {
    NewField("row", Rows([NewField(field, Text(name), [1], 1.0, None)]), [1], 1.0, None)
  }

  /** `a` and `b` have enough words each, neither those of the other; `ab` has the words of both. */
  ghost predicate ThreeNames(tx: Texts, t: Resolution, a: string, b: string, ab: string) {
    var ta, tb, tab := tx.nameTokens(a), tx.nameTokens(b), tx.nameTokens(ab);
    && NameField(t.matchBy, StrongKey(t)) != ""
    && tx.strip(a) == a && tx.strip(b) == b && tx.strip(ab) == ab
    && ta != {} && tb != {} && !(ta <= tb) && !(tb <= ta) && ta <= tab && tb <= tab
    && |ta| >= t.minSharedTokens && |tb| >= t.minSharedTokens
  }

  lemma {:induction false} NameIsNotKey(matchBy: seq<string>, strongKey: string)
    ensures NameField(matchBy, strongKey) != "" ==> NameField(matchBy, strongKey) != strongKey
  {
    if |matchBy| > 0 && matchBy[0] == strongKey {
      NameIsNotKey(matchBy[1..], strongKey);
    }
  }

  lemma NamedRowIsKeyless(tx: Texts, t: Resolution, field: string, name: string)
    requires field == NameField(t.matchBy, StrongKey(t)) != ""
    ensures KeyOf(tx, t, NamedRow(field, name)) == "" && RowValue(tx, NamedRow(field, name), field) == tx.strip(name)
  {
    NameIsNotKey(t.matchBy, StrongKey(t));
    var subs := Subs(NamedRow(field, name));
    assert FirstScalar(tx, subs[1..], StrongKey(t)) == "";
  }

  lemma Joins(tx: Texts, t: Resolution, field: string, row: string, rep: string)
    requires field == NameField(t.matchBy, StrongKey(t)) != "" && tx.strip(row) == row && tx.strip(rep) == rep
    ensures CanJoin(tx, t, NamedRow(field, rep), NamedRow(field, row)) <==>
              NameVariantMatch(tx, row, rep, t.minSharedTokens)
  {
    NamedRowIsKeyless(tx, t, field, row);
    NamedRowIsKeyless(tx, t, field, rep);
  }

  /** A and B cannot join, both can join AB. */
  lemma WhoJoins(tx: Texts, t: Resolution, field: string, a: string, b: string, ab: string)
    requires ThreeNames(tx, t, a, b, ab) && field == NameField(t.matchBy, StrongKey(t))
    ensures !CanJoin(tx, t, NamedRow(field, a), NamedRow(field, b))
    ensures CanJoin(tx, t, NamedRow(field, a), NamedRow(field, ab))
    ensures CanJoin(tx, t, NamedRow(field, ab), NamedRow(field, a))
    ensures CanJoin(tx, t, NamedRow(field, ab), NamedRow(field, b))
  {
    SubsetSize(tx.nameTokens(a), tx.nameTokens(ab));
    SubsetSize(tx.nameTokens(b), tx.nameTokens(ab));
    Joins(tx, t, field, b, a);
    Joins(tx, t, field, ab, a);
    Joins(tx, t, field, a, ab);
    Joins(tx, t, field, b, ab);
  }

  /** A row, then one that does not join it, then one that does. */
  lemma ShortFirst(tx: Texts, t: Resolution, rows: seq<Field>)
    requires |rows| == 3 && !CanJoin(tx, t, rows[0], rows[1]) && CanJoin(tx, t, rows[0], rows[2])
    ensures Assign(tx, t, rows, 3) == Assignment([0, 1], [0, 1, 0])
  {
    FirstTwo(tx, t, rows);
    Place(tx, t, rows, 2, Extend(Assignment([0], [0]), 1), 0);
  }

  /** A longer name that opens a cluster draws the shorter ones in. */
  lemma LongFirst(tx: Texts, t: Resolution, rows: seq<Field>)
    requires 2 <= |rows| <= 3 && forall i :: 1 <= i < |rows| ==> CanJoin(tx, t, rows[0], rows[i])
    ensures |Dedupe(tx, t, rows)| == 1
  {
    FirstTwo(tx, t, rows);
    if |rows| == 3 {
      Place(tx, t, rows, 2, Extend(Assignment([0], [0]), 0), 0);
    }
  }

  /** The rows A, B and AB make two clusters in this order, and one when AB leads. */
  lemma OrderOfNamesMatters(tx: Texts, t: Resolution, a: string, b: string, ab: string, rows: seq<Field>)
    requires ThreeNames(tx, t, a, b, ab) && |rows| == 3
    requires var field := NameField(t.matchBy, StrongKey(t));
      rows[0] == NamedRow(field, a) && rows[1] == NamedRow(field, b) && rows[2] == NamedRow(field, ab)
    ensures |Dedupe(tx, t, rows)| == 2 && |Dedupe(tx, t, [rows[2], rows[0], rows[1]])| == 1
  {
    WhoJoins(tx, t, NameField(t.matchBy, StrongKey(t)), a, b, ab);
    ShortFirst(tx, t, rows);
    LongFirst(tx, t, [rows[2], rows[0], rows[1]]);
  }

  lemma OneCanonicalRow(tx: Texts, rows: seq<Field>, field: string, name: string)
    requires |rows| == 1 && rows[0] == NamedRow(field, name)
    ensures Canonicalise(tx, rows) == rows[0]
  {
    var x := Subs(rows[0])[0];
    assert |rows[..0]| == 0;
    assert AllSubs(rows) == [] + [x];
    OneCandidate(tx, x);
    PageOne(rows);
  }

  lemma LongerNameWins(tx: Texts, rows: seq<Field>, field: string, short: string, long: string)
    requires |rows| == 2 && rows[0] == NamedRow(field, short) && rows[1] == NamedRow(field, long)
    requires |tx.strip(short)| < |tx.strip(long)|
    ensures Canonicalise(tx, rows) == rows[1]
  {
    PageOne(rows);
    SecondWins(tx, rows, Subs(rows[0])[0], Subs(rows[1])[0]);
  }

  lemma SecondWins(tx: Texts, rows: seq<Field>, x: Field, y: Field)
    requires |rows| == 2 && Subs(rows[0]) == [x] && Subs(rows[1]) == [y]
    requires x.name == y.name && !ScoreLe(ScoreOf(tx, y), ScoreOf(tx, x))
    ensures Canonicalise(tx, rows) ==
              NewField(rows[0].name, Rows([y]), Sorted(PagesOf(rows)), MaxConfidence(rows), rows[0].bbox)
  {
    SubsOfTwo(rows, x, y);
    TwoCandidates(tx, x, y);
    CanonicalFrom(tx, rows, [x, y], [x.name], [y]);
  }

  lemma CanonicalFrom(tx: Texts, rows: seq<Field>, subs: seq<Field>, names: seq<string>, merged: seq<Field>)
    requires |rows| > 0 && rows[0].value.Rows? && AllSubs(rows) == subs && Names(subs) == names
    requires (forall name :: name in names ==> Named(subs, name) != []) && Picks(tx, subs, names) == merged
    ensures Canonicalise(tx, rows) ==
              NewField(rows[0].name, Rows(merged), Sorted(PagesOf(rows)), MaxConfidence(rows), rows[0].bbox)
  {
  }

  lemma SubsOfTwo(rows: seq<Field>, x: Field, y: Field)
    requires |rows| == 2 && Subs(rows[0]) == [x] && Subs(rows[1]) == [y]
    ensures AllSubs(rows) == [x, y]
  {
    assert |rows[..1][..0]| == 0 && rows[..1][0] == rows[0];
    assert AllSubs(rows[..1]) == [] + [x];
  }

  lemma PageOne(rows: seq<Field>)
    requires rows != [] && |rows| <= 2
    requires forall i :: 0 <= i < |rows| ==> rows[i].pages == [1] && rows[i].confidence == 1.0
    ensures Sorted(PagesOf(rows)) == [1] && MaxConfidence(rows) == 1.0
  {
    assert PagesOf(rows) == {1} by {
      assert 1 in rows[0].pages;
    }
    var pages := Sorted({1});
    SortedIs({1});
    assert 1 in pages && forall p :: p in pages ==> p == 1;
    assert pages[0] in pages;
    if |rows| == 2 {
      assert MaxConfidence(rows[..1]) == 1.0;
    }
  }

  lemma OneCandidate(tx: Texts, x: Field)
    ensures Names([x]) == [x.name] && Named([x], x.name) == [x] && Picks(tx, [x], [x.name]) == [x]
  {
    assert [x][..0] == [] && [x.name][..0] == [];
    assert Named([], x.name) == [];
    assert Picks(tx, [x], []) == [];
  }

  lemma TwoCandidates(tx: Texts, x: Field, y: Field)
    requires x.name == y.name && !ScoreLe(ScoreOf(tx, y), ScoreOf(tx, x))
    ensures Names([x, y]) == [x.name] && Named([x, y], x.name) == [x, y]
    ensures Picks(tx, [x, y], [x.name]) == [y]
  {
    OneCandidate(tx, x);
    assert [x, y][..1] == [x];
    assert [x.name][..0] == [];
    assert Picks(tx, [x, y], []) == [];
    assert PickCanonical(tx, [x]) == x;
  }

  lemma MembersOfThree(home: seq<nat>)
    requires home == [0, 1, 0]
    ensures Members(home, 0) == [0, 2] && Members(home, 1) == [1]
  {
    assert Members(home[..0], 0) == [] && Members(home[..0], 1) == [];
    LastMember(home, 1);
    LastMember(home, 2);
    LastMember(home, 3);
    assert home[..3] == home;
  }

  lemma LastMember(home: seq<nat>, n: nat)
    requires 0 < n <= |home|
    ensures forall c: nat :: Members(home[..n], c) ==
              Members(home[..n - 1], c) + (if home[n - 1] == c then [n - 1] else [])
  {
    assert home[..n - 1] + [home[n - 1]] == home[..n];
    forall c: nat
      ensures Members(home[..n], c) == Members(home[..n - 1], c) + (if home[n - 1] == c then [n - 1] else [])
    {
      MembersSnoc(home[..n - 1], home[n - 1], c);
    }
  }

  lemma PickedRows(tx: Texts, t: Resolution, rows: seq<Field>, c: nat, at: seq<nat>)
    requires c < |Assign(tx, t, rows, |rows|).reps| && Members(Assign(tx, t, rows, |rows|).home, c) == at
    requires at != [] && forall k :: 0 <= k < |at| ==> at[k] < |rows|
    ensures Dedupe(tx, t, rows)[c] == Canonicalise(tx, RowsAt(rows, at))
  {
  }

  lemma ShortFirstClusters(tx: Texts, t: Resolution, rows: seq<Field>)
    requires |rows| == 3 && !CanJoin(tx, t, rows[0], rows[1]) && CanJoin(tx, t, rows[0], rows[2])
    ensures |Dedupe(tx, t, rows)| == 2
    ensures Dedupe(tx, t, rows)[0] == Canonicalise(tx, RowsAt(rows, [0, 2]))
    ensures Dedupe(tx, t, rows)[1] == Canonicalise(tx, RowsAt(rows, [1]))
  {
    ShortFirst(tx, t, rows);
    var home := Assign(tx, t, rows, 3).home;
    MembersOfThree(home);
    PickedRows(tx, t, rows, 0, Members(home, 0));
    PickedRows(tx, t, rows, 1, Members(home, 1));
  }

  lemma Picked(rows: seq<Field>)
    requires |rows| == 3
    ensures RowsAt(rows, [0, 2]) == [rows[0], rows[2]] && RowsAt(rows, [1]) == [rows[1]]
  {
  }

  lemma FirstPass(tx: Texts, t: Resolution, field: string, a: string, b: string, ab: string, rows: seq<Field>)
    requires ThreeNames(tx, t, a, b, ab) && |a| < |ab| && |rows| == 3 && field == NameField(t.matchBy, StrongKey(t))
    requires rows[0] == NamedRow(field, a) && rows[1] == NamedRow(field, b) && rows[2] == NamedRow(field, ab)
    ensures |Dedupe(tx, t, rows)| == 2
    ensures Dedupe(tx, t, rows)[0] == rows[2] && Dedupe(tx, t, rows)[1] == rows[1]
  {
    WhoJoins(tx, t, field, a, b, ab);
    ShortFirstClusters(tx, t, rows);
    Picked(rows);
    LongerNameWins(tx, [rows[0], rows[2]], field, a, ab);
    OneCanonicalRow(tx, [rows[1]], field, b);
  }

  lemma VariantsFold(tx: Texts, t: Resolution, field: string, a: string, b: string, ab: string, rows: seq<Field>)
    requires ThreeNames(tx, t, a, b, ab) && |rows| == 2 && field == NameField(t.matchBy, StrongKey(t))
    requires rows[0] == NamedRow(field, ab) && rows[1] == NamedRow(field, b)
    ensures |Dedupe(tx, t, rows)| == 1
  {
    WhoJoins(tx, t, field, a, b, ab);
    LongFirst(tx, t, rows);
  }

  /** The canonical row of A and AB carries the longer name, which B is now a variant of. */
  lemma NamesAreNotIdempotent(tx: Texts, t: Resolution, a: string, b: string, ab: string,
                              rows: seq<Field>, once: seq<Field>)
    requires ThreeNames(tx, t, a, b, ab) && |a| < |ab| && |rows| == 3 && once == Dedupe(tx, t, rows)
    requires var field := NameField(t.matchBy, StrongKey(t));
      rows[0] == NamedRow(field, a) && rows[1] == NamedRow(field, b) && rows[2] == NamedRow(field, ab)
    ensures |once| == 2 && |Dedupe(tx, t, once)| == 1
  {
    var field := NameField(t.matchBy, StrongKey(t));
    FirstPass(tx, t, field, a, b, ab, rows);
    VariantsFold(tx, t, field, a, b, ab, once);
  }
}
