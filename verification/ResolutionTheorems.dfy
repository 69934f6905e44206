/** What deduplication is worth: when doing it twice is doing it once, and what of its outcome
    does not depend on the order (or repetition) of the rows. */
module ResolutionTheorems {
  import opened Collections
  import opened Fields
  import opened Canonical
  import opened EntityResolution
  import opened ClusterOrder

  /** A row of named sub-fields, each name once. */
  ghost predicate RowShaped(row: Field) {
    row.value.Rows? && forall i, j :: 0 <= i < j < |row.value.subs| ==> row.value.subs[i].name != row.value.subs[j].name
  }

  ghost predicate Shaped(rows: seq<Field>) {
    forall r :: r in rows ==> RowShaped(r)
  }

  // ---- The key survives canonicalisation -----------------------------------

  /** With unique names a row's key is the text of its one sub-field of that name. */
  lemma {:induction false} FirstScalarIsTheSub(tx: Texts, subs: seq<Field>, name: string, f: Field)
    requires forall i, j :: 0 <= i < j < |subs| ==> subs[i].name != subs[j].name
    requires f in subs && f.name == name
    ensures FirstScalar(tx, subs, name) == if Scalar(f.value) then tx.strip(Printed(f.value)) else ""
  {
    if subs[0].name == name {
      assert f == subs[0];
      NoSecond(tx, subs[1..], name);
    } else {
      assert f in subs[1..];
      FirstScalarIsTheSub(tx, subs[1..], name, f);
    }
  }

  lemma {:induction false} NoSecond(tx: Texts, subs: seq<Field>, name: string)
    requires forall g :: g in subs ==> g.name != name
    ensures FirstScalar(tx, subs, name) == ""
  {
    if subs != [] {
      assert subs[0] in subs;
      NoSecond(tx, subs[1..], name);
    }
  }

  /** The canonical row is row-shaped, and its sub-field of each name is the best of its rows'. */
  lemma CanonicalSubs(tx: Texts, cluster: seq<Field>)
    requires cluster != [] && cluster[0].value.Rows?
    ensures RowShaped(Canonicalise(tx, cluster))
    ensures forall f :: f in Subs(Canonicalise(tx, cluster)) <==>
              Named(AllSubs(cluster), f.name) != [] && f == PickCanonical(tx, Named(AllSubs(cluster), f.name))
  {
    var subs := AllSubs(cluster);
    var names := Names(subs);
    forall name | name in names ensures Named(subs, name) != [] {
      NamedAre(subs, name);
    }
    PicksAre(tx, subs, names);
    NamesAreDistinct(subs);
    var merged := Picks(tx, subs, names);
    forall f ensures f in merged <==> Named(subs, f.name) != [] && f == PickCanonical(tx, Named(subs, f.name)) {
      NamedAre(subs, f.name);
      if f in merged {
        var i :| 0 <= i < |merged| && merged[i] == f;
      } else if f.name in names {
        var i :| 0 <= i < |names| && names[i] == f.name;
        assert merged[i] in merged;
      }
    }
  }

  /** A canonical row is the first row's: name and box kept, pages of all rows in rising order, the
      greatest confidence; each name once, in the order first seen, with one of the cluster's sub-fields. */
  lemma CanonicalRow(tx: Texts, cluster: seq<Field>)
    requires cluster != [] && cluster[0].value.Rows?
    ensures var out := Canonicalise(tx, cluster);
      && RowShaped(out) && out.name == cluster[0].name && out.bbox == cluster[0].bbox
      && (forall p :: p in out.pages <==> exists r :: r in cluster && p in r.pages)
      && (forall i, j :: 0 <= i < j < |out.pages| ==> out.pages[i] < out.pages[j])
      && (exists r :: r in cluster && r.confidence == out.confidence)
      && (forall r :: r in cluster ==> r.confidence <= out.confidence)
  {
    CanonicalSubs(tx, cluster);
    SortedIs(PagesOf(cluster));
    MaxConfidenceIs(cluster);
    forall p ensures p in PagesOf(cluster) <==> exists r :: r in cluster && p in r.pages {
      if r :| r in cluster && p in r.pages {
        var i :| 0 <= i < |cluster| && cluster[i] == r;
      }
    }
  }

  lemma {:induction false} MaxConfidenceIs(rows: seq<Field>)
    requires rows != []
    ensures exists r :: r in rows && r.confidence == MaxConfidence(rows)
    ensures forall r :: r in rows ==> r.confidence <= MaxConfidence(rows)
  {
    var front, last := rows[..|rows| - 1], rows[|rows| - 1];
    assert rows == front + [last] && last in rows;
    if |rows| > 1 {
      MaxConfidenceIs(front);
      var r :| r in front && r.confidence == MaxConfidence(front);
      assert r in rows;
    }
  }

  /** The sub-fields of a canonical row: in the order their names were first seen, each one of the
      cluster's, and absent only if it is absent from every row that has it. */
  lemma NothingPresentIsLost(tx: Texts, cluster: seq<Field>, f: Field)
    requires cluster != [] && cluster[0].value.Rows? && f in Subs(Canonicalise(tx, cluster))
    ensures exists r :: r in cluster && f in Subs(r)
    ensures f.value == Null ==> forall r, g :: r in cluster && g in Subs(r) && g.name == f.name ==> g.value == Null
  {
    var subs := AllSubs(cluster);
    CanonicalSubs(tx, cluster);
    AllSubsAre(cluster);
    NamedAre(subs, f.name);
    var candidates := Named(subs, f.name);
    if f.value == Null {
      forall r, g | r in cluster && g in Subs(r) && g.name == f.name ensures g.value == Null {
        assert g in candidates;
        if g.value != Null {
          PresentBeatsAbsent(tx, candidates);
        }
      }
    }
  }

  /** So no value a cluster has is lost by deduplication. */
  lemma DedupeLosesNothing(tx: Texts, t: Resolution, rows: seq<Field>, i: nat, f: Field)
    requires i < |rows| && f in Subs(rows[i])
    requires forall r :: r in rows ==> r.value.Rows?
    ensures var out, home := Dedupe(tx, t, rows), Assign(tx, t, rows, |rows|).home;
      exists g :: g in Subs(out[home[i]]) && g.name == f.name && (f.value != Null ==> g.value != Null)
  {
    var c := Assign(tx, t, rows, |rows|).home[i];
    var cluster := ClusterRows(tx, t, rows, c);
    var ms := Members(Assign(tx, t, rows, |rows|).home, c);
    MembersAre(Assign(tx, t, rows, |rows|).home, c);
    var m :| 0 <= m < |ms| && ms[m] == i;
    assert cluster[m] == rows[i] && rows[ms[0]] in rows && cluster[0] == rows[ms[0]];
    ClusterKeeps(tx, cluster, rows[i], f);
  }

  lemma ClusterKeeps(tx: Texts, cluster: seq<Field>, r: Field, f: Field)
    requires cluster != [] && cluster[0].value.Rows? && r in cluster && f in Subs(r)
    ensures exists g :: g in Subs(Canonicalise(tx, cluster)) && g.name == f.name &&
              (f.value != Null ==> g.value != Null)
  {
    var subs := AllSubs(cluster);
    CanonicalSubs(tx, cluster);
    AllSubsAre(cluster);
    NamedAre(subs, f.name);
    var g := PickCanonical(tx, Named(subs, f.name));
    NamedAre(subs, g.name);
    assert g in Named(subs, f.name) && g in Subs(Canonicalise(tx, cluster));
    NothingPresentIsLost(tx, cluster, g);
  }

  /** What a canonical row says under a name, some row of its cluster says. */
  lemma CanonicalValue(tx: Texts, cluster: seq<Field>, name: string) returns (r: Field)
    requires cluster != [] && Shaped(cluster)
    ensures r in cluster && RowValue(tx, Canonicalise(tx, cluster), name) == RowValue(tx, r, name)
  {
    var out, subs := Canonicalise(tx, cluster), AllSubs(cluster);
    r := cluster[0];
    assert r in cluster;
    CanonicalSubs(tx, cluster);
    AllSubsAre(cluster);
    NamedAre(subs, name);
    if Named(subs, name) == [] {
      NoSecond(tx, Subs(out), name);
      NoSecond(tx, Subs(r), name);
    } else {
      var pick := PickCanonical(tx, Named(subs, name));
      r :| r in cluster && pick in Subs(r);
      FirstScalarIsTheSub(tx, Subs(r), name, pick);
      FirstScalarIsTheSub(tx, Subs(out), name, pick);
    }
  }

  lemma CanonicalKeepsKey(tx: Texts, t: Resolution, cluster: seq<Field>)
    requires cluster != [] && Shaped(cluster)
    requires forall r :: r in cluster ==> SameKey(tx, t, r, cluster[0])
    ensures RowShaped(Canonicalise(tx, cluster)) && SameKey(tx, t, Canonicalise(tx, cluster), cluster[0])
  {
    var r := CanonicalValue(tx, cluster, StrongKey(t));
    assert cluster[0] in cluster;
    CanonicalSubs(tx, cluster);
    assert KeyOf(tx, t, Canonicalise(tx, cluster)) == KeyOf(tx, t, r);
  }

  // ---- Idempotence ---------------------------------------------------------

  lemma {:induction false} NamesOfDistinct(subs: seq<Field>)
    requires forall i, j :: 0 <= i < j < |subs| ==> subs[i].name != subs[j].name
    ensures |Names(subs)| == |subs| && forall i :: 0 <= i < |subs| ==> Names(subs)[i] == subs[i].name
  {
    if subs != [] {
      NamesOfDistinct(subs[..|subs| - 1]);
    }
  }

  lemma {:induction false} NamedInDistinct(subs: seq<Field>, i: nat)
    requires i < |subs| && forall j, k :: 0 <= j < k < |subs| ==> subs[j].name != subs[k].name
    ensures Named(subs, subs[i].name) == [subs[i]]
  {
    var front := subs[..|subs| - 1];
    if i < |subs| - 1 {
      NamedInDistinct(front, i);
    } else {
      NamedAre(front, subs[i].name);
      assert Named(front, subs[i].name) == [] by {
        NamesOfDistinct(front);
      }
    }
  }

  lemma DistinctPicksAreThemselves(tx: Texts, subs: seq<Field>)
    requires forall i, j :: 0 <= i < j < |subs| ==> subs[i].name != subs[j].name
    ensures forall name :: name in Names(subs) ==> Named(subs, name) != []
    ensures Picks(tx, subs, Names(subs)) == subs
  {
    NamesOfDistinct(subs);
    forall name | name in Names(subs) ensures Named(subs, name) != [] {
      NamedAre(subs, name);
    }
    PicksAre(tx, subs, Names(subs));
    forall i | 0 <= i < |subs| ensures Picks(tx, subs, Names(subs))[i] == subs[i] {
      NamedInDistinct(subs, i);
    }
  }

  /** A cluster of one row-shaped row keeps its name, sub-fields, confidence and box. */
  lemma CanonicaliseOne(tx: Texts, row: Field)
    requires RowShaped(row)
    ensures Canonicalise(tx, [row]) ==
              NewField(row.name, row.value, Sorted(set p | p in row.pages), row.confidence, row.bbox)
  {
    assert [row][..0] == [];
    assert AllSubs([row]) == row.value.subs;
    DistinctPicksAreThemselves(tx, row.value.subs);
    OneRowPages(row);
  }

  lemma OneRowPages(row: Field)
    ensures PagesOf([row]) == set p | p in row.pages
  {
    forall p | p in row.pages ensures p in PagesOf([row]) {
      assert p in [row][0].pages;
    }
  }

  lemma CanonicalIsShaped(tx: Texts, cluster: seq<Field>)
    requires cluster != [] && cluster[0].value.Rows?
    ensures RowShaped(Canonicalise(tx, cluster))
    ensures (set p | p in Canonicalise(tx, cluster).pages) == PagesOf(cluster)
  {
    CanonicalSubs(tx, cluster);
    SortedIs(PagesOf(cluster));
  }

  /** Canonicalising a canonical row changes nothing. */
  lemma CanonicaliseTwice(tx: Texts, cluster: seq<Field>)
    requires cluster != []
    ensures Canonicalise(tx, [Canonicalise(tx, cluster)]) == Canonicalise(tx, cluster)
  {
    if cluster[0].value.Rows? {
      CanonicalIsShaped(tx, cluster);
      CanonicaliseOne(tx, Canonicalise(tx, cluster));
    }
  }

  function UpTo(n: nat): (s: seq<nat>)
    ensures |s| == n && forall i :: 0 <= i < n ==> s[i] == i
  {
    if n == 0 then [] else UpTo(n - 1) + [n - 1]
  }

  ghost predicate Apart(tx: Texts, t: Resolution, rows: seq<Field>) {
    forall i, j :: 0 <= i < j < |rows| ==> !CanJoin(tx, t, rows[i], rows[j])
  }

  /** Rows that cannot join each other each open their own cluster. */
  lemma ApartStay(tx: Texts, t: Resolution, rows: seq<Field>)
    requires Apart(tx, t, rows)
    ensures Assign(tx, t, rows, |rows|) == Assignment(UpTo(|rows|), UpTo(|rows|))
  {
    var a := Assignment([], []);
    for n := 0 to |rows|
      invariant Assign(tx, t, rows, n) == a == Assignment(UpTo(n), UpTo(n))
    {
      Place(tx, t, rows, n, a, n);
      a := Extend(a, n);
    }
  }

  ghost predicate OpenedAll(tx: Texts, t: Resolution, rows: seq<Field>, n: nat, reps: seq<nat>)
    requires n <= |rows|
  {
    |reps| <= n && (|reps| == n ==> reps == UpTo(n) && Apart(tx, t, rows[..n]))
  }

  lemma NextOpened(tx: Texts, t: Resolution, rows: seq<Field>, n: nat, reps: seq<nat>)
    requires n < |rows| && Openers(rows, reps) && OpenedAll(tx, t, rows, n, reps)
    ensures |reps| == n && FirstFit(tx, t, rows, reps, rows[n], 0) == n ==>
              reps + [n] == UpTo(n + 1) && Apart(tx, t, rows[..n + 1])
  {
    if |reps| == n && FirstFit(tx, t, rows, reps, rows[n], 0) == n {
      var front, next := rows[..n], rows[..n + 1];
      forall i, j | 0 <= i < j < |next| ensures !CanJoin(tx, t, next[i], next[j]) {
        assert next[i] == front[i];
        if j == n {
          assert reps[i] == i;
        } else {
          assert next[j] == front[j];
        }
      }
    }
  }

  lemma OpenedToo(tx: Texts, t: Resolution, rows: seq<Field>, n: nat, reps: seq<nat>) returns (next: seq<nat>)
    requires n < |rows| && OpenedAll(tx, t, rows, n, reps) && reps == Assign(tx, t, rows, n).reps
    ensures OpenedAll(tx, t, rows, n + 1, next) && next == Assign(tx, t, rows, n + 1).reps
  {
    NextOpened(tx, t, rows, n, reps);
    next := Assign(tx, t, rows, n + 1).reps;
  }

  /** As many clusters as rows: nobody joined anybody. */
  lemma AllOpened(tx: Texts, t: Resolution, rows: seq<Field>)
    ensures OpenedAll(tx, t, rows, |rows|, Assign(tx, t, rows, |rows|).reps)
  {
    var reps: seq<nat> := [];
    for n := 0 to |rows|
      invariant reps == Assign(tx, t, rows, n).reps && OpenedAll(tx, t, rows, n, reps)
    {
      reps := OpenedToo(tx, t, rows, n, reps);
    }
  }

  lemma {:induction false} SingleMembers(n: nat, c: nat)
    ensures Members(UpTo(n), c) == if c < n then [c] else []
  {
    if n > 0 {
      SingleMembers(n - 1, c);
      MembersSnoc(UpTo(n - 1), n - 1, c);
    }
  }

  /** Deduplicating rows that cannot join each other canonicalises each alone. */
  lemma DedupeAlone(tx: Texts, t: Resolution, rows: seq<Field>, c: nat)
    requires Apart(tx, t, rows) && c < |rows|
    ensures |Dedupe(tx, t, rows)| == |rows| && Dedupe(tx, t, rows)[c] == Canonicalise(tx, [rows[c]])
  {
    ApartStay(tx, t, rows);
    SingleMembers(|rows|, c);
    AloneInCluster(tx, t, rows, c);
  }

  lemma AloneInCluster(tx: Texts, t: Resolution, rows: seq<Field>, c: nat)
    requires c < |rows| && c < |Assign(tx, t, rows, |rows|).reps|
    requires Members(Assign(tx, t, rows, |rows|).home, c) == [c]
    ensures ClusterRows(tx, t, rows, c) == [rows[c]]
  {
    assert RowsAt(rows, [c])[0] == rows[c];
  }

  lemma SecondPassKeeps(tx: Texts, t: Resolution, rows: seq<Field>, out: seq<Field>, c: nat)
    requires out == Dedupe(tx, t, rows) && Apart(tx, t, out) && c < |out|
    ensures |Dedupe(tx, t, out)| == |out| && Dedupe(tx, t, out)[c] == out[c]
  {
    DedupeAlone(tx, t, out, c);
    CanonicaliseTwice(tx, ClusterRows(tx, t, rows, c));
  }

  lemma ApartComeBack(tx: Texts, t: Resolution, rows: seq<Field>, out: seq<Field>, again: seq<Field>)
    requires out == Dedupe(tx, t, rows) && Apart(tx, t, out) && again == Dedupe(tx, t, out)
    ensures again == out
  {
    ApartStay(tx, t, out);
    assert |again| == |out|;
    forall c | 0 <= c < |out| ensures again[c] == out[c] {
      SecondPassKeeps(tx, t, rows, out, c);
    }
  }

  lemma UnchangedAreApart(tx: Texts, t: Resolution, out: seq<Field>)
    requires |Dedupe(tx, t, out)| == |out|
    ensures Apart(tx, t, out)
  {
    AllOpened(tx, t, out);
    TakeAll(out);
  }

  /** A second pass changes nothing iff no two rows the first one left can join. */
  lemma DedupeTwiceIff(tx: Texts, t: Resolution, rows: seq<Field>, out: seq<Field>)
    requires out == Dedupe(tx, t, rows)
    ensures Dedupe(tx, t, out) == out <==> Apart(tx, t, out)
  {
    if Apart(tx, t, out) {
      ApartComeBack(tx, t, rows, out, Dedupe(tx, t, out));
    }
    if Dedupe(tx, t, out) == out {
      UnchangedAreApart(tx, t, out);
    }
  }

  /** Where a row of a cluster stands in the input. */
  lemma PositionInCluster(tx: Texts, t: Resolution, rows: seq<Field>, c: nat, r: Field) returns (i: nat)
    requires c < |Assign(tx, t, rows, |rows|).reps| && r in ClusterRows(tx, t, rows, c)
    ensures i < |rows| && rows[i] == r && Assign(tx, t, rows, |rows|).home[i] == c
    ensures SameKey(tx, t, r, rows[Assign(tx, t, rows, |rows|).reps[c]])
  {
    var ms, cluster := Members(Assign(tx, t, rows, |rows|).home, c), ClusterRows(tx, t, rows, c);
    var k :| 0 <= k < |cluster| && cluster[k] == r;
    i := ms[k];
    AssignKeysAgree(tx, t, rows, |rows|);
  }

  lemma ClusterIsShaped(tx: Texts, t: Resolution, rows: seq<Field>, c: nat)
    requires Shaped(rows) && c < |Assign(tx, t, rows, |rows|).reps|
    ensures Shaped(ClusterRows(tx, t, rows, c))
  {
    var cluster := ClusterRows(tx, t, rows, c);
    forall r | r in cluster ensures RowShaped(r) {
      var i := PositionInCluster(tx, t, rows, c, r);
      assert rows[i] in rows;
    }
  }

  lemma OutputKey(tx: Texts, t: Resolution, rows: seq<Field>, c: nat)
    requires Shaped(rows) && c < |Dedupe(tx, t, rows)|
    ensures RowShaped(Dedupe(tx, t, rows)[c])
    ensures SameKey(tx, t, Dedupe(tx, t, rows)[c], rows[Assign(tx, t, rows, |rows|).reps[c]])
  {
    var cluster, rep := ClusterRows(tx, t, rows, c), rows[Assign(tx, t, rows, |rows|).reps[c]];
    ClusterIsShaped(tx, t, rows, c);
    forall r | r in cluster ensures SameKey(tx, t, r, rep) {
      var i := PositionInCluster(tx, t, rows, c, r);
    }
    assert cluster[0] in cluster;
    CanonicalKeepsKey(tx, t, cluster);
  }

  /** An output row is keyed like its cluster, no two keyed ones alike. */
  lemma OutputKeys(tx: Texts, t: Resolution, rows: seq<Field>)
    requires Shaped(rows)
    ensures var out := Dedupe(tx, t, rows);
      && Shaped(out)
      && (forall c :: 0 <= c < |out| ==> SameKey(tx, t, out[c], rows[Assign(tx, t, rows, |rows|).reps[c]]))
      && (forall c, d :: 0 <= c < d < |out| && Keyed(tx, t, out[c]) ==> !SameKey(tx, t, out[c], out[d]))
  {
    var out := Dedupe(tx, t, rows);
    var a := Assign(tx, t, rows, |rows|);
    AssignKeysAgree(tx, t, rows, |rows|);
    forall c | 0 <= c < |out| ensures RowShaped(out[c]) && SameKey(tx, t, out[c], rows[a.reps[c]]) {
      OutputKey(tx, t, rows, c);
    }
    forall c, d | 0 <= c < d < |out| && Keyed(tx, t, out[c]) ensures !SameKey(tx, t, out[c], out[d]) {
      assert !SameKey(tx, t, rows[a.reps[c]], rows[a.reps[d]]);
    }
  }

  lemma KeylessOutputsApart(tx: Texts, t: Resolution, rows: seq<Field>, c: nat, d: nat)
    requires Shaped(rows) && c < |Dedupe(tx, t, rows)| && d < |Dedupe(tx, t, rows)|
    requires !Keyed(tx, t, Dedupe(tx, t, rows)[c]) && CanJoin(tx, t, Dedupe(tx, t, rows)[c], Dedupe(tx, t, rows)[d])
    requires Transitive(tx, t, rows)
    ensures c == d
  {
    var out, name := Dedupe(tx, t, rows), NameField(t.matchBy, StrongKey(t));
    OutputKey(tx, t, rows, c);
    OutputKey(tx, t, rows, d);
    JoinMeansSameKey(tx, t, out[c], out[d]);
    ClusterIsShaped(tx, t, rows, c);
    ClusterIsShaped(tx, t, rows, d);
    var r := CanonicalValue(tx, ClusterRows(tx, t, rows, c), name);
    var s := CanonicalValue(tx, ClusterRows(tx, t, rows, d), name);
    var i := PositionInCluster(tx, t, rows, c, r);
    var j := PositionInCluster(tx, t, rows, d, s);
    SharesIffJoins(tx, t, rows);
    assert Joined(tx, t, rows, i, j) by {
      assert CanJoin(tx, t, r, s);
    }
  }

  /** Deduplicating twice is deduplicating once. */
  lemma DedupeIsIdempotent(tx: Texts, t: Resolution, rows: seq<Field>)
    requires Shaped(rows) && Transitive(tx, t, rows)
    ensures Dedupe(tx, t, Dedupe(tx, t, rows)) == Dedupe(tx, t, rows)
  {
    var out := Dedupe(tx, t, rows);
    OutputKeys(tx, t, rows);
    forall c, d | 0 <= c < d < |out| ensures !CanJoin(tx, t, out[c], out[d]) {
      JoinMeansSameKey(tx, t, out[c], out[d]);
      if CanJoin(tx, t, out[c], out[d]) {
        KeylessOutputsApart(tx, t, rows, c, d);
      }
    }
    DedupeTwiceIff(tx, t, rows, out);
  }

  /** In particular when every row carries a strong key. */
  lemma KeyedRowsAreIdempotent(tx: Texts, t: Resolution, rows: seq<Field>)
    requires Shaped(rows) && forall r :: r in rows ==> Keyed(tx, t, r)
    ensures Dedupe(tx, t, Dedupe(tx, t, rows)) == Dedupe(tx, t, rows)
  {
    KeyedAreTransitive(tx, t, rows);
    DedupeIsIdempotent(tx, t, rows);
  }

  // ---- Order independence --------------------------------------------------

  /** What a consumer reads off one output row: its key, the text kept under each name, its pages. */
  datatype View = View(keyed: bool, key: string, texts: set<(string, string)>, pages: seq<int>)

  ghost function ViewOf(tx: Texts, t: Resolution, row: Field): View {
    View(Keyed(tx, t, row), NormKey(tx, t, row), set f | f in Subs(row) :: (f.name, ScoreOf(tx, f).tie), row.pages)
  }

  ghost function Views(tx: Texts, t: Resolution, rows: seq<Field>): set<View> {
    set row | row in Dedupe(tx, t, rows) :: ViewOf(tx, t, row)
  }

  ghost function RowSet(rows: seq<Field>): set<Field> { set r | r in rows }

  /** `text` is kept for `name` among these candidates: some best candidate prints it. */
  ghost predicate Kept(tx: Texts, rows: set<Field>, name: string, text: string) {
    exists r, f :: r in rows && f in Subs(r) && f.name == name && ScoreOf(tx, f).tie == text &&
      forall s, g :: s in rows && g in Subs(s) && g.name == name ==> ScoreLe(ScoreOf(tx, g), ScoreOf(tx, f))
  }

  /** A row and all it can join. */
  ghost function Class(tx: Texts, t: Resolution, rows: set<Field>, p: Field): set<Field> {
    set r | r in rows && (r == p || CanJoin(tx, t, p, r))
  }

  /** The view of the rows around `p`, told from the set of input rows alone. */
  ghost predicate Describes(tx: Texts, t: Resolution, rows: set<Field>, p: Field, v: View) {
    var mine := Class(tx, t, rows, p);
    && v.keyed == Keyed(tx, t, p) && v.key == NormKey(tx, t, p)
    && (forall name, text :: (name, text) in v.texts <==> Kept(tx, mine, name, text))
    && v.pages == Sorted(set r, q | r in mine && q in r.pages :: q)
  }

  lemma SamePages(mine: set<Field>, cluster: seq<Field>)
    requires forall r :: r in mine <==> r in cluster
    ensures (set r, p | r in mine && p in r.pages :: p) == PagesOf(cluster)
  {
    forall p ensures p in (set r, q | r in mine && q in r.pages :: q) <==> p in PagesOf(cluster) {
      if p in PagesOf(cluster) {
        var i :| 0 <= i < |cluster| && p in cluster[i].pages;
        assert cluster[i] in mine;
      }
      if r :| r in mine && p in r.pages {
        assert r in cluster;
      }
    }
  }

  lemma TextsInView(tx: Texts, t: Resolution, row: Field, name: string, text: string)
    ensures (name, text) in ViewOf(tx, t, row).texts <==>
            exists f :: f in Subs(row) && f.name == name && ScoreOf(tx, f).tie == text
  {
  }

  lemma SharesWithClass(tx: Texts, t: Resolution, rows: seq<Field>, i: nat, k: nat)
    requires i < |rows| && k < |rows| && (Keyed(tx, t, rows[i]) || Transitive(tx, t, rows))
    ensures Share(tx, t, rows, i, k) <==> Joined(tx, t, rows, i, k)
  {
    if Keyed(tx, t, rows[i]) {
      ClustersFollowKeys(tx, t, rows, i, k);
      JoinMeansSameKey(tx, t, rows[i], rows[k]);
      JoinMeansSameKey(tx, t, rows[k], rows[i]);
      JoinGoesBothWays(tx, t, rows[i], rows[k]);
    } else {
      SharesIffJoins(tx, t, rows);
    }
  }

  lemma StandsInCluster(tx: Texts, t: Resolution, rows: seq<Field>, k: nat)
    requires k < |rows|
    ensures rows[k] in ClusterRows(tx, t, rows, Assign(tx, t, rows, |rows|).home[k])
  {
    var a := Assign(tx, t, rows, |rows|);
    var ms := Members(a.home, a.home[k]);
    MembersAre(a.home, a.home[k]);
    var m :| 0 <= m < |ms| && ms[m] == k;
    assert ClusterRows(tx, t, rows, a.home[k])[m] == rows[k];
  }

  lemma ClusterIsClass(tx: Texts, t: Resolution, rows: seq<Field>, i: nat, r: Field)
    requires i < |rows| && (Keyed(tx, t, rows[i]) || Transitive(tx, t, rows))
    ensures r in ClusterRows(tx, t, rows, Assign(tx, t, rows, |rows|).home[i]) <==>
              r in Class(tx, t, RowSet(rows), rows[i])
  {
    var a := Assign(tx, t, rows, |rows|);
    var c := a.home[i];
    if r in ClusterRows(tx, t, rows, c) {
      var k := PositionInCluster(tx, t, rows, c, r);
      SharesWithClass(tx, t, rows, i, k);
    }
    if r in Class(tx, t, RowSet(rows), rows[i]) {
      var k :| 0 <= k < |rows| && rows[k] == r && (r == rows[i] ==> k == i);
      SharesWithClass(tx, t, rows, i, k);
      StandsInCluster(tx, t, rows, k);
    }
  }

  lemma CanonicalViewDescribes(tx: Texts, t: Resolution, rows: seq<Field>, i: nat)
    requires Shaped(rows) && i < |rows| && (Keyed(tx, t, rows[i]) || Transitive(tx, t, rows))
    ensures Describes(tx, t, RowSet(rows), rows[i],
              ViewOf(tx, t, Dedupe(tx, t, rows)[Assign(tx, t, rows, |rows|).home[i]]))
  {
    var c := Assign(tx, t, rows, |rows|).home[i];
    var cluster := ClusterRows(tx, t, rows, c);
    forall r ensures r in cluster <==> r in Class(tx, t, RowSet(rows), rows[i]) {
      ClusterIsClass(tx, t, rows, i, r);
    }
    ClusterIsShaped(tx, t, rows, c);
    assert cluster[0] in cluster;
    ClusterDescribes(tx, t, cluster, Class(tx, t, RowSet(rows), rows[i]));
    OutputKey(tx, t, rows, c);
    AssignKeysAgree(tx, t, rows, |rows|);
  }

  lemma ClusterDescribes(tx: Texts, t: Resolution, cluster: seq<Field>, mine: set<Field>)
    requires cluster != [] && cluster[0].value.Rows? && forall r :: r in mine <==> r in cluster
    ensures var v := ViewOf(tx, t, Canonicalise(tx, cluster));
      && (forall name, text :: (name, text) in v.texts <==> Kept(tx, mine, name, text))
      && v.pages == Sorted(set r, p | r in mine && p in r.pages :: p)
  {
    var out := Canonicalise(tx, cluster);
    assert cluster[0] in mine;
    SamePages(mine, cluster);
    forall name, text ensures (name, text) in ViewOf(tx, t, out).texts <==> Kept(tx, mine, name, text) {
      TextsInView(tx, t, out, name, text);
      CanonicalTexts(tx, cluster, mine, name, text);
    }
  }

  lemma CanonicalTexts(tx: Texts, cluster: seq<Field>, mine: set<Field>, name: string, text: string)
    requires cluster != [] && cluster[0].value.Rows? && forall r :: r in mine <==> r in cluster
    ensures (exists f :: f in Subs(Canonicalise(tx, cluster)) && f.name == name && ScoreOf(tx, f).tie == text) <==>
            Kept(tx, mine, name, text)
  {
    var subs := AllSubs(cluster);
    CanonicalSubs(tx, cluster);
    AllSubsAre(cluster);
    NamedAre(subs, name);
    if Named(subs, name) != [] {
      var pick := PickCanonical(tx, Named(subs, name));
      PickedIsBest(tx, Named(subs, name));
      var home :| home in cluster && pick in Subs(home);
      assert forall s, g :: s in mine && g in Subs(s) && g.name == name ==> g in Named(subs, name);
      if Kept(tx, mine, name, text) {
        var r, f :| r in mine && f in Subs(r) && f.name == name && ScoreOf(tx, f).tie == text &&
          forall s, g :: s in mine && g in Subs(s) && g.name == name ==> ScoreLe(ScoreOf(tx, g), ScoreOf(tx, f));
        ScoreOrder(ScoreOf(tx, f), ScoreOf(tx, pick), ScoreOf(tx, pick));
        assert ScoreOf(tx, pick).tie == text;
      }
    }
  }

  lemma DescriptionIsUnique(tx: Texts, t: Resolution, rows: set<Field>, p: Field, v: View, w: View)
    requires Describes(tx, t, rows, p, v) && Describes(tx, t, rows, p, w)
    ensures v == w
  {
    forall pair ensures pair in v.texts <==> pair in w.texts {
      var (name, text) := pair;
      assert (name, text) in v.texts <==> (name, text) in w.texts;
    }
  }

  /** The views of the output are exactly the descriptions of the input: of its keyed rows always,
      of all its rows when joining is transitive. */
  lemma EveryDescriptionAppears(tx: Texts, t: Resolution, rows: seq<Field>, v: View)
    requires Shaped(rows) && (v.keyed || Transitive(tx, t, rows))
    ensures v in Views(tx, t, rows) <==> exists p :: p in RowSet(rows) && Describes(tx, t, RowSet(rows), p, v)
  {
    var all, out, a := RowSet(rows), Dedupe(tx, t, rows), Assign(tx, t, rows, |rows|);
    if v in Views(tx, t, rows) {
      var row :| row in out && ViewOf(tx, t, row) == v;
      var c :| 0 <= c < |out| && out[c] == row;
      OutputKey(tx, t, rows, c);
      CanonicalViewDescribes(tx, t, rows, a.reps[c]);
      assert rows[a.reps[c]] in all;
    }
    if p :| p in all && Describes(tx, t, all, p, v) {
      var i :| 0 <= i < |rows| && rows[i] == p;
      CanonicalViewDescribes(tx, t, rows, i);
      DescriptionIsUnique(tx, t, all, p, v, ViewOf(tx, t, out[a.home[i]]));
      assert out[a.home[i]] in out;
    }
  }

  /** Permuting, or repeating, the input rows changes no key, kept text or page list of a keyed
      output row, and of no output row at all when joining is transitive. */
  lemma DedupeIgnoresOrder(tx: Texts, t: Resolution, rows: seq<Field>, shuffled: seq<Field>)
    requires Shaped(rows) && forall r :: r in rows <==> r in shuffled
    ensures forall v: View :: v.keyed ==> (v in Views(tx, t, rows) <==> v in Views(tx, t, shuffled))
    ensures Transitive(tx, t, rows) ==> Views(tx, t, rows) == Views(tx, t, shuffled)
  {
    assert RowSet(rows) == RowSet(shuffled);
    assert Transitive(tx, t, rows) <==> Transitive(tx, t, shuffled);
    forall v: View | v.keyed || Transitive(tx, t, rows)
      ensures v in Views(tx, t, rows) <==> v in Views(tx, t, shuffled)
    {
      EveryDescriptionAppears(tx, t, rows, v);
      EveryDescriptionAppears(tx, t, shuffled, v);
    }
  }
}
