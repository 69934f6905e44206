/** Deterministic deduplication of array rows: a strong exact key first, name variants after. */
module EntityResolution {
  import opened Collections
  import opened Fields
  import opened Canonical

  datatype Resolution = Resolution(matchBy: seq<string>, minSharedTokens: nat)

  function StrongKey(t: Resolution): string { if t.matchBy == [] then "" else t.matchBy[0] }

  /** The first `match_by` entry that is not the strong key. */
  function NameField(matchBy: seq<string>, strongKey: string): string {
    if |matchBy| == 0 then ""
    else if matchBy[0] != strongKey then matchBy[0]
    else NameField(matchBy[1..], strongKey)
  }

  /** The stripped text of the first scalar sub-field of that name, or nothing. */
  function FirstScalar(tx: Texts, subs: seq<Field>, name: string): string {
    if |subs| == 0 then ""
    else if subs[0].name == name && Scalar(subs[0].value) then tx.strip(Printed(subs[0].value))
    else FirstScalar(tx, subs[1..], name)
  }

  function RowValue(tx: Texts, row: Field, name: string): string {
    FirstScalar(tx, Subs(row), name)
  }

  function KeyOf(tx: Texts, t: Resolution, row: Field): string {
    if StrongKey(t) == "" then "" else RowValue(tx, row, StrongKey(t))
  }

  predicate Keyed(tx: Texts, t: Resolution, row: Field) { KeyOf(tx, t, row) != "" }

  function NormKey(tx: Texts, t: Resolution, row: Field): string { tx.normKey(KeyOf(tx, t, row)) }

  predicate NameVariantMatch(tx: Texts, a: string, b: string, minShared: nat) {
    var ta, tb := tx.nameTokens(a), tx.nameTokens(b);
    ta != {} && tb != {} && (ta <= tb || tb <= ta) && (if |ta| < |tb| then |ta| else |tb|) >= minShared
  }

  /** Whether a row folds into the cluster that `rep` opened. */
  predicate CanJoin(tx: Texts, t: Resolution, rep: Field, row: Field) {
    var nameField := NameField(t.matchBy, StrongKey(t));
    if Keyed(tx, t, row) then Keyed(tx, t, rep) && NormKey(tx, t, rep) == NormKey(tx, t, row)
    else nameField != "" && !Keyed(tx, t, rep) &&
         NameVariantMatch(tx, RowValue(tx, row, nameField), RowValue(tx, rep, nameField), t.minSharedTokens)
  }

  // ---- Clustering ----------------------------------------------------------

  /** Clusters by the row that opened each (`reps`) and the cluster of each row (`home`). */
  datatype Assignment = Assignment(reps: seq<nat>, home: seq<nat>)

  ghost predicate Openers(rows: seq<Field>, reps: seq<nat>) {
    forall c :: 0 <= c < |reps| ==> reps[c] < |rows|
  }

  /** The first cluster from `c` on that a row can join, or the number of clusters. */
  ghost function FirstFit(tx: Texts, t: Resolution, rows: seq<Field>, reps: seq<nat>, row: Field, c: nat): (at: nat)
    requires Openers(rows, reps) && c <= |reps|
    ensures c <= at <= |reps|
    ensures forall d :: c <= d < at ==> !CanJoin(tx, t, rows[reps[d]], row)
    ensures at < |reps| ==> CanJoin(tx, t, rows[reps[at]], row)
    decreases |reps| - c
  {
    if c == |reps| || CanJoin(tx, t, rows[reps[c]], row) then c
    else FirstFit(tx, t, rows, reps, row, c + 1)
  }

  /** The next row lands in cluster `c`, which it opens when there is none of that number. */
  function Extend(a: Assignment, c: nat): Assignment {
    Assignment(if c < |a.reps| then a.reps else a.reps + [|a.home|], a.home + [c])
  }

  /** Every row in turn joins the first cluster it fits, or opens one. */
  ghost function Assign(tx: Texts, t: Resolution, rows: seq<Field>, n: nat): (a: Assignment)
    requires n <= |rows|
    ensures |a.home| == n
    ensures forall i :: 0 <= i < n ==> a.home[i] < |a.reps|
    ensures forall c :: 0 <= c < |a.reps| ==> a.reps[c] < n && a.home[a.reps[c]] == c
  {
    if n == 0 then Assignment([], [])
    else
      var a := Assign(tx, t, rows, n - 1);
      Extend(a, FirstFit(tx, t, rows, a.reps, rows[n - 1], 0))
  }

  /** The rows of one cluster, in input order. */
  function Members(home: seq<nat>, c: nat): (ms: seq<nat>)
    ensures forall k :: 0 <= k < |ms| ==> ms[k] < |home| && home[ms[k]] == c
  {
    if |home| == 0 then []
    else
      var front := Members(home[..|home| - 1], c);
      if home[|home| - 1] == c then front + [|home| - 1] else front
  }

  lemma {:induction false} MembersAre(home: seq<nat>, c: nat)
    ensures var ms := Members(home, c);
      && (forall j, k :: 0 <= j < k < |ms| ==> ms[j] < ms[k])
      && (forall i :: 0 <= i < |home| && home[i] == c ==> i in ms)
  {
    if home != [] {
      MembersAre(home[..|home| - 1], c);
    }
  }

  lemma MembersSnoc(home: seq<nat>, h: nat, c: nat)
    ensures Members(home + [h], c) == if h == c then Members(home, c) + [|home|] else Members(home, c)
  {
    assert (home + [h])[..|home|] == home;
  }

  function RowsAt(rows: seq<Field>, positions: seq<nat>): (rs: seq<Field>)
    requires forall k :: 0 <= k < |positions| ==> positions[k] < |rows|
    ensures |rs| == |positions| && forall k :: 0 <= k < |positions| ==> rs[k] == rows[positions[k]]
  {
    seq(|positions|, k requires 0 <= k < |positions| => rows[positions[k]])
  }

  ghost function ClusterRows(tx: Texts, t: Resolution, rows: seq<Field>, c: nat): (rs: seq<Field>)
    requires c < |Assign(tx, t, rows, |rows|).reps|
    ensures rs != []
  {
    var a := Assign(tx, t, rows, |rows|);
    MembersAre(a.home, c);
    assert a.reps[c] in Members(a.home, c);
    RowsAt(rows, Members(a.home, c))
  }

  ghost function Dedupe(tx: Texts, t: Resolution, rows: seq<Field>): (out: seq<Field>)
    ensures |out| == |Assign(tx, t, rows, |rows|).reps|
    ensures forall c :: 0 <= c < |out| ==> out[c] == Canonicalise(tx, ClusterRows(tx, t, rows, c))
  {
    seq(|Assign(tx, t, rows, |rows|).reps|, c requires 0 <= c < |Assign(tx, t, rows, |rows|).reps| =>
      Canonicalise(tx, ClusterRows(tx, t, rows, c)))
  }

  // ---- Who shares a cluster ------------------------------------------------

  ghost predicate KeysAgree(tx: Texts, t: Resolution, rows: seq<Field>, a: Assignment)
    requires |a.home| <= |rows| && Sound(a)
  {
    AtHome(tx, t, rows, a) && OpenersApart(tx, t, rows, a.reps)
  }

  /** Every assignment points inside the rows seen so far. */
  ghost predicate Sound(a: Assignment) {
    && (forall i :: 0 <= i < |a.home| ==> a.home[i] < |a.reps|)
    && (forall c :: 0 <= c < |a.reps| ==> a.reps[c] < |a.home|)
  }

  ghost predicate AtHome(tx: Texts, t: Resolution, rows: seq<Field>, a: Assignment)
    requires |a.home| <= |rows| && Sound(a)
  {
    forall i :: 0 <= i < |a.home| ==> SameKey(tx, t, rows[i], rows[a.reps[a.home[i]]])
  }

  ghost predicate OpenersApart(tx: Texts, t: Resolution, rows: seq<Field>, reps: seq<nat>)
    requires Openers(rows, reps)
  {
    forall c, d :: 0 <= c < d < |reps| && Keyed(tx, t, rows[reps[c]]) ==> !SameKey(tx, t, rows[reps[c]], rows[reps[d]])
  }

  /** Both keyless, or both keyed with one normalised key. */
  predicate SameKey(tx: Texts, t: Resolution, x: Field, y: Field) {
    if Keyed(tx, t, x) then Keyed(tx, t, y) && NormKey(tx, t, x) == NormKey(tx, t, y) else !Keyed(tx, t, y)
  }

  lemma JoinMeansSameKey(tx: Texts, t: Resolution, rep: Field, row: Field)
    ensures CanJoin(tx, t, rep, row) ==> SameKey(tx, t, row, rep)
    ensures Keyed(tx, t, row) && SameKey(tx, t, row, rep) ==> CanJoin(tx, t, rep, row)
    ensures SameKey(tx, t, row, rep) <==> SameKey(tx, t, rep, row)
    ensures Keyed(tx, t, row) && Keyed(tx, t, rep) && SameKey(tx, t, row, rep) ==>
              NormKey(tx, t, row) == NormKey(tx, t, rep)
  {
  }

  lemma OneMoreHome(tx: Texts, t: Resolution, rows: seq<Field>, a: Assignment, c: nat)
    requires |a.home| < |rows| && Sound(a) && AtHome(tx, t, rows, a)
    requires c <= |a.reps| && (c < |a.reps| ==> SameKey(tx, t, rows[|a.home|], rows[a.reps[c]]))
    ensures Sound(Extend(a, c)) && AtHome(tx, t, rows, Extend(a, c))
  {
    var b := Extend(a, c);
    forall i | 0 <= i < |b.home| ensures SameKey(tx, t, rows[i], rows[b.reps[b.home[i]]]) {
      if i < |a.home| {
        assert b.reps[b.home[i]] == a.reps[a.home[i]];
      }
    }
  }

  lemma OneMoreApart(tx: Texts, t: Resolution, rows: seq<Field>, reps: seq<nat>, n: nat)
    requires n < |rows| && Openers(rows, reps) && OpenersApart(tx, t, rows, reps)
    requires forall d :: 0 <= d < |reps| ==> !CanJoin(tx, t, rows[reps[d]], rows[n])
    ensures OpenersApart(tx, t, rows, reps + [n])
  {
    forall d | 0 <= d < |reps| && Keyed(tx, t, rows[reps[d]]) ensures !SameKey(tx, t, rows[reps[d]], rows[n]) {
      JoinMeansSameKey(tx, t, rows[reps[d]], rows[n]);
    }
  }

  lemma OneMoreRow(tx: Texts, t: Resolution, rows: seq<Field>, a: Assignment)
    requires |a.home| < |rows| && Sound(a) && KeysAgree(tx, t, rows, a)
    ensures var b := Extend(a, FirstFit(tx, t, rows, a.reps, rows[|a.home|], 0)); Sound(b) && KeysAgree(tx, t, rows, b)
  {
    var n := |a.home|;
    var c := FirstFit(tx, t, rows, a.reps, rows[n], 0);
    if c < |a.reps| {
      JoinMeansSameKey(tx, t, rows[a.reps[c]], rows[n]);
    } else {
      OneMoreApart(tx, t, rows, a.reps, n);
    }
    OneMoreHome(tx, t, rows, a, c);
  }

  lemma AssignKeysAgree(tx: Texts, t: Resolution, rows: seq<Field>, n: nat)
    requires n <= |rows|
    ensures Sound(Assign(tx, t, rows, n)) && KeysAgree(tx, t, rows, Assign(tx, t, rows, n))
  {
    var a := Assignment([], []);
    for k := 0 to n
      invariant a == Assign(tx, t, rows, k) && Sound(a) && KeysAgree(tx, t, rows, a)
    {
      OneMoreRow(tx, t, rows, a);
      a := Assign(tx, t, rows, k + 1);
    }
  }

  /** Every row is in exactly one cluster; two keyed rows share it iff their normalised keys
      agree; a keyless row never shares one with a keyed row. */
  lemma ClustersFollowKeys(tx: Texts, t: Resolution, rows: seq<Field>, i: nat, j: nat)
    requires i < |rows| && j < |rows|
    ensures var a := Assign(tx, t, rows, |rows|);
      && (forall c :: 0 <= c < |a.reps| ==> (i in Members(a.home, c) <==> c == a.home[i]))
      && (Keyed(tx, t, rows[i]) && Keyed(tx, t, rows[j]) ==>
            (a.home[i] == a.home[j] <==> NormKey(tx, t, rows[i]) == NormKey(tx, t, rows[j])))
      && (Keyed(tx, t, rows[i]) && !Keyed(tx, t, rows[j]) ==> a.home[i] != a.home[j])
  {
    var a := Assign(tx, t, rows, |rows|);
    AssignKeysAgree(tx, t, rows, |rows|);
    MembersAre(a.home, a.home[i]);
    assert SameKey(tx, t, rows[i], rows[a.reps[a.home[i]]]);
    assert SameKey(tx, t, rows[j], rows[a.reps[a.home[j]]]);
  }

  // ---- The source's loop ---------------------------------------------------

  /** The cluster lists spell out an assignment. */
  ghost predicate Lists(a: Assignment, clusters: seq<seq<nat>>) {
    && |clusters| == |a.reps|
    && forall c :: 0 <= c < |clusters| ==>
        clusters[c] == Members(a.home, c) && clusters[c] != [] && clusters[c][0] == a.reps[c]
  }

  /** The dictionary sends a normalised key to the cluster opened under it. */
  ghost predicate Indexes(tx: Texts, t: Resolution, rows: seq<Field>, reps: seq<nat>, byKey: map<string, nat>)
    requires Openers(rows, reps)
  {
    && (forall k :: k in byKey ==>
          byKey[k] < |reps| && Keyed(tx, t, rows[reps[byKey[k]]]) && NormKey(tx, t, rows[reps[byKey[k]]]) == k)
    && (forall c :: 0 <= c < |reps| && Keyed(tx, t, rows[reps[c]]) ==> NormKey(tx, t, rows[reps[c]]) in byKey)
  }

  ghost predicate TableInv(tx: Texts, t: Resolution, rows: seq<Field>, n: nat, clusters: seq<seq<nat>>,
                           byKey: map<string, nat>)
    requires n <= |rows|
  {
    var a := Assign(tx, t, rows, n);
    Lists(a, clusters) && Indexes(tx, t, rows, a.reps, byKey)
  }

  lemma JoinedList(a: Assignment, clusters: seq<seq<nat>>, c: nat)
    requires Lists(a, clusters) && Sound(a) && c < |clusters|
    ensures Lists(Extend(a, c), clusters[c := clusters[c] + [|a.home|]])
  {
    forall d | 0 <= d < |clusters| ensures Members(a.home + [c], d) == clusters[c := clusters[c] + [|a.home|]][d] {
      MembersSnoc(a.home, c, d);
    }
  }

  lemma NewList(a: Assignment, clusters: seq<seq<nat>>)
    requires Lists(a, clusters) && Sound(a)
    ensures Lists(Extend(a, |clusters|), clusters + [[|a.home|]])
  {
    forall d | 0 <= d <= |clusters| ensures Members(a.home + [|clusters|], d) == (clusters + [[|a.home|]])[d] {
      MembersSnoc(a.home, |clusters|, d);
      if d == |clusters| {
        NobodyThere(a.home, d);
      }
    }
  }

  lemma {:induction false} NobodyThere(home: seq<nat>, c: nat)
    requires forall i :: 0 <= i < |home| ==> home[i] != c
    ensures Members(home, c) == []
  {
    if home != [] {
      NobodyThere(home[..|home| - 1], c);
    }
  }

  /** For a keyed row the dictionary knows the first fit. */
  lemma KeyedFit(tx: Texts, t: Resolution, rows: seq<Field>, n: nat, byKey: map<string, nat>)
    requires n < |rows| && Keyed(tx, t, rows[n]) && Indexes(tx, t, rows, Assign(tx, t, rows, n).reps, byKey)
    ensures var reps := Assign(tx, t, rows, n).reps;
      var c := FirstFit(tx, t, rows, reps, rows[n], 0);
      if NormKey(tx, t, rows[n]) in byKey then c == byKey[NormKey(tx, t, rows[n])] else c == |reps|
  {
    var reps := Assign(tx, t, rows, n).reps;
    var c := FirstFit(tx, t, rows, reps, rows[n], 0);
    var key := NormKey(tx, t, rows[n]);
    AssignKeysAgree(tx, t, rows, n);
    if key in byKey {
      var b := byKey[key];
      assert CanJoin(tx, t, rows[reps[b]], rows[n]);
      assert c <= b;
      JoinMeansSameKey(tx, t, rows[reps[c]], rows[n]);
      assert SameKey(tx, t, rows[reps[c]], rows[reps[b]]);
    }
  }

  /** The table after row `n` joins cluster `c`. */
  lemma RowJoins(tx: Texts, t: Resolution, rows: seq<Field>, n: nat, clusters: seq<seq<nat>>, byKey: map<string, nat>,
                 c: nat)
    requires n < |rows| && TableInv(tx, t, rows, n, clusters, byKey)
    requires c == FirstFit(tx, t, rows, Assign(tx, t, rows, n).reps, rows[n], 0) && c < |clusters|
    ensures TableInv(tx, t, rows, n + 1, clusters[c := clusters[c] + [n]], byKey)
  {
    JoinedList(Assign(tx, t, rows, n), clusters, c);
  }

  /** The table after row `n` opens a cluster. */
  lemma RowOpens(tx: Texts, t: Resolution, rows: seq<Field>, n: nat, clusters: seq<seq<nat>>, byKey: map<string, nat>)
    requires n < |rows| && TableInv(tx, t, rows, n, clusters, byKey)
    requires FirstFit(tx, t, rows, Assign(tx, t, rows, n).reps, rows[n], 0) == |clusters|
    ensures !Keyed(tx, t, rows[n]) ==> TableInv(tx, t, rows, n + 1, clusters + [[n]], byKey)
    ensures Keyed(tx, t, rows[n]) && NormKey(tx, t, rows[n]) !in byKey ==>
              TableInv(tx, t, rows, n + 1, clusters + [[n]], byKey[NormKey(tx, t, rows[n]) := |clusters|])
  {
    var a := Assign(tx, t, rows, n);
    NewList(a, clusters);
    OneMoreOpener(tx, t, rows, a.reps, n, byKey);
  }

  lemma OneMoreOpener(tx: Texts, t: Resolution, rows: seq<Field>, reps: seq<nat>, n: nat, byKey: map<string, nat>)
    requires n < |rows| && Openers(rows, reps) && Indexes(tx, t, rows, reps, byKey)
    ensures !Keyed(tx, t, rows[n]) ==> Indexes(tx, t, rows, reps + [n], byKey)
    ensures Keyed(tx, t, rows[n]) && NormKey(tx, t, rows[n]) !in byKey ==>
              Indexes(tx, t, rows, reps + [n], byKey[NormKey(tx, t, rows[n]) := |reps|])
  {
  }

  /** Walks the rows once, folding each into a cluster, then collapses every cluster. */
  method DedupeRows(tx: Texts, t: Resolution, rows: seq<Field>) returns (out: seq<Field>)
    ensures out == Dedupe(tx, t, rows)
  {
    var clusters: seq<seq<nat>> := [];
    var byKey: map<string, nat> := map[];
    for n := 0 to |rows|
      invariant TableInv(tx, t, rows, n, clusters, byKey)
    {
      clusters, byKey := PlaceRow(tx, t, rows, n, clusters, byKey);
    }
    out := CollapseAll(tx, t, rows, clusters);
  }

  /** The loop body: phase one by dictionary, phase two by scanning the clusters. */
  method PlaceRow(tx: Texts, t: Resolution, rows: seq<Field>, n: nat, clusters: seq<seq<nat>>, byKey: map<string, nat>)
    returns (clusters': seq<seq<nat>>, byKey': map<string, nat>)
    requires n < |rows| && TableInv(tx, t, rows, n, clusters, byKey)
    ensures TableInv(tx, t, rows, n + 1, clusters', byKey')
  {
    clusters', byKey' := clusters, byKey;
    var strongKey := StrongKey(t);
    var keyValue := if strongKey != "" then RowValue(tx, rows[n], strongKey) else "";
    if keyValue != "" {
      var key := tx.normKey(keyValue);
      KeyedFit(tx, t, rows, n, byKey);
      if key in byKey {
        RowJoins(tx, t, rows, n, clusters, byKey, byKey[key]);
        clusters' := clusters[byKey[key] := clusters[byKey[key]] + [n]];
      } else {
        RowOpens(tx, t, rows, n, clusters, byKey);
        byKey' := byKey[key := |clusters|];
        clusters' := clusters + [[n]];
      }
      return;
    }
    var at := FindVariant(tx, t, rows, clusters, Assign(tx, t, rows, n).reps, rows[n], NameField(t.matchBy, strongKey));
    if at < |clusters| {
      RowJoins(tx, t, rows, n, clusters, byKey, at);
      clusters' := clusters[at := clusters[at] + [n]];
    } else {
      RowOpens(tx, t, rows, n, clusters, byKey);
      clusters' := clusters + [[n]];
    }
  }

  /** Phase two: the first keyless cluster whose opener's name is a variant of this row's. */
  method FindVariant(tx: Texts, t: Resolution, rows: seq<Field>, clusters: seq<seq<nat>>, ghost reps: seq<nat>,
                     row: Field, nameField: string)
    returns (at: nat)
    requires Openers(rows, reps) && |clusters| == |reps|
    requires forall c :: 0 <= c < |clusters| ==> clusters[c] != [] && clusters[c][0] == reps[c]
    requires nameField == NameField(t.matchBy, StrongKey(t)) && !Keyed(tx, t, row)
    ensures at == FirstFit(tx, t, rows, reps, row, 0)
  {
    at := 0;
    if nameField == "" {
      NoNameNoFit(tx, t, rows, reps, row, 0);
      return |clusters|;
    }
    var thisName := RowValue(tx, row, nameField);
    while at < |clusters|
      invariant at <= |clusters|
      invariant FirstFit(tx, t, rows, reps, row, 0) == FirstFit(tx, t, rows, reps, row, at)
    {
      var rep := rows[clusters[at][0]];
      var firmer := StrongKey(t) != "" && RowValue(tx, rep, StrongKey(t)) != "";
      assert firmer == Keyed(tx, t, rep);
      if !firmer && NameVariantMatch(tx, thisName, RowValue(tx, rep, nameField), t.minSharedTokens) {
        return;
      }
      at := at + 1;
    }
  }

  lemma {:induction false} NoNameNoFit(tx: Texts, t: Resolution, rows: seq<Field>, reps: seq<nat>, row: Field, c: nat)
    requires Openers(rows, reps) && c <= |reps|
    requires NameField(t.matchBy, StrongKey(t)) == "" && !Keyed(tx, t, row)
    ensures FirstFit(tx, t, rows, reps, row, c) == |reps|
    decreases |reps| - c
  {
    if c < |reps| {
      NoNameNoFit(tx, t, rows, reps, row, c + 1);
    }
  }

  lemma ListedRows(tx: Texts, t: Resolution, rows: seq<Field>, clusters: seq<seq<nat>>, c: nat)
    requires Lists(Assign(tx, t, rows, |rows|), clusters) && c < |clusters|
    ensures clusters[c] != [] && forall k :: 0 <= k < |clusters[c]| ==> clusters[c][k] < |rows|
    ensures RowsAt(rows, clusters[c]) == ClusterRows(tx, t, rows, c)
  {
  }

  method CollapseAll(tx: Texts, t: Resolution, rows: seq<Field>, clusters: seq<seq<nat>>)
    returns (out: seq<Field>)
    requires Lists(Assign(tx, t, rows, |rows|), clusters)
    ensures out == Dedupe(tx, t, rows)
  {
    out := [];
    ghost var all := Dedupe(tx, t, rows);
    for c := 0 to |clusters|
      invariant out == all[..c]
    {
      ListedRows(tx, t, rows, clusters, c);
      var merged := CanonicaliseRows(tx, RowsAt(rows, clusters[c]));
      TakeNext(all, c);
      out := out + [merged];
    }
    TakeAll(all);
  }
}
