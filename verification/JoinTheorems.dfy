/** When rows count as the same, told by `match_by` and the sub-fields of the rows alone. */
module JoinTheorems {
  import opened Fields
  import opened Canonical
  import opened EntityResolution

  // ---- What a row holds under a name ---------------------------------------

  /** The first sub-field of that name with a scalar stands at `k`. */
  predicate FirstHolds(subs: seq<Field>, name: string, k: int) {
    && 0 <= k < |subs| && subs[k].name == name && IsScalar(subs[k].value)
    && forall i :: 0 <= i < k ==> !(subs[i].name == name && IsScalar(subs[i].value))
  }

  predicate IsScalar(v: Value) { !v.Null? && !v.Rows? }

  /** `text` is what Python prints for the value. */
  predicate Prints(v: Value, text: string) {
    && (v.Text? ==> text == v.text)
    && (v.Number? ==> text == v.text)
    && (v.Boolean? ==> text == if v.b then "True" else "False")
  }

  /** `text` is the stripped print of the first scalar under that name, empty when there is none. */
  ghost predicate Holds(tx: Texts, row: Field, name: string, text: string) {
    if row.value.Rows? && exists k :: FirstHolds(row.value.subs, name, k) then
      forall k, printed :: FirstHolds(row.value.subs, name, k) && Prints(row.value.subs[k].value, printed) ==>
        text == tx.strip(printed)
    else text == ""
  }

  lemma {:induction false} FirstScalarIs(tx: Texts, subs: seq<Field>, name: string) returns (k: nat)
    ensures k < |subs| ==> FirstHolds(subs, name, k) && FirstScalar(tx, subs, name) == tx.strip(Printed(subs[k].value))
    ensures k >= |subs| ==> FirstScalar(tx, subs, name) == "" && forall i :: !FirstHolds(subs, name, i)
  {
    if |subs| == 0 {
      k := 0;
    } else if subs[0].name == name && Scalar(subs[0].value) {
      k := 0;
    } else {
      var at := FirstScalarIs(tx, subs[1..], name);
      k := at + 1;
      forall i ensures i > 0 && FirstHolds(subs, name, i) ==> FirstHolds(subs[1..], name, i - 1) {
        forall j | 0 <= j < i - 1 && i < |subs| ensures subs[1..][j] == subs[j + 1] {
        }
      }
    }
  }

  lemma OneFirst(subs: seq<Field>, name: string, i: int, j: int)
    requires FirstHolds(subs, name, i) && FirstHolds(subs, name, j)
    ensures i == j
  {
  }

  lemma HoldsIs(tx: Texts, row: Field, name: string, text: string)
    ensures Holds(tx, row, name, text) <==> RowValue(tx, row, name) == text
  {
    if row.value.Rows? {
      var subs := row.value.subs;
      var k := FirstScalarIs(tx, subs, name);
      if k < |subs| {
        assert FirstHolds(subs, name, k) && Prints(subs[k].value, Printed(subs[k].value));
        forall i, printed | FirstHolds(subs, name, i) && Prints(subs[i].value, printed)
          ensures tx.strip(printed) == RowValue(tx, row, name)
        {
          OneFirst(subs, name, i, k);
        }
      }
    }
  }

  // ---- Which two sub-fields decide -----------------------------------------

  predicate FirstOther(matchBy: seq<string>, strong: string, k: int) {
    0 <= k < |matchBy| && matchBy[k] != strong && forall i :: 0 <= i < k ==> matchBy[i] == strong
  }

  /** The strong key is the first entry of `match_by`, the name the first entry that differs from it. */
  ghost predicate Decide(matchBy: seq<string>, strong: string, name: string) {
    && strong == (if |matchBy| > 0 then matchBy[0] else "")
    && (if forall k :: 0 <= k < |matchBy| ==> matchBy[k] == strong then name == ""
        else exists k :: FirstOther(matchBy, strong, k) && matchBy[k] == name)
  }

  lemma {:induction false} NameFieldIs(matchBy: seq<string>, strong: string) returns (k: nat)
    ensures forall i :: 0 <= i < k && i < |matchBy| ==> matchBy[i] == strong
    ensures k < |matchBy| ==> matchBy[k] == NameField(matchBy, strong) != strong
    ensures k >= |matchBy| ==> NameField(matchBy, strong) == ""
  {
    if |matchBy| == 0 || matchBy[0] != strong {
      k := 0;
    } else {
      var at := NameFieldIs(matchBy[1..], strong);
      k := at + 1;
      forall i | 0 <= i < k && i < |matchBy| ensures matchBy[i] == strong {
        assert i > 0 ==> matchBy[i] == matchBy[1..][i - 1];
      }
    }
  }

  lemma DecideAre(t: Resolution, strong: string, name: string)
    requires Decide(t.matchBy, strong, name)
    ensures StrongKey(t) == strong && NameField(t.matchBy, StrongKey(t)) == name
  {
    var k := NameFieldIs(t.matchBy, strong);
  }

  /** What a row shows as its strong key: nothing when there is no such key. */
  ghost predicate HasKey(tx: Texts, row: Field, strong: string, key: string) {
    if strong == "" then key == "" else Holds(tx, row, strong, key)
  }

  /** Names are variants: both have words, one has all the words of the other, and that is enough words. */
  ghost predicate Variants(tx: Texts, a: string, b: string, enough: nat) {
    var ta, tb := tx.nameTokens(a), tx.nameTokens(b);
    && |ta| >= enough && |tb| >= enough && |ta| > 0 && |tb| > 0
    && ((forall w :: w in ta ==> w in tb) || (forall w :: w in tb ==> w in ta))
  }

  /** A row with a key joins exactly the rows with the same key; one without joins exactly those
      without whose name is a variant of its own. */
  lemma JoinsIff(tx: Texts, t: Resolution, strong: string, second: string, rep: Field, row: Field,
                 key: string, name: string, key': string, name': string)
    requires Decide(t.matchBy, strong, second)
    requires HasKey(tx, row, strong, key) && Holds(tx, row, second, name)
    requires HasKey(tx, rep, strong, key') && Holds(tx, rep, second, name')
    ensures CanJoin(tx, t, rep, row) <==>
              if key != "" then key' != "" && tx.normKey(key') == tx.normKey(key)
              else key' == "" && second != "" && Variants(tx, name, name', t.minSharedTokens)
  {
    DecideAre(t, strong, second);
    KeyIs(tx, t, row, strong, key);
    KeyIs(tx, t, rep, strong, key');
    HoldsIs(tx, row, second, name);
    HoldsIs(tx, rep, second, name');
    VariantsAre(tx, name, name', t.minSharedTokens);
  }

  lemma KeyIs(tx: Texts, t: Resolution, row: Field, strong: string, key: string)
    requires strong == StrongKey(t) && HasKey(tx, row, strong, key)
    ensures KeyOf(tx, t, row) == key
  {
    HoldsIs(tx, row, strong, key);
  }

  lemma VariantsAre(tx: Texts, a: string, b: string, enough: nat)
    ensures NameVariantMatch(tx, a, b, enough) <==> Variants(tx, a, b, enough)
  {
  }

  // ---- Where a row ends up -------------------------------------------------

  /** Row `i` joined the first cluster opened before it by a row it can join, or opened its own. */
  ghost predicate PlacedRight(tx: Texts, t: Resolution, rows: seq<Field>, a: Assignment, i: nat)
    requires i < |a.home| <= |rows| && Sound(a)
  {
    var rep := a.reps[a.home[i]];
    && (rep == i || (rep < i && CanJoin(tx, t, rows[rep], rows[i])))
    && forall c :: 0 <= c < |a.reps| && a.reps[c] < i && CanJoin(tx, t, rows[a.reps[c]], rows[i]) ==> rep <= a.reps[c]
  }

  ghost predicate AllPlaced(tx: Texts, t: Resolution, rows: seq<Field>, a: Assignment) {
    && |a.home| <= |rows| && Sound(a)
    && (forall c, d :: 0 <= c < d < |a.reps| ==> a.reps[c] < a.reps[d])
    && forall i :: 0 <= i < |a.home| ==> PlacedRight(tx, t, rows, a, i)
  }

  lemma StaysPlaced(tx: Texts, t: Resolution, rows: seq<Field>, a: Assignment, b: Assignment, c: nat, i: nat)
    requires |a.home| < |rows| && Sound(a) && Sound(b) && c <= |a.reps| && b == Extend(a, c)
    requires i < |a.home| && PlacedRight(tx, t, rows, a, i)
    ensures PlacedRight(tx, t, rows, b, i)
  {
    assert b.reps[b.home[i]] == a.reps[a.home[i]];
  }

  lemma LastIsPlaced(tx: Texts, t: Resolution, rows: seq<Field>, a: Assignment, b: Assignment, c: nat)
    requires |a.home| < |rows| && Sound(a) && Sound(b) && b == Extend(a, c)
    requires forall d, e :: 0 <= d < e < |a.reps| ==> a.reps[d] < a.reps[e]
    requires c == FirstFit(tx, t, rows, a.reps, rows[|a.home|], 0)
    ensures PlacedRight(tx, t, rows, b, |a.home|)
  {
    var n := |a.home|;
    assert b.home[n] == c;
    forall d | 0 <= d < |b.reps| && b.reps[d] < n && CanJoin(tx, t, rows[b.reps[d]], rows[n])
      ensures b.reps[c] <= b.reps[d]
    {
      assert d < |a.reps| && a.reps[d] == b.reps[d];
    }
  }

  lemma PlaceNext(tx: Texts, t: Resolution, rows: seq<Field>, a: Assignment, b: Assignment, c: nat)
    requires |a.home| < |rows| && AllPlaced(tx, t, rows, a)
    requires c == FirstFit(tx, t, rows, a.reps, rows[|a.home|], 0) && b == Extend(a, c)
    ensures AllPlaced(tx, t, rows, b)
  {
    SoundNext(a, b, c);
    LastIsPlaced(tx, t, rows, a, b, c);
    forall i | 0 <= i < |a.home| ensures PlacedRight(tx, t, rows, b, i) {
      StaysPlaced(tx, t, rows, a, b, c, i);
    }
    AllAndLast(tx, t, rows, b, |a.home|);
  }

  lemma AllAndLast(tx: Texts, t: Resolution, rows: seq<Field>, b: Assignment, n: nat)
    requires |b.home| == n + 1 <= |rows| && Sound(b)
    requires forall c, d :: 0 <= c < d < |b.reps| ==> b.reps[c] < b.reps[d]
    requires (forall i :: 0 <= i < n ==> PlacedRight(tx, t, rows, b, i)) && PlacedRight(tx, t, rows, b, n)
    ensures AllPlaced(tx, t, rows, b)
  {
  }

  lemma SoundNext(a: Assignment, b: Assignment, c: nat)
    requires Sound(a) && c <= |a.reps| && b == Extend(a, c)
    ensures Sound(b)
    ensures (forall d, e :: 0 <= d < e < |a.reps| ==> a.reps[d] < a.reps[e]) ==>
            forall d, e :: 0 <= d < e < |b.reps| ==> b.reps[d] < b.reps[e]
  {
  }

  lemma AssignNext(tx: Texts, t: Resolution, rows: seq<Field>, k: nat, next: nat)
    requires next == k + 1 <= |rows|
    ensures var a := Assign(tx, t, rows, k);
      Assign(tx, t, rows, next) == Extend(a, FirstFit(tx, t, rows, a.reps, rows[k], 0))
  {
  }

  lemma PlaceRowNext(tx: Texts, t: Resolution, rows: seq<Field>, a: Assignment, k: nat) returns (c: nat)
    requires k < |rows| && |a.home| == k && AllPlaced(tx, t, rows, a)
    ensures c == FirstFit(tx, t, rows, a.reps, rows[k], 0) && AllPlaced(tx, t, rows, Extend(a, c))
  {
    c := FirstFit(tx, t, rows, a.reps, rows[k], 0);
    PlaceNext(tx, t, rows, a, Extend(a, c), c);
  }

  /** So every row joins the first cluster, in the order they were opened, whose opener it can join. */
  lemma EveryRowIsPlaced(tx: Texts, t: Resolution, rows: seq<Field>)
    ensures AllPlaced(tx, t, rows, Assign(tx, t, rows, |rows|))
  {
    var a := Assignment([], []);
    for k := 0 to |rows|
      invariant a == Assign(tx, t, rows, k) && AllPlaced(tx, t, rows, a)
    {
      AssignNext(tx, t, rows, k, k + 1);
      var c := PlaceRowNext(tx, t, rows, a, k);
      a := Extend(a, c);
    }
  }

  /** The case of two rows: they are collapsed into one iff the second can join the first. */
  lemma TwoRowsCollapse(tx: Texts, t: Resolution, rows: seq<Field>)
    requires |rows| == 2
    ensures |Dedupe(tx, t, rows)| == if CanJoin(tx, t, rows[0], rows[1]) then 1 else 2
  {
    assert Assign(tx, t, rows, 0) == Assignment([], []);
    assert FirstFit(tx, t, rows, [], rows[0], 0) == 0;
    var a := Assign(tx, t, rows, 1);
    assert a.reps == [0];
    assert Assign(tx, t, rows, 2) == Extend(a, FirstFit(tx, t, rows, a.reps, rows[1], 0));
  }
}
