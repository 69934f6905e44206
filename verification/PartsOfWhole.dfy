/** The parts-of-whole guard: rows are dropped, least trustworthy first, until their shares fit. */
module PartsOfWhole {
  import opened Collections
  import opened Wrappers
  import opened Fields
  import opened Strings
  import opened RowIdentity

  /** `number` is Python's `float`, `round` its rounding to six places; both uninterpreted. */
  datatype Arithmetic = Arithmetic(number: Value -> Option<real>, round: real -> real)

  datatype Invariant = Invariant(shareField: string, total: real, tolerance: real, warnOnly: bool)

  // ---- Shares --------------------------------------------------------------

  /** The first sub-field of that name decides; what is no number counts for nothing. */
  function ShareIn(ar: Arithmetic, subs: seq<Field>, name: string): real {
    if |subs| == 0 then 0.0
    else if subs[0].name == name then (match ar.number(subs[0].value) case Some(x) => x case None => 0.0)
    else ShareIn(ar, subs[1..], name)
  }

  function Share(ar: Arithmetic, inv: Invariant, row: Field): real { ShareIn(ar, Subs(row), inv.shareField) }

  function Total(ar: Arithmetic, inv: Invariant, rows: seq<Field>): real {
    if |rows| == 0 then 0.0 else Total(ar, inv, rows[..|rows| - 1]) + Share(ar, inv, rows[|rows| - 1])
  }

  predicate Fits(ar: Arithmetic, inv: Invariant, rows: seq<Field>) {
    ar.round(Total(ar, inv, rows)) <= inv.total + inv.tolerance
  }

  // ---- The victim order ----------------------------------------------------

  datatype Key = Key(sourced: bool, confidence: real, tokens: nat, text: string)

  function VictimKey(tk: Tokenizer, row: Field): Key {
    Key(row.notes != Some(Unmatched), row.confidence, |RowTokens(tk, row)|, tk.joined(RowTokens(tk, row)))
  }

  predicate KeyLe(a: Key, b: Key) {
    if a.sourced != b.sourced then b.sourced
    else if a.confidence != b.confidence then a.confidence < b.confidence
    else if a.tokens != b.tokens then a.tokens < b.tokens
    else LexLe(a.text, b.text)
  }

  lemma KeyOrder(a: Key, b: Key, c: Key)
    ensures KeyLe(a, b) || KeyLe(b, a)
    ensures KeyLe(a, b) && KeyLe(b, a) ==> a == b
    ensures KeyLe(a, b) && KeyLe(b, c) ==> KeyLe(a, c)
  {
    LexTotal(a.text, b.text);
    if LexLe(a.text, b.text) && LexLe(b.text, a.text) {
      LexAntisymmetric(a.text, b.text);
    }
    if LexLe(a.text, b.text) && LexLe(b.text, c.text) {
      LexTransitive(a.text, b.text, c.text);
    }
  }

  predicate RowLe(tk: Tokenizer, a: Field, b: Field) { KeyLe(VictimKey(tk, a), VictimKey(tk, b)) }

  predicate IsVictim(tk: Tokenizer, rows: seq<Field>, v: nat) {
    v < |rows| && (forall i :: 0 <= i < |rows| ==> RowLe(tk, rows[v], rows[i])) &&
    forall i :: 0 <= i < v ==> !RowLe(tk, rows[i], rows[v])
  }

  /** Python's `min(kept, key=…)`: the first of the least. */
  function Victim(tk: Tokenizer, rows: seq<Field>): (v: nat)
    requires rows != []
    ensures IsVictim(tk, rows, v)
  {
    if |rows| == 1 then
      OnlyVictim(tk, rows);
      0
    else
      var v := Victim(tk, rows[..|rows| - 1]);
      VictimStep(tk, rows, v);
      if RowLe(tk, rows[v], rows[|rows| - 1]) then v else |rows| - 1
  }

  lemma OnlyVictim(tk: Tokenizer, rows: seq<Field>)
    requires |rows| == 1
    ensures IsVictim(tk, rows, 0)
  {
    KeyOrder(VictimKey(tk, rows[0]), VictimKey(tk, rows[0]), VictimKey(tk, rows[0]));
  }

  lemma VictimStep(tk: Tokenizer, rows: seq<Field>, v: nat)
    requires |rows| > 1 && IsVictim(tk, rows[..|rows| - 1], v)
    ensures IsVictim(tk, rows, if RowLe(tk, rows[v], rows[|rows| - 1]) then v else |rows| - 1)
  {
    var front, last := rows[..|rows| - 1], rows[|rows| - 1];
    KeyOrder(VictimKey(tk, last), VictimKey(tk, last), VictimKey(tk, last));
    forall i | 0 <= i < |front| ensures RowLe(tk, rows[v], rows[i]) && (i < v ==> !RowLe(tk, rows[i], rows[v])) {
      assert rows[i] == front[i];
    }
    forall i | 0 <= i < |front| && !RowLe(tk, rows[v], last)
      ensures RowLe(tk, last, rows[i]) && !RowLe(tk, rows[i], last)
    {
      KeyOrder(VictimKey(tk, last), VictimKey(tk, rows[v]), VictimKey(tk, rows[i]));
      KeyOrder(VictimKey(tk, rows[v]), VictimKey(tk, rows[i]), VictimKey(tk, last));
    }
  }

  function Drop<T>(s: seq<T>, i: nat): seq<T>
    requires i < |s|
  {
    s[..i] + s[i + 1..]
  }

  // ---- The guard -----------------------------------------------------------

  function Repair(tk: Tokenizer, ar: Arithmetic, inv: Invariant, rows: seq<Field>): seq<Field>
    decreases |rows|
  {
    if Fits(ar, inv, rows) || |rows| <= 1 then rows
    else Repair(tk, ar, inv, Drop(rows, Victim(tk, rows)))
  }

  function Enforced(tk: Tokenizer, ar: Arithmetic, inv: Invariant, rows: seq<Field>): seq<Field> {
    if inv.warnOnly then rows else Repair(tk, ar, inv, rows)
  }

  /** Python's `list.remove`: the first element equal to `x`. */
  method RemoveFirst(kept: seq<Field>, x: Field) returns (rest: seq<Field>)
    requires x in kept
    ensures exists i :: 0 <= i < |kept| && kept[i] == x && x !in kept[..i] && rest == Drop(kept, i)
  {
    var i := 0;
    while kept[i] != x
      invariant 0 <= i < |kept| && x !in kept[..i]
      decreases |kept| - i
    {
      assert kept[..i + 1] == kept[..i] + [kept[i]];
      assert kept == kept[..i + 1] + kept[i + 1..];
      i := i + 1;
    }
    rest := Drop(kept, i);
  }

  lemma RemovedIsVictim(tk: Tokenizer, kept: seq<Field>, v: nat, i: nat)
    requires IsVictim(tk, kept, v) && i < |kept| && kept[i] == kept[v] && kept[v] !in kept[..i]
    ensures i == v
  {
    KeyOrder(VictimKey(tk, kept[v]), VictimKey(tk, kept[v]), VictimKey(tk, kept[v]));
  }

  method EnforceInvariant(tk: Tokenizer, ar: Arithmetic, inv: Invariant, rows: seq<Field>)
    returns (kept: seq<Field>, dropped: nat)
    ensures kept == Enforced(tk, ar, inv, rows)
    ensures |kept| + dropped == |rows|
  {
    kept, dropped := rows, 0;
    if Fits(ar, inv, rows) || inv.warnOnly {
      return;
    }
    while !Fits(ar, inv, kept) && |kept| > 1
      invariant Repair(tk, ar, inv, kept) == Repair(tk, ar, inv, rows)
      invariant |kept| + dropped == |rows|
      decreases |kept|
    {
      var v := Victim(tk, kept);
      ghost var before := kept;
      kept := RemoveFirst(kept, kept[v]);
      ghost var i :| 0 <= i < |before| && before[i] == before[v] && before[v] !in before[..i] &&
          kept == Drop(before, i);
      RemovedIsVictim(tk, before, v, i);
      dropped := dropped + 1;
    }
  }

  // ---- What is dropped -----------------------------------------------------

  /** Position `i` is dropped before position `j`. */
  predicate Before(tk: Tokenizer, rows: seq<Field>, i: nat, j: nat)
    requires i < |rows| && j < |rows|
  {
    RowLe(tk, rows[i], rows[j]) && (RowLe(tk, rows[j], rows[i]) ==> i < j)
  }

  /** The positions that go first: nothing outside comes before anything inside. */
  ghost predicate GoFirst(tk: Tokenizer, rows: seq<Field>, gone: set<nat>) {
    && (forall i :: i in gone ==> i < |rows|)
    && forall i, j :: i in gone && 0 <= j < |rows| && Before(tk, rows, j, i) ==> j in gone
  }

  /** The first `n` positions but those gone. */
  function Left(n: nat, gone: set<nat>): (left: seq<nat>)
    ensures forall k :: 0 <= k < |left| ==> left[k] < n && left[k] !in gone
  {
    if n == 0 then [] else Left(n - 1, gone) + (if n - 1 in gone then [] else [n - 1])
  }

  lemma {:induction false} LeftAre(n: nat, gone: set<nat>)
    ensures forall j, k :: 0 <= j < k < |Left(n, gone)| ==> Left(n, gone)[j] < Left(n, gone)[k]
    ensures forall i :: 0 <= i < n && i !in gone ==> i in Left(n, gone)
  {
    if n > 0 {
      LeftAre(n - 1, gone);
    }
  }

  lemma {:induction false} LeftDrop(n: nat, gone: set<nat>, k: nat)
    requires k < |Left(n, gone)|
    ensures Left(n, gone + {Left(n, gone)[k]}) == Drop(Left(n, gone), k)
  {
    var front, p := Left(n - 1, gone), Left(n, gone)[k];
    if k == |front| {
      LeftSame(n - 1, gone, p);
    } else {
      LeftDrop(n - 1, gone, k);
    }
  }

  lemma {:induction false} LeftSame(n: nat, gone: set<nat>, p: nat)
    requires n <= p
    ensures Left(n, gone + {p}) == Left(n, gone)
  {
    if n > 0 {
      LeftSame(n - 1, gone, p);
    }
  }

  function Without(rows: seq<Field>, gone: set<nat>): (r: seq<Field>)
    ensures |r| == |Left(|rows|, gone)| && forall k :: 0 <= k < |r| ==> r[k] == rows[Left(|rows|, gone)[k]]
  {
    var left := Left(|rows|, gone);
    seq(|left|, k requires 0 <= k < |left| => rows[left[k]])
  }

  /** Where a position that is not gone stands among those left. */
  lemma PlaceLeft(n: nat, gone: set<nat>, i: nat) returns (k: nat)
    requires i < n && i !in gone
    ensures k < |Left(n, gone)| && Left(n, gone)[k] == i
  {
    LeftAre(n, gone);
    k :| 0 <= k < |Left(n, gone)| && Left(n, gone)[k] == i;
  }

  lemma LeftInOrder(n: nat, gone: set<nat>, j: nat, k: nat)
    requires j <= k < |Left(n, gone)|
    ensures Left(n, gone)[j] <= Left(n, gone)[k]
  {
    LeftAre(n, gone);
  }

  /** Nothing that is left comes before the victim of what is left. */
  lemma VictimIsNext(tk: Tokenizer, rows: seq<Field>, gone: set<nat>, v: nat, j: nat)
    requires IsVictim(tk, Without(rows, gone), v) && j < |rows| && j !in gone
    ensures !Before(tk, rows, j, Left(|rows|, gone)[v])
  {
    var left, kept := Left(|rows|, gone), Without(rows, gone);
    var k := PlaceLeft(|rows|, gone, j);
    assert kept[k] == rows[j] && RowLe(tk, kept[v], kept[k]);
    if k < v {
      assert !RowLe(tk, kept[k], kept[v]);
    } else {
      LeftInOrder(|rows|, gone, v, k);
    }
  }

  /** Dropping the victim of what is left is letting one more position go first. */
  lemma NextToGo(tk: Tokenizer, rows: seq<Field>, gone: set<nat>, v: nat)
    requires GoFirst(tk, rows, gone) && IsVictim(tk, Without(rows, gone), v)
    ensures var p := Left(|rows|, gone)[v];
      p !in gone && GoFirst(tk, rows, gone + {p}) && Without(rows, gone + {p}) == Drop(Without(rows, gone), v)
  {
    var p := Left(|rows|, gone)[v];
    forall j | 0 <= j < |rows| && j !in gone ensures !Before(tk, rows, j, p) {
      VictimIsNext(tk, rows, gone, v, j);
    }
    DropOne(rows, gone, v);
  }

  lemma DropOne(rows: seq<Field>, gone: set<nat>, v: nat)
    requires v < |Without(rows, gone)|
    ensures Without(rows, gone + {Left(|rows|, gone)[v]}) == Drop(Without(rows, gone), v)
  {
    LeftDrop(|rows|, gone, v);
  }

  lemma BeforeIsTotal(tk: Tokenizer, rows: seq<Field>, i: nat, j: nat)
    requires i < |rows| && j < |rows|
    ensures i == j || Before(tk, rows, i, j) || Before(tk, rows, j, i)
  {
    KeyOrder(VictimKey(tk, rows[i]), VictimKey(tk, rows[j]), VictimKey(tk, rows[i]));
  }

  /** There is only one way to let so many positions go first. */
  lemma OneWayToGo(tk: Tokenizer, rows: seq<Field>, gone: set<nat>, other: set<nat>)
    requires GoFirst(tk, rows, gone) && GoFirst(tk, rows, other) && |gone| <= |other|
    ensures gone <= other
  {
    if !(gone <= other) {
      var i :| i in gone && i !in other;
      forall j | j in other ensures j in gone {
        BeforeIsTotal(tk, rows, i, j);
      }
      SmallerSet(other, gone, i);
    }
  }

  lemma SameSize(a: set<nat>, b: set<nat>)
    requires a <= b && |a| >= |b|
    ensures a == b
  {
    if x :| x in b && x !in a {
      SmallerSet(a, b, x);
    }
  }

  /** `gone` is the shortest run of the victim order after which the rest fits, or is one row. */
  ghost predicate ShortestRepair(tk: Tokenizer, ar: Arithmetic, inv: Invariant, rows: seq<Field>, gone: set<nat>) {
    && GoFirst(tk, rows, gone)
    && (Fits(ar, inv, Without(rows, gone)) || |Without(rows, gone)| <= 1)
    && forall fewer :: GoFirst(tk, rows, fewer) && |fewer| < |gone| ==>
         !Fits(ar, inv, Without(rows, fewer)) && |Without(rows, fewer)| > 1
  }

  lemma {:induction false} RepairFrom(tk: Tokenizer, ar: Arithmetic, inv: Invariant, rows: seq<Field>, gone: set<nat>)
    returns (all: set<nat>)
    requires GoFirst(tk, rows, gone)
    requires forall fewer :: GoFirst(tk, rows, fewer) && |fewer| < |gone| ==>
               !Fits(ar, inv, Without(rows, fewer)) && |Without(rows, fewer)| > 1
    ensures ShortestRepair(tk, ar, inv, rows, all)
    ensures Repair(tk, ar, inv, Without(rows, gone)) == Without(rows, all)
    decreases |Without(rows, gone)|
  {
    var kept := Without(rows, gone);
    if Fits(ar, inv, kept) || |kept| <= 1 {
      all := gone;
    } else {
      var v := Victim(tk, kept);
      NextToGo(tk, rows, gone, v);
      var more := gone + {Left(|rows|, gone)[v]};
      forall fewer | GoFirst(tk, rows, fewer) && |fewer| < |more|
        ensures !Fits(ar, inv, Without(rows, fewer)) && |Without(rows, fewer)| > 1
      {
        if |fewer| == |gone| {
          OneWayToGo(tk, rows, fewer, gone);
          SameSize(fewer, gone);
        }
      }
      all := RepairFrom(tk, ar, inv, rows, more);
    }
  }

  lemma NobodyGone(rows: seq<Field>)
    ensures Without(rows, {}) == rows
  {
    LeftAll(|rows|);
  }

  lemma {:induction false} LeftAll(n: nat)
    ensures |Left(n, {})| == n && forall i :: 0 <= i < n ==> Left(n, {})[i] == i
  {
    if n > 0 {
      LeftAll(n - 1);
    }
  }

  /** The repaired rows are the input, in order, minus exactly its least trustworthy rows: as
      many as it takes for the sum to fit (or for one row to remain), and no more. */
  lemma RepairDropsLeast(tk: Tokenizer, ar: Arithmetic, inv: Invariant, rows: seq<Field>) returns (gone: set<nat>)
    ensures ShortestRepair(tk, ar, inv, rows, gone)
    ensures Repair(tk, ar, inv, rows) == Without(rows, gone)
    ensures forall other :: ShortestRepair(tk, ar, inv, rows, other) ==> other == gone
  {
    NobodyGone(rows);
    gone := RepairFrom(tk, ar, inv, rows, {});
    forall other | ShortestRepair(tk, ar, inv, rows, other) ensures other == gone {
      assert |other| == |gone|;
      OneWayToGo(tk, rows, other, gone);
      SameSize(other, gone);
    }
  }

  /** No sourced row is dropped while an invented one is kept. */
  lemma InventedRowsGoFirst(tk: Tokenizer, rows: seq<Field>, gone: set<nat>, i: nat, j: nat)
    requires GoFirst(tk, rows, gone) && i in gone && j < |rows|
    requires rows[i].notes != Some(Unmatched) && rows[j].notes == Some(Unmatched)
    ensures j in gone
  {
    assert Before(tk, rows, j, i);
  }

  /** Among rows both flagged invented or both not, the least confident go first; among equally
      confident ones those with the fewest identity tokens; then by the tokens in sorting order; and
      rows alike in all of that by position. */
  lemma LeastTrustedGoFirst(tk: Tokenizer, rows: seq<Field>, gone: set<nat>, i: nat, j: nat)
    requires GoFirst(tk, rows, gone) && i in gone && j < |rows|
    requires rows[i].notes == Some(Unmatched) <==> rows[j].notes == Some(Unmatched)
    ensures rows[j].confidence < rows[i].confidence ==> j in gone
    ensures rows[j].confidence == rows[i].confidence ==>
              var a, b := RowTokens(tk, rows[i]), RowTokens(tk, rows[j]);
              && (|b| < |a| ==> j in gone)
              && (|b| == |a| && tk.joined(b) != tk.joined(a) && LexLe(tk.joined(b), tk.joined(a)) ==> j in gone)
              && (|b| == |a| && tk.joined(b) == tk.joined(a) && j < i ==> j in gone)
  {
    var a, b := tk.joined(RowTokens(tk, rows[i])), tk.joined(RowTokens(tk, rows[j]));
    LexTotal(a, b);
    if LexLe(a, b) && LexLe(b, a) {
      LexAntisymmetric(a, b);
    }
    assert Before(tk, rows, j, i) ==> j in gone;
  }

  // ---- What is summed ------------------------------------------------------

  /** What a row adds to the sum: the number its first sub-field of that name holds, or nothing. */
  ghost predicate Counts(ar: Arithmetic, row: Field, name: string, x: real) {
    if row.value.Rows? && exists k :: FirstNamed(row.value.subs, name, k) then
      forall k :: FirstNamed(row.value.subs, name, k) ==>
        x == match ar.number(row.value.subs[k].value) case Some(y) => y case None => 0.0
    else x == 0.0
  }

  predicate FirstNamed(subs: seq<Field>, name: string, k: int) {
    0 <= k < |subs| && subs[k].name == name && forall i :: 0 <= i < k ==> subs[i].name != name
  }

  /** Running sums over the rows, starting from nothing. */
  ghost predicate SumsOf(ar: Arithmetic, inv: Invariant, rows: seq<Field>, sums: seq<real>) {
    && |sums| == |rows| + 1 && sums[0] == 0.0
    && forall k :: 0 <= k < |rows| ==> Counts(ar, rows[k], inv.shareField, sums[k + 1] - sums[k])
  }

  lemma {:induction false} ShareCounts(ar: Arithmetic, subs: seq<Field>, name: string, k: nat)
    ensures FirstNamed(subs, name, k) ==>
              ShareIn(ar, subs, name) == match ar.number(subs[k].value) case Some(y) => y case None => 0.0
    ensures (forall i :: 0 <= i < |subs| ==> subs[i].name != name) ==> ShareIn(ar, subs, name) == 0.0
    decreases |subs|
  {
    if |subs| > 0 && subs[0].name != name {
      if k > 0 {
        ShareCounts(ar, subs[1..], name, k - 1);
        assert FirstNamed(subs, name, k) ==> FirstNamed(subs[1..], name, k - 1) by {
          forall i | 0 <= i < k - 1 && k < |subs| ensures subs[1..][i] == subs[i + 1] {
          }
        }
      } else {
        ShareCounts(ar, subs[1..], name, 0);
      }
    }
  }

  lemma {:induction false} FirstOfThem(subs: seq<Field>, name: string, i: nat) returns (k: nat)
    requires i < |subs| && subs[i].name == name
    ensures FirstNamed(subs, name, k)
  {
    if j: nat :| j < i && subs[j].name == name {
      k := FirstOfThem(subs, name, j);
    } else {
      k := i;
    }
  }

  lemma ShareIsCounted(ar: Arithmetic, inv: Invariant, row: Field, x: real)
    requires Counts(ar, row, inv.shareField, x)
    ensures Share(ar, inv, row) == x
  {
    var subs := Subs(row);
    if i :| 0 <= i < |subs| && subs[i].name == inv.shareField {
      var k := FirstOfThem(subs, inv.shareField, i);
      ShareCounts(ar, subs, inv.shareField, k);
    } else {
      ShareCounts(ar, subs, inv.shareField, 0);
    }
  }

  lemma ShareCountsFor(ar: Arithmetic, inv: Invariant, row: Field)
    ensures Counts(ar, row, inv.shareField, Share(ar, inv, row))
  {
    var subs := Subs(row);
    forall k | FirstNamed(subs, inv.shareField, k)
      ensures ShareIn(ar, subs, inv.shareField) == match ar.number(subs[k].value) case Some(y) => y case None => 0.0
    {
      ShareCounts(ar, subs, inv.shareField, k);
    }
    if i :| 0 <= i < |subs| && subs[i].name == inv.shareField {
      var k := FirstOfThem(subs, inv.shareField, i);
    } else {
      ShareCounts(ar, subs, inv.shareField, 0);
    }
  }

  lemma HaveSums(ar: Arithmetic, inv: Invariant, rows: seq<Field>) returns (sums: seq<real>)
    ensures SumsOf(ar, inv, rows, sums)
  {
    sums := [0.0];
    for k := 0 to |rows|
      invariant |sums| == k + 1 && sums[0] == 0.0
      invariant forall i :: 0 <= i < k ==> Counts(ar, rows[i], inv.shareField, sums[i + 1] - sums[i])
    {
      ShareCountsFor(ar, inv, rows[k]);
      sums := sums + [sums[k] + Share(ar, inv, rows[k])];
    }
  }

  lemma {:induction false} TotalIsSum(ar: Arithmetic, inv: Invariant, rows: seq<Field>, sums: seq<real>, n: nat)
    requires SumsOf(ar, inv, rows, sums) && n <= |rows|
    ensures Total(ar, inv, rows[..n]) == sums[n]
  {
    if n != 0 {
      TotalIsSum(ar, inv, rows, sums, n - 1);
      TakeFront(rows, n - 1);
      ShareIsCounted(ar, inv, rows[n - 1], sums[n] - sums[n - 1]);
    }
  }

  /** Rows fit iff their sum, rounded, is within the declared whole and its tolerance. */
  lemma FitsIff(ar: Arithmetic, inv: Invariant, rows: seq<Field>, sums: seq<real>)
    requires SumsOf(ar, inv, rows, sums)
    ensures Fits(ar, inv, rows) <==> ar.round(sums[|rows|]) <= inv.total + inv.tolerance
  {
    TotalIsSum(ar, inv, rows, sums, |rows|);
    TakeAll(rows);
  }

  lemma {:induction false} RepairShrinks(tk: Tokenizer, ar: Arithmetic, inv: Invariant, rows: seq<Field>)
    ensures |Repair(tk, ar, inv, rows)| <= |rows|
    ensures |Repair(tk, ar, inv, rows)| == |rows| ==> Fits(ar, inv, rows) || |rows| <= 1
    decreases |rows|
  {
    if !Fits(ar, inv, rows) && |rows| > 1 {
      RepairShrinks(tk, ar, inv, Drop(rows, Victim(tk, rows)));
    }
  }

  /** The guard alters the rows iff their sum exceeds the whole, it may repair, and there is more than one. */
  lemma RepairedIff(tk: Tokenizer, ar: Arithmetic, inv: Invariant, rows: seq<Field>, sums: seq<real>)
    requires SumsOf(ar, inv, rows, sums)
    ensures Enforced(tk, ar, inv, rows) != rows <==>
              !inv.warnOnly && |rows| > 1 && ar.round(sums[|rows|]) > inv.total + inv.tolerance
  {
    FitsIff(ar, inv, rows, sums);
    RepairShrinks(tk, ar, inv, rows);
  }
}
