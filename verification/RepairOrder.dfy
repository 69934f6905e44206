/** When the surviving rows do not depend on the order of the input: the guard's victim order is
    not total, and rows that tie are told apart by their position. */
module RepairOrder {
  import opened Wrappers
  import opened Fields
  import opened RowIdentity
  import opened PartsOfWhole

  // ---- Rows as a multiset --------------------------------------------------

  lemma DropCount(rows: seq<Field>, i: nat)
    requires i < |rows|
    ensures multiset(Drop(rows, i)) == multiset(rows) - multiset{rows[i]}
  {
    assert rows == rows[..i] + [rows[i]] + rows[i + 1..];
  }

  lemma {:induction false} TotalDrop(ar: Arithmetic, inv: Invariant, rows: seq<Field>, i: nat)
    requires i < |rows|
    ensures Total(ar, inv, rows) == Total(ar, inv, Drop(rows, i)) + Share(ar, inv, rows[i])
  {
    var front, last := rows[..|rows| - 1], rows[|rows| - 1];
    if i == |rows| - 1 {
      assert Drop(rows, i) == front;
    } else {
      TotalDrop(ar, inv, front, i);
      TotalSnoc(ar, inv, Drop(front, i), last);
      assert Drop(rows, i) == Drop(front, i) + [last];
    }
  }

  lemma TotalSnoc(ar: Arithmetic, inv: Invariant, rows: seq<Field>, x: Field)
    ensures Total(ar, inv, rows + [x]) == Total(ar, inv, rows) + Share(ar, inv, x)
  {
    assert (rows + [x])[..|rows|] == rows;
  }

  lemma {:induction false} TotalIgnoresOrder(ar: Arithmetic, inv: Invariant, rows: seq<Field>, shuffled: seq<Field>)
    requires multiset(rows) == multiset(shuffled)
    ensures Total(ar, inv, rows) == Total(ar, inv, shuffled) && |rows| == |shuffled|
  {
    assert |rows| == |multiset(rows)| == |multiset(shuffled)| == |shuffled|;
    if rows != [] {
      var x := rows[0];
      assert x in multiset(shuffled);
      var j :| 0 <= j < |shuffled| && shuffled[j] == x;
      DropCount(rows, 0);
      DropCount(shuffled, j);
      TotalIgnoresOrder(ar, inv, Drop(rows, 0), Drop(shuffled, j));
      TotalDrop(ar, inv, rows, 0);
      TotalDrop(ar, inv, shuffled, j);
    }
  }

  lemma {:induction false} Listed(m: multiset<Field>) returns (rows: seq<Field>)
    ensures multiset(rows) == m
    decreases |m|
  {
    if m == multiset{} {
      rows := [];
    } else {
      var x :| x in m;
      var rest := Listed(m - multiset{x});
      rows := [x] + rest;
    }
  }

  /** The loop ends on these rows, in whatever order they stand. */
  ghost predicate Stops(ar: Arithmetic, inv: Invariant, m: multiset<Field>) {
    |m| <= 1 || forall rows :: multiset(rows) == m ==> Fits(ar, inv, rows)
  }

  lemma StopsIff(ar: Arithmetic, inv: Invariant, rows: seq<Field>)
    ensures Stops(ar, inv, multiset(rows)) <==> Fits(ar, inv, rows) || |rows| <= 1
  {
    assert |multiset(rows)| == |rows|;
    forall other | multiset(other) == multiset(rows) ensures Fits(ar, inv, other) <==> Fits(ar, inv, rows) {
      TotalIgnoresOrder(ar, inv, rows, other);
    }
  }

  /** `s` may be dropped before the rest: none of it comes after a row outside it. */
  ghost predicate WeaklyFirst(tk: Tokenizer, all: multiset<Field>, s: multiset<Field>) {
    s <= all && forall x, y :: x in s && y in all - s ==> RowLe(tk, x, y)
  }

  ghost predicate EnoughGone(tk: Tokenizer, ar: Arithmetic, inv: Invariant, all: multiset<Field>, s: multiset<Field>) {
    WeaklyFirst(tk, all, s) && Stops(ar, inv, all - s)
  }

  /** `n` is the least number of rows whose loss, in some order of the ties, ends the loop. */
  ghost predicate LeastGone(tk: Tokenizer, ar: Arithmetic, inv: Invariant, all: multiset<Field>, n: nat) {
    && (exists s :: EnoughGone(tk, ar, inv, all, s) && |s| == n)
    && forall s :: EnoughGone(tk, ar, inv, all, s) ==> n <= |s|
  }

  /** The ties leave no choice of the first `n` rows. */
  ghost predicate OnlyOneFirst(tk: Tokenizer, all: multiset<Field>, n: nat) {
    forall s, o :: WeaklyFirst(tk, all, s) && WeaklyFirst(tk, all, o) && |s| == |o| == n ==> s == o
  }

  ghost predicate SameSurvivors(tk: Tokenizer, ar: Arithmetic, inv: Invariant, rows: seq<Field>) {
    forall shuffled :: multiset(shuffled) == multiset(rows) ==>
      multiset(Repair(tk, ar, inv, shuffled)) == multiset(Repair(tk, ar, inv, rows))
  }

  // ---- A run of the loop ---------------------------------------------------

  /** The next victim keeps the dropped rows weakly first. */
  lemma OneMoreGone(tk: Tokenizer, all: multiset<Field>, gone: multiset<Field>, kept: seq<Field>, v: nat)
    requires WeaklyFirst(tk, all, gone) && multiset(kept) == all - gone && IsVictim(tk, kept, v)
    ensures WeaklyFirst(tk, all, gone + multiset{kept[v]})
    ensures multiset(Drop(kept, v)) == all - (gone + multiset{kept[v]})
  {
    var x := kept[v];
    DropCount(kept, v);
    assert x in multiset(kept);
    forall a, b | a in gone + multiset{x} && b in all - (gone + multiset{x}) ensures RowLe(tk, a, b) {
      assert b in multiset(kept);
      var j :| 0 <= j < |kept| && kept[j] == b;
    }
  }

  /** With one choice only, every run drops it and ends. */
  lemma {:induction false} RunDrops(tk: Tokenizer, ar: Arithmetic, inv: Invariant, all: multiset<Field>,
                                    gone: multiset<Field>, kept: seq<Field>, s: multiset<Field>)
    requires WeaklyFirst(tk, all, gone) && multiset(kept) == all - gone && |gone| <= |s|
    requires EnoughGone(tk, ar, inv, all, s) && LeastGone(tk, ar, inv, all, |s|) && OnlyOneFirst(tk, all, |s|)
    ensures multiset(Repair(tk, ar, inv, kept)) == all - s
    decreases |kept|
  {
    StopsIff(ar, inv, kept);
    if |gone| < |s| {
      assert !EnoughGone(tk, ar, inv, all, gone);
      var v := Victim(tk, kept);
      OneMoreGone(tk, all, gone, kept, v);
      RunDrops(tk, ar, inv, all, gone + multiset{kept[v]}, Drop(kept, v), s);
    }
  }

  lemma FrontVictim(tk: Tokenizer, front: seq<Field>, back: seq<Field>, v: nat)
    requires front != [] && IsVictim(tk, front + back, v)
    requires forall x, y :: x in front && y in back ==> RowLe(tk, x, y)
    ensures v < |front| && Drop(front + back, v) == Drop(front, v) + back
  {
    var rows := front + back;
    forall j | |front| <= j < |rows| ensures RowLe(tk, rows[0], rows[j]) && j != v {
      assert rows[j] == back[j - |front|] && rows[0] == front[0];
    }
    assert RowLe(tk, rows[v], rows[0]) && v < |front|;
    DropFront(front, back, v);
  }

  lemma DropFront<T>(front: seq<T>, back: seq<T>, v: nat)
    requires v < |front|
    ensures Drop(front + back, v) == Drop(front, v) + back
  {
  }

  /** While fewer than `n` rows are gone the loop goes on, and takes the next from the front. */
  lemma FrontStep(tk: Tokenizer, ar: Arithmetic, inv: Invariant, all: multiset<Field>, gone: multiset<Field>,
                  front: seq<Field>, back: seq<Field>, n: nat)
    returns (v: nat)
    requires WeaklyFirst(tk, all, gone) && multiset(front + back) == all - gone
    requires forall x, y :: x in front && y in back ==> RowLe(tk, x, y)
    requires LeastGone(tk, ar, inv, all, n) && |gone| < n && front != []
    ensures v < |front| && WeaklyFirst(tk, all, gone + multiset{front[v]})
    ensures multiset(Drop(front, v) + back) == all - (gone + multiset{front[v]})
    ensures Repair(tk, ar, inv, front + back) == Repair(tk, ar, inv, Drop(front, v) + back)
  {
    var rows := front + back;
    StopsIff(ar, inv, rows);
    assert !EnoughGone(tk, ar, inv, all, gone);
    v := Victim(tk, rows);
    FrontVictim(tk, front, back, v);
    OneMoreGone(tk, all, gone, rows, v);
  }

  /** Placed in front, rows that may go first do go first. */
  lemma {:induction false} FrontGoes(tk: Tokenizer, ar: Arithmetic, inv: Invariant, all: multiset<Field>,
                                     gone: multiset<Field>, front: seq<Field>, back: seq<Field>, n: nat)
    requires WeaklyFirst(tk, all, gone) && multiset(front + back) == all - gone
    requires forall x, y :: x in front && y in back ==> RowLe(tk, x, y)
    requires LeastGone(tk, ar, inv, all, n) && |gone| + |front| <= n
    ensures Repair(tk, ar, inv, front + back) == Repair(tk, ar, inv, back)
    decreases |front|
  {
    if |front| == 0 {
      assert front + back == back;
    } else {
      var v := FrontStep(tk, ar, inv, all, gone, front, back, n);
      assert forall x :: x in Drop(front, v) ==> x in front;
      FrontGoes(tk, ar, inv, all, gone + multiset{front[v]}, Drop(front, v), back, n);
    }
  }

  lemma {:induction false} RepairKeepsSome(tk: Tokenizer, ar: Arithmetic, inv: Invariant, rows: seq<Field>)
    ensures multiset(Repair(tk, ar, inv, rows)) <= multiset(rows)
    decreases |rows|
  {
    if !Fits(ar, inv, rows) && |rows| > 1 {
      DropCount(rows, Victim(tk, rows));
      RepairKeepsSome(tk, ar, inv, Drop(rows, Victim(tk, rows)));
    }
  }

  /** Some order of the rows drops `s` before anything else. */
  lemma SomeOrderDrops(tk: Tokenizer, ar: Arithmetic, inv: Invariant, all: multiset<Field>, s: multiset<Field>)
    returns (rows: seq<Field>, rest: seq<Field>)
    requires WeaklyFirst(tk, all, s) && LeastGone(tk, ar, inv, all, |s|)
    ensures multiset(rows) == all && multiset(rest) == all - s
    ensures Repair(tk, ar, inv, rows) == Repair(tk, ar, inv, rest)
  {
    var front := Listed(s);
    rest := Listed(all - s);
    rows := front + rest;
    assert |front| == |multiset(front)| == |s|;
    forall x, y | x in front && y in rest ensures RowLe(tk, x, y) {
      assert x in multiset(front) && y in multiset(rest);
    }
    FrontGoes(tk, ar, inv, all, multiset{}, front, rest, |s|);
  }

  // ---- The exact condition -------------------------------------------------

  lemma OneFirstMeansSame(tk: Tokenizer, ar: Arithmetic, inv: Invariant, rows: seq<Field>, n: nat)
    requires LeastGone(tk, ar, inv, multiset(rows), n) && OnlyOneFirst(tk, multiset(rows), n)
    ensures SameSurvivors(tk, ar, inv, rows)
  {
    var all := multiset(rows);
    var s :| EnoughGone(tk, ar, inv, all, s) && |s| == n;
    forall shuffled | multiset(shuffled) == all ensures multiset(Repair(tk, ar, inv, shuffled)) == all - s {
      RunDrops(tk, ar, inv, all, multiset{}, shuffled, s);
    }
  }

  lemma SubAndSize<T>(a: multiset<T>, b: multiset<T>)
    requires a <= b && |a| == |b|
    ensures a == b
  {
    assert b == a + (b - a);
  }

  lemma SameComplement<T>(all: multiset<T>, s: multiset<T>, o: multiset<T>)
    requires s <= all && o <= all && |s| == |o| && all - s <= all - o
    ensures o == s
  {
    SubAndSize(all - s, all - o);
    assert o == all - (all - o) == all - (all - s) == s;
  }

  /** What is left of a run that drops `o` first is what `s` leaves only if they are the same. */
  lemma OtherFirst(tk: Tokenizer, ar: Arithmetic, inv: Invariant, all: multiset<Field>, s: multiset<Field>,
                   o: multiset<Field>, rest: seq<Field>)
    requires s <= all && o <= all && |s| == |o| && multiset(rest) == all - o
    requires multiset(Repair(tk, ar, inv, rest)) == all - s
    ensures o == s
  {
    RepairKeepsSome(tk, ar, inv, rest);
    SameComplement(all, s, o);
  }

  lemma SameMeansThisFirst(tk: Tokenizer, ar: Arithmetic, inv: Invariant, rows: seq<Field>,
                           s: multiset<Field>, o: multiset<Field>)
    requires SameSurvivors(tk, ar, inv, rows) && LeastGone(tk, ar, inv, multiset(rows), |s|)
    requires EnoughGone(tk, ar, inv, multiset(rows), s) && WeaklyFirst(tk, multiset(rows), o) && |o| == |s|
    ensures o == s
  {
    var p, pRest := SomeOrderDrops(tk, ar, inv, multiset(rows), s);
    var q, qRest := SomeOrderDrops(tk, ar, inv, multiset(rows), o);
    StopsIff(ar, inv, pRest);
    assert multiset(Repair(tk, ar, inv, q)) == multiset(Repair(tk, ar, inv, p));
    OtherFirst(tk, ar, inv, multiset(rows), s, o, qRest);
  }

  /** The survivors are the same in every order of the rows iff the ties leave no choice of the
      rows whose loss first ends the loop. */
  lemma SameSurvivorsIff(tk: Tokenizer, ar: Arithmetic, inv: Invariant, rows: seq<Field>, n: nat)
    requires LeastGone(tk, ar, inv, multiset(rows), n)
    ensures SameSurvivors(tk, ar, inv, rows) <==> OnlyOneFirst(tk, multiset(rows), n)
  {
    if OnlyOneFirst(tk, multiset(rows), n) {
      OneFirstMeansSame(tk, ar, inv, rows, n);
    }
    if SameSurvivors(tk, ar, inv, rows) {
      var s :| EnoughGone(tk, ar, inv, multiset(rows), s) && |s| == n;
      forall o | WeaklyFirst(tk, multiset(rows), o) && |o| == n ensures o == s {
        SameMeansThisFirst(tk, ar, inv, rows, s, o);
      }
    }
  }

  lemma {:induction false} RunEnds(tk: Tokenizer, ar: Arithmetic, inv: Invariant, all: multiset<Field>,
                                   gone: multiset<Field>, kept: seq<Field>)
    returns (s: multiset<Field>)
    requires WeaklyFirst(tk, all, gone) && multiset(kept) == all - gone
    ensures EnoughGone(tk, ar, inv, all, s)
    decreases |kept|
  {
    StopsIff(ar, inv, kept);
    if Fits(ar, inv, kept) || |kept| <= 1 {
      s := gone;
    } else {
      var v := Victim(tk, kept);
      OneMoreGone(tk, all, gone, kept, v);
      s := RunEnds(tk, ar, inv, all, gone + multiset{kept[v]}, Drop(kept, v));
    }
  }

  lemma {:induction false} LeastFrom(tk: Tokenizer, ar: Arithmetic, inv: Invariant, all: multiset<Field>,
                                     s: multiset<Field>)
    returns (n: nat)
    requires EnoughGone(tk, ar, inv, all, s)
    ensures LeastGone(tk, ar, inv, all, n)
    decreases |s|
  {
    if o :| EnoughGone(tk, ar, inv, all, o) && |o| < |s| {
      n := LeastFrom(tk, ar, inv, all, o);
    } else {
      n := |s|;
    }
  }

  /** That number exists for all rows. */
  lemma LeastGoneExists(tk: Tokenizer, ar: Arithmetic, inv: Invariant, rows: seq<Field>) returns (n: nat)
    ensures LeastGone(tk, ar, inv, multiset(rows), n)
  {
    var s := RunEnds(tk, ar, inv, multiset(rows), multiset{}, rows);
    n := LeastFrom(tk, ar, inv, multiset(rows), s);
  }

  ghost predicate TiesAreEqual(tk: Tokenizer, rows: multiset<Field>) {
    forall a, b :: a in rows && b in rows && VictimKey(tk, a) == VictimKey(tk, b) ==> a == b
  }

  lemma TiedAlike(tk: Tokenizer, all: multiset<Field>, s: multiset<Field>, o: multiset<Field>, x: Field)
    requires TiesAreEqual(tk, all) && WeaklyFirst(tk, all, s) && WeaklyFirst(tk, all, o) && s[x] > o[x]
    ensures o <= s
  {
    forall y ensures o[y] <= s[y] {
      if o[y] > s[y] {
        assert y in all - s && x in all - o;
        KeyOrder(VictimKey(tk, x), VictimKey(tk, y), VictimKey(tk, x));
      }
    }
  }

  /** When no two different rows tie there is no choice, so the order never matters. */
  lemma RepairIgnoresOrder(tk: Tokenizer, ar: Arithmetic, inv: Invariant, rows: seq<Field>, shuffled: seq<Field>)
    requires multiset(rows) == multiset(shuffled) && TiesAreEqual(tk, multiset(rows))
    ensures multiset(Repair(tk, ar, inv, rows)) == multiset(Repair(tk, ar, inv, shuffled))
  {
    var all := multiset(rows);
    var n := LeastGoneExists(tk, ar, inv, rows);
    forall s, o | WeaklyFirst(tk, all, s) && WeaklyFirst(tk, all, o) && |s| == |o| == n ensures s == o {
      if x :| s[x] > o[x] {
        TiedAlike(tk, all, s, o, x);
        SubAndSize(o, s);
      } else {
        SubAndSize(s, o);
      }
    }
    SameSurvivorsIff(tk, ar, inv, rows, n);
  }

  // ---- Ties ----------------------------------------------------------------

  function Holder(share: string): Field {
    var subs := [NewField("holder", Text("acme"), [1], 1.0, None), NewField("share", Number(share), [1], 1.0, None)];
    NewField("row", Rows(subs), [1], 1.0, None)
  }

  lemma HolderFacts(tk: Tokenizer, ar: Arithmetic, inv: Invariant, share: string, amount: real)
    requires inv.shareField == "share" && ar.number(Number(share)) == Some(amount)
    ensures Share(ar, inv, Holder(share)) == amount
    ensures RowTokens(tk, Holder(share)) == CellTokens(tk, Text("acme"))
  {
    var subs := Subs(Holder(share));
    assert subs[1..][0] == subs[1];
    assert ShareIn(ar, subs[1..], inv.shareField) == amount;
    assert TokensOf(tk, subs[..1]) == CellTokens(tk, Text("acme")) by {
      assert |subs[..1][..0]| == 0;
    }
  }

  lemma TotalOfTwo(ar: Arithmetic, inv: Invariant, rows: seq<Field>)
    requires |rows| == 2
    ensures Total(ar, inv, rows) == Share(ar, inv, rows[0]) + Share(ar, inv, rows[1])
  {
    assert |rows[..1][..0]| == 0 && rows[..1][0] == rows[0];
    assert Total(ar, inv, rows[..1]) == Share(ar, inv, rows[0]);
  }

  lemma FirstIsVictim(tk: Tokenizer, rows: seq<Field>)
    requires |rows| == 2 && VictimKey(tk, rows[0]) == VictimKey(tk, rows[1])
    ensures Victim(tk, rows) == 0
  {
    KeyOrder(VictimKey(tk, rows[0]), VictimKey(tk, rows[0]), VictimKey(tk, rows[0]));
    var v := Victim(tk, rows);
    assert RowLe(tk, rows[0], rows[1]);
  }

  lemma TwoTied(tk: Tokenizer, ar: Arithmetic, inv: Invariant, rows: seq<Field>)
    requires |rows| == 2 && VictimKey(tk, rows[0]) == VictimKey(tk, rows[1])
    requires ar.round(Share(ar, inv, rows[0]) + Share(ar, inv, rows[1])) > inv.total + inv.tolerance
    ensures Repair(tk, ar, inv, rows) == rows[1..]
  {
    TotalOfTwo(ar, inv, rows);
    FirstIsVictim(tk, rows);
    assert |Drop(rows, 0)| == 1;
    assert Drop(rows, 0) == [] + rows[1..];
  }

  /** Rows that differ only in their share tie, and then the order of the input picks the survivor. */
  lemma TiesDependOnOrder(tk: Tokenizer, ar: Arithmetic, inv: Invariant, one: Field, two: Field)
    requires inv.shareField == "share" && inv.total + inv.tolerance == 2.0
    requires ar.number(Number("1")) == Some(1.0) && ar.number(Number("2")) == Some(2.0) && ar.round(3.0) == 3.0
    requires one == Holder("1") && two == Holder("2")
    ensures one != two && VictimKey(tk, one) == VictimKey(tk, two)
    ensures Repair(tk, ar, inv, [one, two]) == [two] && Repair(tk, ar, inv, [two, one]) == [one]
  {
    HolderFacts(tk, ar, inv, "1", 1.0);
    HolderFacts(tk, ar, inv, "2", 2.0);
    TwoTied(tk, ar, inv, [one, two]);
    TwoTied(tk, ar, inv, [two, one]);
  }
}
