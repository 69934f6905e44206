/** When the clusters do not depend on the order of the rows: exactly when "can join" carries over. */
module ClusterOrder {
  import opened Collections
  import opened Fields
  import opened Canonical
  import opened EntityResolution

  /** Rows that can both join a third can join each other. */
  ghost predicate Transitive(tx: Texts, t: Resolution, rows: seq<Field>) {
    forall x, y, z :: x in rows && y in rows && z in rows && CanJoin(tx, t, x, y) && CanJoin(tx, t, y, z) ==>
      CanJoin(tx, t, x, z)
  }

  lemma JoinGoesBothWays(tx: Texts, t: Resolution, x: Field, y: Field)
    ensures CanJoin(tx, t, x, y) <==> CanJoin(tx, t, y, x)
    ensures CanJoin(tx, t, x, y) ==> CanJoin(tx, t, x, x)
  {
  }

  lemma Chain(tx: Texts, t: Resolution, rows: seq<Field>, i: nat, j: nat, k: nat)
    requires Transitive(tx, t, rows) && i < |rows| && j < |rows| && k < |rows|
    requires CanJoin(tx, t, rows[i], rows[j]) && CanJoin(tx, t, rows[j], rows[k])
    ensures CanJoin(tx, t, rows[i], rows[k])
  {
    assert rows[i] in rows && rows[j] in rows && rows[k] in rows;
  }

  // ---- Transitive rows: a cluster is a row and what can join it ------------

  ghost predicate Joined(tx: Texts, t: Resolution, rows: seq<Field>, i: nat, j: nat)
    requires i < |rows| && j < |rows|
  {
    i == j || CanJoin(tx, t, rows[i], rows[j])
  }

  /** Row `n` goes where the rows it can join are. */
  lemma FirstFitIsHome(tx: Texts, t: Resolution, rows: seq<Field>, n: nat, j: nat)
    requires j < n < |rows| && Transitive(tx, t, rows)
    requires forall k, l :: 0 <= k < n && 0 <= l < n ==>
               (Assign(tx, t, rows, n).home[k] == Assign(tx, t, rows, n).home[l] <==> Joined(tx, t, rows, k, l))
    ensures var a := Assign(tx, t, rows, n);
      a.home[j] == FirstFit(tx, t, rows, a.reps, rows[n], 0) <==> CanJoin(tx, t, rows[j], rows[n])
  {
    var a := Assign(tx, t, rows, n);
    var c, d := FirstFit(tx, t, rows, a.reps, rows[n], 0), a.home[j];
    assert Joined(tx, t, rows, a.reps[d], j);
    JoinGoesBothWays(tx, t, rows[a.reps[d]], rows[j]);
    if CanJoin(tx, t, rows[j], rows[n]) {
      if a.reps[d] != j {
        Chain(tx, t, rows, a.reps[d], j, n);
      }
      assert c <= d;
    }
    if c < |a.reps| {
      var r := a.reps[c];
      JoinGoesBothWays(tx, t, rows[r], rows[n]);
      if CanJoin(tx, t, rows[j], rows[n]) {
        Chain(tx, t, rows, j, n, r);
        assert Joined(tx, t, rows, j, r);
      }
      if d == c && j != r {
        assert Joined(tx, t, rows, j, r);
        Chain(tx, t, rows, j, r, n);
      }
    }
  }

  /** Row `n`, placed after the others, shares a cluster with exactly the rows it can join. */
  lemma LastShares(tx: Texts, t: Resolution, rows: seq<Field>, n: nat, j: nat)
    requires j < n < |rows| && Transitive(tx, t, rows)
    requires forall k, l :: 0 <= k < n && 0 <= l < n ==>
               (Assign(tx, t, rows, n).home[k] == Assign(tx, t, rows, n).home[l] <==> Joined(tx, t, rows, k, l))
    ensures var home := Assign(tx, t, rows, n + 1).home;
      (home[j] == home[n] <==> Joined(tx, t, rows, j, n)) && (home[n] == home[j] <==> Joined(tx, t, rows, n, j))
  {
    FirstFitIsHome(tx, t, rows, n, j);
    JoinGoesBothWays(tx, t, rows[j], rows[n]);
  }

  ghost predicate SharesAsJoined(tx: Texts, t: Resolution, rows: seq<Field>, n: nat, home: seq<nat>)
    requires n <= |rows| && n <= |home|
  {
    forall i, j :: 0 <= i < n && 0 <= j < n ==> (home[i] == home[j] <==> Joined(tx, t, rows, i, j))
  }

  lemma OneMoreShares(tx: Texts, t: Resolution, rows: seq<Field>, n: nat, home: seq<nat>)
    requires n < |rows| && n < |home| && SharesAsJoined(tx, t, rows, n, home)
    requires forall j :: 0 <= j < n ==> (home[j] == home[n] <==> Joined(tx, t, rows, j, n)) &&
                                         (home[n] == home[j] <==> Joined(tx, t, rows, n, j))
    ensures SharesAsJoined(tx, t, rows, n + 1, home)
  {
  }

  lemma SharedFront(tx: Texts, t: Resolution, rows: seq<Field>, n: nat, home: seq<nat>, home': seq<nat>)
    requires n <= |rows| && n <= |home| && n <= |home'| && home[..n] == home'[..n]
    requires SharesAsJoined(tx, t, rows, n, home)
    ensures SharesAsJoined(tx, t, rows, n, home')
  {
    assert forall i :: 0 <= i < n ==> home[i] == home[..n][i] == home'[..n][i] == home'[i];
  }

  lemma FrontHome(tx: Texts, t: Resolution, rows: seq<Field>, n: nat)
    requires n < |rows|
    ensures Assign(tx, t, rows, n + 1).home[..n] == Assign(tx, t, rows, n).home
  {
  }

  lemma NextShares(tx: Texts, t: Resolution, rows: seq<Field>, n: nat)
    requires n < |rows| && Transitive(tx, t, rows)
    requires SharesAsJoined(tx, t, rows, n, Assign(tx, t, rows, n).home)
    ensures SharesAsJoined(tx, t, rows, n + 1, Assign(tx, t, rows, n + 1).home)
  {
    var front, home := Assign(tx, t, rows, n).home, Assign(tx, t, rows, n + 1).home;
    forall j | 0 <= j < n
      ensures (home[j] == home[n] <==> Joined(tx, t, rows, j, n)) && (home[n] == home[j] <==> Joined(tx, t, rows, n, j))
    {
      LastShares(tx, t, rows, n, j);
    }
    FrontHome(tx, t, rows, n);
    SharedFront(tx, t, rows, n, front, home);
    OneMoreShares(tx, t, rows, n, home);
  }

  /** Among transitive rows two share a cluster iff they can join. */
  lemma SharesIffJoins(tx: Texts, t: Resolution, rows: seq<Field>)
    requires Transitive(tx, t, rows)
    ensures SharesAsJoined(tx, t, rows, |rows|, Assign(tx, t, rows, |rows|).home)
  {
    var home: seq<nat> := [];
    for n := 0 to |rows|
      invariant home == Assign(tx, t, rows, n).home && SharesAsJoined(tx, t, rows, n, home)
    {
      NextShares(tx, t, rows, n);
      home := Assign(tx, t, rows, n + 1).home;
    }
  }

  // ---- Rearranging the rows ------------------------------------------------

  ghost predicate Within(pi: seq<nat>, n: nat) {
    forall k :: 0 <= k < |pi| ==> pi[k] < n
  }

  ghost predicate Permutation(pi: seq<nat>, n: nat) {
    Within(pi, n) && Distinct(pi) && forall p :: 0 <= p < n ==> p in pi
  }

  ghost predicate Share(tx: Texts, t: Resolution, rows: seq<Field>, i: nat, j: nat)
    requires i < |rows| && j < |rows|
  {
    Assign(tx, t, rows, |rows|).home[i] == Assign(tx, t, rows, |rows|).home[j]
  }

  /** Rearranged, the rows fall into the same clusters. */
  ghost predicate GroupsAlike(tx: Texts, t: Resolution, rows: seq<Field>, pi: seq<nat>)
    requires Within(pi, |rows|)
  {
    forall i, j :: 0 <= i < |pi| && 0 <= j < |pi| ==>
      (Share(tx, t, RowsAt(rows, pi), i, j) <==> Share(tx, t, rows, pi[i], pi[j]))
  }

  lemma TransitiveGroupsAlike(tx: Texts, t: Resolution, rows: seq<Field>, pi: seq<nat>)
    requires Transitive(tx, t, rows) && Permutation(pi, |rows|)
    ensures GroupsAlike(tx, t, rows, pi)
  {
    var other := RowsAt(rows, pi);
    assert forall r :: r in other ==> r in rows;
    SharesIffJoins(tx, t, rows);
    SharesIffJoins(tx, t, other);
    forall i, j | 0 <= i < |pi| && 0 <= j < |pi|
      ensures Share(tx, t, other, i, j) <==> Share(tx, t, rows, pi[i], pi[j])
    {
      assert Joined(tx, t, other, i, j) <==> Joined(tx, t, rows, pi[i], pi[j]) by {
        assert other[i] == rows[pi[i]] && other[j] == rows[pi[j]];
        assert i != j ==> pi[i] != pi[j];
      }
    }
  }

  lemma HomeStaysOne(tx: Texts, t: Resolution, rows: seq<Field>, i: nat, n: nat)
    requires i < n < |rows|
    ensures Assign(tx, t, rows, n + 1).home[i] == Assign(tx, t, rows, n).home[i]
  {
  }

  /** A row's cluster is settled once it is placed. */
  lemma HomeStays(tx: Texts, t: Resolution, rows: seq<Field>, i: nat, n: nat, m: nat)
    requires i < n <= m <= |rows|
    ensures Assign(tx, t, rows, m).home[i] == Assign(tx, t, rows, n).home[i]
  {
    var c := Assign(tx, t, rows, n).home[i];
    for k := n to m
      invariant Assign(tx, t, rows, k).home[i] == c
    {
      HomeStaysOne(tx, t, rows, i, k);
    }
  }

  /** One more row, placed in cluster `c`. */
  lemma Place(tx: Texts, t: Resolution, rows: seq<Field>, n: nat, a: Assignment, c: nat)
    requires n < |rows| && Openers(rows, a.reps) && Assign(tx, t, rows, n) == a
    requires c <= |a.reps| && forall d :: 0 <= d < c ==> !CanJoin(tx, t, rows[a.reps[d]], rows[n])
    requires c < |a.reps| ==> CanJoin(tx, t, rows[a.reps[c]], rows[n])
    ensures Assign(tx, t, rows, n + 1) == Extend(a, c)
  {
    assert FirstFit(tx, t, rows, a.reps, rows[n], 0) == c;
  }

  lemma FirstTwo(tx: Texts, t: Resolution, rows: seq<Field>)
    requires |rows| >= 2
    ensures var c := if CanJoin(tx, t, rows[0], rows[1]) then 0 else 1;
      Assign(tx, t, rows, 2) == Extend(Assignment([0], [0]), c)
  {
    Place(tx, t, rows, 0, Assignment([], []), 0);
    assert Extend(Assignment([], []), 0) == Assignment([0], [0]);
    Place(tx, t, rows, 1, Assignment([0], [0]), if CanJoin(tx, t, rows[0], rows[1]) then 0 else 1);
  }

  lemma FrontShares(tx: Texts, t: Resolution, rows: seq<Field>)
    requires |rows| >= 2
    ensures Share(tx, t, rows, 0, 1) <==> CanJoin(tx, t, rows[0], rows[1])
  {
    FirstTwo(tx, t, rows);
    HomeStays(tx, t, rows, 0, 2, |rows|);
    HomeStays(tx, t, rows, 1, 2, |rows|);
  }

  lemma FirstDrawsTwo(tx: Texts, t: Resolution, rows: seq<Field>)
    requires |rows| >= 3 && CanJoin(tx, t, rows[0], rows[1]) && CanJoin(tx, t, rows[0], rows[2])
    ensures Share(tx, t, rows, 1, 2)
  {
    FirstTwo(tx, t, rows);
    Place(tx, t, rows, 2, Extend(Assignment([0], [0]), 0), 0);
    HomeStays(tx, t, rows, 1, 3, |rows|);
    HomeStays(tx, t, rows, 2, 3, |rows|);
  }

  /** The positions below `n` outside `out`, in order. */
  function Others(n: nat, out: set<nat>): seq<nat> {
    if n == 0 then [] else if n - 1 in out then Others(n - 1, out) else Others(n - 1, out) + [n - 1]
  }

  lemma {:induction false} OthersAre(n: nat, out: set<nat>)
    ensures Distinct(Others(n, out)) && forall p :: p in Others(n, out) <==> 0 <= p < n && p !in out
  {
    if n > 0 {
      OthersAre(n - 1, out);
    }
  }

  lemma ThreeFirst(n: nat, i: nat, j: nat, k: nat, pi: seq<nat>)
    requires i < n && j < n && k < n && i != j && j != k && i != k
    requires pi == [i, j, k] + Others(n, {i, j, k})
    ensures Permutation(pi, n)
  {
    var rest := Others(n, {i, j, k});
    OthersAre(n, {i, j, k});
    assert forall p :: p in [i, j, k] <==> p == i || p == j || p == k;
    assert forall a :: 3 <= a < |pi| ==> pi[a] == rest[a - 3] && pi[a] in rest;
    assert forall p :: p in [i, j, k] || p in rest ==> p in pi;
  }

  /** Led by a row that both can join, two rows share. */
  lemma LedShare(tx: Texts, t: Resolution, rows: seq<Field>, i: nat, j: nat, k: nat, pi: seq<nat>)
    requires i < |rows| && j < |rows| && k < |rows| && i != j && j != k && i != k
    requires CanJoin(tx, t, rows[j], rows[i]) && CanJoin(tx, t, rows[j], rows[k])
    requires pi == [j, i, k] + Others(|rows|, {j, i, k})
    ensures Permutation(pi, |rows|) && (GroupsAlike(tx, t, rows, pi) ==> Share(tx, t, rows, i, k))
  {
    ThreeFirst(|rows|, j, i, k, pi);
    assert pi[0] == j && pi[1] == i && pi[2] == k;
    FirstDrawsTwo(tx, t, RowsAt(rows, pi));
  }

  /** Side by side at the front, they share only if they can join each other. */
  lemma FrontSplit(tx: Texts, t: Resolution, rows: seq<Field>, i: nat, j: nat, k: nat, pi: seq<nat>)
    requires i < |rows| && j < |rows| && k < |rows| && i != j && j != k && i != k
    requires !CanJoin(tx, t, rows[i], rows[k])
    requires pi == [i, k, j] + Others(|rows|, {i, k, j})
    ensures Permutation(pi, |rows|) && (GroupsAlike(tx, t, rows, pi) ==> !Share(tx, t, rows, i, k))
  {
    ThreeFirst(|rows|, i, k, j, pi);
    assert pi[0] == i && pi[1] == k;
    FrontShares(tx, t, RowsAt(rows, pi));
  }

  lemma ThreeRows(tx: Texts, t: Resolution, x: Field, y: Field, z: Field)
    requires CanJoin(tx, t, x, y) && CanJoin(tx, t, y, z) && !CanJoin(tx, t, x, z)
    ensures x != y && y != z && x != z && CanJoin(tx, t, y, x)
  {
    JoinGoesBothWays(tx, t, x, y);
  }

  lemma OneDiffers(tx: Texts, t: Resolution, rows: seq<Field>, i: nat, k: nat, led: seq<nat>, apart: seq<nat>)
    requires i < |rows| && k < |rows| && Permutation(led, |rows|) && Permutation(apart, |rows|)
    requires GroupsAlike(tx, t, rows, led) ==> Share(tx, t, rows, i, k)
    requires GroupsAlike(tx, t, rows, apart) ==> !Share(tx, t, rows, i, k)
    ensures exists pi :: Permutation(pi, |rows|) && !GroupsAlike(tx, t, rows, pi)
  {
  }

  lemma OrderSplits(tx: Texts, t: Resolution, rows: seq<Field>, i: nat, j: nat, k: nat)
    requires i < |rows| && j < |rows| && k < |rows|
    requires CanJoin(tx, t, rows[i], rows[j]) && CanJoin(tx, t, rows[j], rows[k]) && !CanJoin(tx, t, rows[i], rows[k])
    ensures exists pi :: Permutation(pi, |rows|) && !GroupsAlike(tx, t, rows, pi)
  {
    ThreeRows(tx, t, rows[i], rows[j], rows[k]);
    var led, apart := [j, i, k] + Others(|rows|, {j, i, k}), [i, k, j] + Others(|rows|, {i, k, j});
    LedShare(tx, t, rows, i, j, k, led);
    FrontSplit(tx, t, rows, i, j, k, apart);
    OneDiffers(tx, t, rows, i, k, led, apart);
  }

  /** The clusters are the same in every order iff joining is transitive on the rows. */
  lemma SameGroupsIffTransitive(tx: Texts, t: Resolution, rows: seq<Field>)
    ensures (forall pi :: Permutation(pi, |rows|) ==> GroupsAlike(tx, t, rows, pi)) <==> Transitive(tx, t, rows)
  {
    if Transitive(tx, t, rows) {
      forall pi | Permutation(pi, |rows|) ensures GroupsAlike(tx, t, rows, pi) {
        TransitiveGroupsAlike(tx, t, rows, pi);
      }
    } else {
      var x, y, z :| x in rows && y in rows && z in rows && CanJoin(tx, t, x, y) && CanJoin(tx, t, y, z) &&
                     !CanJoin(tx, t, x, z);
      var i :| 0 <= i < |rows| && rows[i] == x;
      var j :| 0 <= j < |rows| && rows[j] == y;
      var k :| 0 <= k < |rows| && rows[k] == z;
      OrderSplits(tx, t, rows, i, j, k);
    }
  }

  /** Rows that all carry a strong key are transitive: they share a cluster iff they share the key. */
  lemma KeyedAreTransitive(tx: Texts, t: Resolution, rows: seq<Field>)
    requires forall r :: r in rows ==> Keyed(tx, t, r)
    ensures Transitive(tx, t, rows)
  {
    forall x, y, z | x in rows && y in rows && z in rows && CanJoin(tx, t, x, y) && CanJoin(tx, t, y, z)
      ensures CanJoin(tx, t, x, z)
    {
      JoinMeansSameKey(tx, t, x, y);
    }
  }
}
