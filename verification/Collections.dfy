/** Facts about sets and sequences that Dafny wants spelt out. */
module Collections {
  lemma SmallerSet<T>(a: set<T>, b: set<T>, x: T)
    requires a <= b && x in b && x !in a
    ensures |a| < |b|
  {
    assert a <= b - {x};
    SubsetSize(a, b - {x});
  }

  lemma {:induction false} SubsetSize<T>(a: set<T>, b: set<T>)
    requires a <= b
    ensures |a| <= |b|
  {
    if a != {} {
      var x :| x in a;
      SubsetSize(a - {x}, b - {x});
    }
  }

  lemma EmptyOrInhabited(s: set<int>)
    ensures s == {} || exists x :: x in s
  {
    if forall x :: x !in s {
      assert s == {};
    }
  }

  /** A loop over `s` has seen one more element. */
  lemma OneMore<T>(done: seq<T>, s: seq<T>, k: nat)
    requires k < |s|
    ensures done + s[..k + 1] == done + s[..k] + [s[k]]
  {
  }

  lemma NothingAdded<T>(s: seq<T>)
    ensures s + [] == s && [] + s == s
  {
  }

  lemma SplitAt<T>(done: seq<T>, s: seq<T>, k: nat)
    requires k <= |s|
    ensures done + s == done + s[..k] + s[k..]
  {
  }

  lemma TakeFront<T>(s: seq<T>, k: nat)
    requires k < |s|
    ensures s[..k + 1][..k] == s[..k]
  {
  }

  lemma TakeNext<T>(s: seq<T>, k: nat)
    requires k < |s|
    ensures s[..k + 1] == s[..k] + [s[k]]
  {
  }

  lemma TakeAll<T>(s: seq<T>)
    ensures s[..|s|] == s
  {
  }

  lemma {:induction false} NeverChanges<T>(s: seq<T>, n: nat, m: nat)
    requires n <= m < |s| && forall k :: n <= k < m ==> s[k + 1] == s[k]
    ensures s[m] == s[n]
  {
    if n < m {
      NeverChanges(s, n, m - 1);
    }
  }

  ghost predicate Distinct<T>(s: seq<T>) {
    forall i, j :: 0 <= i < j < |s| ==> s[i] != s[j]
  }

  /** A new element at the end keeps the elements distinct. */
  lemma DistinctSnoc<T>(s: seq<T>, x: T)
    requires Distinct(s) && x !in s
    ensures Distinct(s + [x])
  {
    forall i, j | 0 <= i < j < |s + [x]| ensures (s + [x])[i] != (s + [x])[j] {
    }
  }

  lemma {:induction false} DistinctSize<T>(s: seq<T>)
    requires Distinct(s)
    ensures |set x | x in s| == |s|
  {
    if |s| > 0 {
      var front, last := s[..|s| - 1], s[|s| - 1];
      DistinctSize(front);
      assert s == front + [last];
      assert (set x | x in s) == (set x | x in front) + {last};
    }
  }

  // ---- Sets of positions ---------------------------------------------------

  function Below(all: set<nat>, n: nat): set<nat> { set i | i in all && i < n }

  lemma BelowNext(all: set<nat>, n: nat)
    ensures |Below(all, n + 1)| == |Below(all, n)| + (if n in all then 1 else 0)
  {
    assert Below(all, n + 1) == if n in all then Below(all, n) + {n} else Below(all, n);
  }

  lemma BelowAll(all: set<nat>, n: nat)
    requires forall i :: i in all ==> i < n
    ensures Below(all, n) == all
  {
  }

  // ---- Positions picked in order -------------------------------------------

  predicate Ascend(at: seq<nat>) { forall j, k :: 0 <= j < k < |at| ==> at[j] < at[k] }

  /** The wanted positions below `n`, in order. */
  ghost predicate Picked(at: seq<nat>, n: nat, wanted: nat -> bool) {
    && Ascend(at)
    && (forall k :: 0 <= k < |at| ==> at[k] < n)
    && forall j: nat :: j < n ==> (j in at <==> wanted(j))
  }

  lemma PickNext(at: seq<nat>, n: nat, wanted: nat -> bool)
    requires Picked(at, n, wanted)
    ensures wanted(n) ==> Picked(at + [n], n + 1, wanted)
    ensures !wanted(n) ==> Picked(at, n + 1, wanted)
  {
    forall j: nat | j < n ensures j in at + [n] <==> j in at {
    }
  }
}
