/** Rules and the graph both the request validator and the rule engine build from them:
    one node per rule id, one edge per parent rule that exists. */
module RuleGraph {
  datatype Parent =
    | FieldParent(documentType: string, fields: seq<string>)
    | ValidatorParent(documentType: string, validator: string)
    | RuleParent(rule: string)

  datatype Rule = Rule(id: string, parents: seq<Parent>)

  /** A graph gives every node the set of its parents. */
  type Graph = map<string, set<string>>

  function RuleIds(rules: seq<Rule>): set<string> {
    set i | 0 <= i < |rules| :: rules[i].id
  }

  /** Rule ids are nodes; parents that are not rules are dropped, repeated ids pool theirs. */
  function GraphOf(rules: seq<Rule>): Graph {
    map id | id in RuleIds(rules) :: ParentsOf(rules, id)
  }

  function ParentsOf(rules: seq<Rule>, id: string): set<string> {
    set p | p in RuleIds(rules) &&
            exists i :: 0 <= i < |rules| && rules[i].id == id && RuleParent(p) in rules[i].parents
  }

  predicate Edge(g: Graph, parent: string, child: string) {
    child in g && parent in g && parent in g[child]
  }

  /** A walk along edges, parents first. */
  ghost predicate Walk(g: Graph, path: seq<string>) {
    && path != []
    && path[0] in g
    && forall k :: 0 <= k < |path| - 1 ==> Edge(g, path[k], path[k + 1])
  }

  ghost predicate WalkTo(g: Graph, path: seq<string>, id: string) {
    Walk(g, path) && path[|path| - 1] == id
  }

  /** A rule that is, through one or more steps, its own ancestor. */
  ghost predicate Cyclic(g: Graph) {
    exists path :: Loop(g, path)
  }

  ghost predicate Loop(g: Graph, path: seq<string>) {
    Walk(g, path) && |path| >= 2 && path[0] == path[|path| - 1]
  }

  /** The rules whose known parents all have a chain of fewer than `k` rules above them. */
  ghost function Resolved(g: Graph, k: nat): set<string> {
    if k == 0 then {}
    else set id | id in g.Keys && forall p :: Edge(g, p, id) ==> p in Resolved(g, k - 1)
  }

  /** `id` sits at level `k`: some parent chain of `k` rules ends in it and none is longer. */
  ghost predicate AtLevel(g: Graph, id: string, k: nat) {
    && (exists path :: WalkTo(g, path, id) && |path| == k)
    && (forall path :: WalkTo(g, path, id) ==> |path| <= k)
  }

  // ---- Resolution and chains ---------------------------------------------

  lemma EdgesJoinNodes(g: Graph, p: string, c: string)
    requires Edge(g, p, c)
    ensures p in g && c in g
  {
  }

  lemma WalkPrefix(g: Graph, path: seq<string>, n: nat)
    requires Walk(g, path) && 1 <= n <= |path|
    ensures Walk(g, path[..n])
  {
  }

  lemma WalkExtends(g: Graph, path: seq<string>, c: string)
    requires Walk(g, path) && Edge(g, path[|path| - 1], c)
    ensures WalkTo(g, path + [c], c)
  {
  }

  lemma WalkStaysInNodes(g: Graph, path: seq<string>)
    requires Walk(g, path)
    ensures forall k :: 0 <= k < |path| ==> path[k] in g.Keys
  {
    forall k | 0 <= k < |path| ensures path[k] in g.Keys {
      if k > 0 {
        EdgesJoinNodes(g, path[k - 1], path[k]);
      }
    }
  }

  /** Within `k` rounds exactly the rules without a chain of more than `k` rules are resolved. */
  lemma {:induction false} ResolvedIffShortChains(g: Graph, k: nat, id: string)
    requires id in g.Keys
    ensures id in Resolved(g, k) <==> forall path :: WalkTo(g, path, id) ==> |path| <= k
    decreases k
  {
    if k == 0 {
      assert WalkTo(g, [id], id);
    } else if id in Resolved(g, k) {
      forall path | WalkTo(g, path, id) ensures |path| <= k {
        if |path| >= 2 {
          var shorter := path[..|path| - 1];
          var p := path[|path| - 2];
          assert Edge(g, path[|path| - 2], path[|path| - 1]);
          WalkPrefix(g, path, |path| - 1);
          EdgesJoinNodes(g, p, id);
          ResolvedIffShortChains(g, k - 1, p);
          assert WalkTo(g, shorter, p);
        }
      }
    } else {
      var p :| Edge(g, p, id) && p !in Resolved(g, k - 1);
      EdgesJoinNodes(g, p, id);
      ResolvedIffShortChains(g, k - 1, p);
      var path :| WalkTo(g, path, p) && |path| > k - 1;
      WalkExtends(g, path, id);
      assert WalkTo(g, path + [id], id);
    }
  }

  lemma ResolvedGrows(g: Graph, k: nat)
    ensures Resolved(g, k) <= Resolved(g, k + 1) <= g.Keys
  {
    forall id | id in Resolved(g, k) ensures id in Resolved(g, k + 1) {
      ResolvedIffShortChains(g, k, id);
      ResolvedIffShortChains(g, k + 1, id);
    }
  }

  lemma LevelIsUnique(g: Graph, id: string, j: nat, k: nat)
    requires AtLevel(g, id, j) && AtLevel(g, id, k)
    ensures j == k
  {
  }

  /** The next round by parent sets, as a sorter computes it. */
  lemma NextRound(g: Graph, k: nat)
    requires forall n :: n in g ==> g[n] <= g.Keys
    ensures Resolved(g, k + 1) == set n | n in g && g[n] <= Resolved(g, k)
  {
    forall n | n in g ensures n in Resolved(g, k + 1) <==> g[n] <= Resolved(g, k) {
      assert forall p :: p in g[n] <==> Edge(g, p, n);
    }
  }

  // ---- Cycles --------------------------------------------------------------

  /** A longer walk than there are rules meets some rule twice. */
  lemma {:induction false} LongPathRepeats(path: seq<string>, nodes: set<string>)
    requires forall k :: 0 <= k < |path| ==> path[k] in nodes
    requires |path| > |nodes|
    ensures exists i, j :: 0 <= i < j < |path| && path[i] == path[j]
    decreases |path|
  {
    var last := path[|path| - 1];
    var rest := path[..|path| - 1];
    if last in rest {
      var i :| 0 <= i < |rest| && rest[i] == last;
      assert path[i] == path[|path| - 1];
    } else {
      assert forall k :: 0 <= k < |rest| ==> rest[k] in nodes - {last};
      LongPathRepeats(rest, nodes - {last});
      var i, j :| 0 <= i < j < |rest| && rest[i] == rest[j];
      assert path[i] == path[j];
    }
  }

  lemma WalkSlice(g: Graph, path: seq<string>, i: nat, j: nat)
    requires Walk(g, path) && i < j <= |path|
    ensures Walk(g, path[i..j])
  {
    var part := path[i..j];
    WalkStaysInNodes(g, path);
    assert path[i] in g.Keys;
    forall k | 0 <= k < |part| - 1 ensures Edge(g, part[k], part[k + 1]) {
      assert part[k] == path[i + k] && part[k + 1] == path[i + k + 1];
    }
  }

  lemma RepeatMeansCycle(g: Graph, path: seq<string>, i: nat, j: nat)
    requires Walk(g, path) && i < j < |path| && path[i] == path[j]
    ensures Cyclic(g)
  {
    var loop := path[i..j + 1];
    WalkSlice(g, path, i, j + 1);
    assert loop[0] == path[i] && loop[|loop| - 1] == path[j];
    assert Loop(g, loop);
  }

  lemma LongWalkMeansCycle(g: Graph, path: seq<string>)
    requires Walk(g, path) && |path| > |g.Keys|
    ensures Cyclic(g)
  {
    WalkStaysInNodes(g, path);
    LongPathRepeats(path, g.Keys);
    var i, j :| 0 <= i < j < |path| && path[i] == path[j];
    RepeatMeansCycle(g, path, i, j);
  }

  /** Going round a loop once more gives a longer walk to the same rule. */
  lemma {:induction false} LoopsGiveLongWalks(g: Graph, loop: seq<string>, n: nat) returns (path: seq<string>)
    requires Loop(g, loop)
    ensures WalkTo(g, path, loop[0]) && |path| > n
  {
    if n == 0 {
      path := loop;
    } else {
      var shorter := LoopsGiveLongWalks(g, loop, n - 1);
      path := shorter + loop[1..];
      forall k | 0 <= k < |path| - 1 ensures Edge(g, path[k], path[k + 1]) {
        if k >= |shorter| - 1 {
          var m := k - (|shorter| - 1);
          assert path[k] == loop[m] && path[k + 1] == loop[m + 1];
        }
      }
    }
  }

  /** A rule set has no cycle iff it is all resolved after as many rounds as it has rules. */
  lemma AcyclicIffResolved(g: Graph)
    ensures !Cyclic(g) <==> Resolved(g, |g.Keys|) == g.Keys
  {
    var n := |g.Keys|;
    if Cyclic(g) {
      var loop :| Loop(g, loop);
      var path := LoopsGiveLongWalks(g, loop, n);
      WalkStaysInNodes(g, loop);
      ResolvedIffShortChains(g, n, loop[0]);
    } else {
      forall id | id in g.Keys ensures id in Resolved(g, n) {
        forall path | WalkTo(g, path, id) ensures |path| <= n {
          if |path| > n {
            LongWalkMeansCycle(g, path);
          }
        }
        ResolvedIffShortChains(g, n, id);
      }
      if n > 0 {
        ResolvedGrows(g, n - 1);
      }
    }
  }

  /** A round that resolves nothing new proves a cycle: an acyclic set always has a rule whose
      remaining parents are all resolved. */
  lemma {:induction false} StuckMeansDoneOrCyclic(g: Graph, k: nat)
    requires Resolved(g, k + 1) == Resolved(g, k)
    ensures Resolved(g, k) == g.Keys <==> !Cyclic(g)
  {
    AcyclicIffResolved(g);
    if k <= |g.Keys| {
      StuckForever(g, k, |g.Keys|);
    } else {
      GrownForever(g, |g.Keys|, k);
      if Cyclic(g) {
        var loop :| Loop(g, loop);
        var path := LoopsGiveLongWalks(g, loop, k);
        WalkStaysInNodes(g, loop);
        ResolvedIffShortChains(g, k, loop[0]);
      }
    }
  }

  lemma {:induction false} StuckForever(g: Graph, k: nat, m: nat)
    requires Resolved(g, k + 1) == Resolved(g, k) && k <= m
    ensures Resolved(g, m) == Resolved(g, k)
    decreases m
  {
    if m > k {
      StuckForever(g, k, m - 1);
      assert Resolved(g, m) == Resolved(g, k + 1);
    }
  }

  lemma {:induction false} GrownForever(g: Graph, j: nat, k: nat)
    requires j <= k
    ensures Resolved(g, j) <= Resolved(g, k) <= g.Keys
    decreases k
  {
    if j < k {
      GrownForever(g, j, k - 1);
      ResolvedGrows(g, k - 1);
    }
  }
}
