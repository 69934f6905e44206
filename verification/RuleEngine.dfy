/** The two users of the rule graph: the request validator's cycle check and the engine's
    level-by-level evaluation, over the standard library's topological sorter as documented. */
module RuleEngine {
  import opened Collections
  import opened Wrappers
  import opened RuleGraph

  /** graphlib.TopologicalSorter: predecessors by node, nodes handed out, nodes marked done. */
  class TopologicalSorter {
    var parents: Graph
    var handedOut: set<string>
    var finished: set<string>

    ghost predicate Valid()
      reads this
    {
      Closed(parents)
    }

    constructor ()
      ensures Valid() && parents == map[] && handedOut == {} && finished == {}
    {
      parents := map[];
      handedOut, finished := {}, {};
    }

    /** Adds a node with further predecessors; predecessors become nodes too. */
    method Add(node: string, predecessors: seq<string>)
      requires Valid()
      modifies this`parents
      ensures Valid()
      ensures parents.Keys == old(parents).Keys + {node} + Elements(predecessors)
      ensures forall n :: n in parents ==> parents[n] == Pooled(old(parents), n, node, predecessors)
    {
      var before := parents;
      parents := map n | n in before.Keys + {node} + Elements(predecessors) :: Pooled(before, n, node, predecessors);
    }

    /** False stands for CycleError: some nodes can never lose their last predecessor. */
    method Prepare() returns (ok: bool)
      requires Valid()
      ensures ok <==> !Cyclic(parents)
    {
      var resolved: set<string> := {};
      var next := set n | n in parents && parents[n] <= resolved;
      ghost var k: nat := 0;
      NextRound(parents, 0);
      while resolved != next
        invariant resolved == Resolved(parents, k) && next == Resolved(parents, k + 1)
        invariant resolved <= next <= parents.Keys
        decreases |parents.Keys - resolved|
      {
        assert parents.Keys - next < parents.Keys - resolved;
        ProperSubset(parents.Keys - next, parents.Keys - resolved);
        resolved := next;
        next := set n | n in parents && parents[n] <= resolved;
        k := k + 1;
        NextRound(parents, k);
        ResolvedGrows(parents, k);
      }
      ok := resolved == parents.Keys;
      StuckMeansDoneOrCyclic(parents, k);
    }

    function ReadyNodes(): set<string>
      reads this
    {
      ReadyIn(parents, handedOut, finished)
    }

    function IsActive(): bool
      reads this
    {
      finished != handedOut || ReadyNodes() != {}
    }

    method GetReady() returns (ids: seq<string>)
      modifies this`handedOut
      ensures Elements(ids) == old(ReadyNodes()) && Distinct(ids)
      ensures handedOut == old(handedOut) + Elements(ids)
    {
      var ready := ReadyNodes();
      ids := InSomeOrder(ready);
      handedOut := handedOut + ready;
    }

    method Done(ids: seq<string>)
      modifies this`finished
      ensures finished == old(finished) + Elements(ids)
    {
      finished := finished + Elements(ids);
    }
  }

  /** The nodes not yet handed out whose predecessors are all done. */
  function ReadyIn(parents: Graph, handedOut: set<string>, finished: set<string>): set<string> {
    set n | n in parents && n !in handedOut && parents[n] <= finished
  }

  function Elements(ids: seq<string>): set<string> {
    set id | id in ids
  }

  method InSomeOrder(nodes: set<string>) returns (ids: seq<string>)
    ensures Elements(ids) == nodes && Distinct(ids)
  {
    ids := [];
    var left := nodes;
    while left != {}
      invariant left <= nodes && Elements(ids) == nodes - left && Distinct(ids)
      decreases |left|
    {
      var id :| id in left;
      assert id !in Elements(ids);
      DistinctSnoc(ids, id);
      OneMoreElement(ids, id);
      ids := ids + [id];
      left := left - {id};
    }
  }

  lemma OneMoreElement(ids: seq<string>, id: string)
    ensures Elements(ids + [id]) == Elements(ids) + {id}
  {
  }

  /** A node's predecessors after more are added for `node`. */
  function Pooled(g: Graph, n: string, node: string, predecessors: seq<string>): set<string> {
    (if n in g then g[n] else {}) + (if n == node then Elements(predecessors) else {})
  }

  predicate Closed(g: Graph) {
    forall n :: n in g ==> g[n] <= g.Keys
  }

  lemma ProperSubset(a: set<string>, b: set<string>)
    requires a < b
    ensures |a| < |b|
  {
    var x :| x in b && x !in a;
    SmallerSet(a, b, x);
  }

  // ---- Building the graph --------------------------------------------------

  /** The parent references one declaration contributes, in order. */
  function KnownParents(parents: seq<Parent>, ids: set<string>): seq<string> {
    if parents == [] then []
    else
      var rest := KnownParents(parents[..|parents| - 1], ids);
      match parents[|parents| - 1]
      case RuleParent(p) => if p in ids then rest + [p] else rest
      case _ => rest
  }

  lemma {:induction false} KnownParentsAre(parents: seq<Parent>, ids: set<string>)
    ensures Elements(KnownParents(parents, ids)) == set p | p in ids && RuleParent(p) in parents
  {
    if parents != [] {
      var front := parents[..|parents| - 1];
      KnownParentsAre(front, ids);
      var rest := KnownParents(front, ids);
      assert parents == front + [parents[|parents| - 1]];
      forall p ensures p in Elements(KnownParents(parents, ids)) <==> p in ids && RuleParent(p) in parents {
        assert p in Elements(rest) <==> p in ids && RuleParent(p) in front;
        match parents[|parents| - 1]
        case RuleParent(q) =>
          if q in ids {
            assert (rest + [q])[|rest|] == q;
            assert forall i :: 0 <= i < |rest| ==> (rest + [q])[i] == rest[i];
          }
        case _ =>
      }
    }
  }

  ghost function ParentsUpTo(rules: seq<Rule>, n: nat, id: string): set<string>
    requires n <= |rules|
  {
    set p | p in RuleIds(rules) && exists i :: 0 <= i < n && rules[i].id == id && RuleParent(p) in rules[i].parents
  }

  /** What a loop over the declarations has built after the first `n` of them. */
  ghost predicate BuiltUpTo(g: Graph, rules: seq<Rule>, n: nat)
    requires n <= |rules|
  {
    && g.Keys <= RuleIds(rules)
    && (forall i :: 0 <= i < n ==> rules[i].id in g)
    && (forall id :: id in g ==> g[id] == ParentsUpTo(rules, n, id))
    && Closed(g)
  }

  lemma FullyBuilt(g: Graph, rules: seq<Rule>)
    requires BuiltUpTo(g, rules, |rules|)
    ensures g == GraphOf(rules)
  {
    assert g.Keys == RuleIds(rules);
    forall id | id in g ensures g[id] == ParentsOf(rules, id) {
    }
  }

  lemma OneMoreRule(before: Graph, after: Graph, rules: seq<Rule>, n: nat, added: seq<string>)
    requires n < |rules| && BuiltUpTo(before, rules, n) && Closed(after)
    requires Elements(added) == set p | p in RuleIds(rules) && RuleParent(p) in rules[n].parents
    requires after.Keys == before.Keys + {rules[n].id} + Elements(added)
    requires forall m :: m in after ==> after[m] == Pooled(before, m, rules[n].id, added)
    ensures BuiltUpTo(after, rules, n + 1)
  {
    forall id | id in after ensures after[id] == ParentsUpTo(rules, n + 1, id) {
      if id !in before {
        assert ParentsUpTo(rules, n, id) == {};
      }
      OneMoreDeclaration(rules, n, id);
    }
  }

  lemma OneMoreDeclaration(rules: seq<Rule>, n: nat, id: string)
    requires n < |rules|
    ensures ParentsUpTo(rules, n + 1, id) == ParentsUpTo(rules, n, id) +
              if rules[n].id == id then (set p | p in RuleIds(rules) && RuleParent(p) in rules[n].parents) else {}
  {
  }

  /** The engine's graph, edge lists grown parent by parent. */
  method BuildDag(rules: seq<Rule>) returns (sorter: TopologicalSorter)
    ensures fresh(sorter) && sorter.Valid()
    ensures sorter.parents == GraphOf(rules) && sorter.handedOut == {} && sorter.finished == {}
  {
    sorter := new TopologicalSorter();
    var ids := RuleIds(rules);
    for n := 0 to |rules|
      invariant fresh(sorter) && sorter.Valid() && sorter.handedOut == {} && sorter.finished == {}
      invariant BuiltUpTo(sorter.parents, rules, n)
    {
      var rule := rules[n];
      var parents: seq<string> := [];
      for k := 0 to |rule.parents|
        invariant parents == KnownParents(rule.parents[..k], ids)
      {
        assert rule.parents[..k + 1][..k] == rule.parents[..k];
        match rule.parents[k] {
          case RuleParent(p) =>
            if p in ids {
              parents := parents + [p];
            }
          case _ =>
        }
      }
      assert rule.parents[..|rule.parents|] == rule.parents;
      KnownParentsAre(rule.parents, ids);
      ghost var before := sorter.parents;
      sorter.Add(rule.id, parents);
      OneMoreRule(before, sorter.parents, rules, n, parents);
    }
    FullyBuilt(sorter.parents, rules);
  }

  /** The validator's check: a `rule_cycle` issue is raised exactly for the requests on which
      the engine would raise, the cyclic ones. */
  method CheckRuleDag(rules: seq<Rule>) returns (cycleIssue: bool)
    ensures cycleIssue <==> Cyclic(GraphOf(rules))
  {
    var ids := RuleIds(rules);
    var sorter := new TopologicalSorter();
    for n := 0 to |rules|
      invariant fresh(sorter) && sorter.Valid() && BuiltUpTo(sorter.parents, rules, n)
    {
      var parents := KnownParents(rules[n].parents, ids);
      KnownParentsAre(rules[n].parents, ids);
      ghost var before := sorter.parents;
      sorter.Add(rules[n].id, parents);
      OneMoreRule(before, sorter.parents, rules, n, parents);
    }
    FullyBuilt(sorter.parents, rules);
    var ok := sorter.Prepare();
    cycleIssue := !ok;
  }

  // ---- Evaluating level by level -------------------------------------------

  datatype RuleResult = RuleResult(ruleId: string, output: string)

  /** One call of the model: the rules it was handed and the earlier results it was shown. */
  datatype Call = Call(active: seq<string>, context: seq<RuleResult>, reply: seq<RuleResult>)

  /** The model is an arbitrary oracle of what it is handed; a call that raises gives no reply. */
  type Model = (seq<string>, seq<RuleResult>) -> Option<seq<RuleResult>>

  datatype Outcome = CycleFound | CallRaised(active: seq<string>) | Evaluated

  /** The declaration an id stands for: the last one, as in a dict built in order. */
  function RuleById(rules: seq<Rule>, id: string): Rule
    requires id in RuleIds(rules)
  {
    if rules[|rules| - 1].id == id then rules[|rules| - 1] else RuleById(rules[..|rules| - 1], id)
  }

  predicate UsedByAny(rules: seq<Rule>, ruleId: string, active: seq<string>) {
    exists k :: 0 <= k < |active| && active[k] in RuleIds(rules) &&
        RuleParent(ruleId) in RuleById(rules, active[k]).parents
  }

  /** The earlier results some active rule names as a parent. */
  function Context(rules: seq<Rule>, results: seq<RuleResult>, active: seq<string>): seq<RuleResult> {
    if results == [] then []
    else
      var front := Context(rules, results[..|results| - 1], active);
      var last := results[|results| - 1];
      if UsedByAny(rules, last.ruleId, active) then front + [last] else front
  }

  ghost function AllReplies(calls: seq<Call>): seq<RuleResult> {
    if calls == [] then [] else AllReplies(calls[..|calls| - 1]) + calls[|calls| - 1].reply
  }

  ghost function Level(g: Graph, k: nat): set<string> {
    set id | id in g && AtLevel(g, id, k)
  }

  /** Round `k` handed out exactly the rules at level `k`, each once. */
  ghost predicate LevelByLevel(g: Graph, calls: seq<Call>) {
    forall k :: 0 <= k < |calls| ==>
      Distinct(calls[k].active) && calls[k].active != [] && Elements(calls[k].active) == Level(g, k + 1)
  }

  /** Each call was shown what its rules name among the replies so far, and answered by the model. */
  ghost predicate Asked(rules: seq<Rule>, model: Model, calls: seq<Call>) {
    forall k :: 0 <= k < |calls| ==>
      calls[k].context == Context(rules, AllReplies(calls[..k]), calls[k].active) &&
      model(calls[k].active, calls[k].context) == Some(calls[k].reply)
  }

  lemma AskedOnceMore(rules: seq<Rule>, model: Model, calls: seq<Call>, call: Call)
    requires Asked(rules, model, calls)
    requires call.context == Context(rules, AllReplies(calls), call.active)
    requires model(call.active, call.context) == Some(call.reply)
    ensures Asked(rules, model, calls + [call])
    ensures AllReplies(calls + [call]) == AllReplies(calls) + call.reply
  {
    var more := calls + [call];
    assert more[..|more| - 1] == calls;
    forall k | 0 <= k < |more| ensures more[..k] == calls[..k] {
    }
    assert calls[..|calls|] == calls;
  }

  ghost predicate RoundsSoFar(g: Graph, calls: seq<Call>) {
    forall k :: 0 <= k < |calls| ==>
      Distinct(calls[k].active) && calls[k].active != [] &&
      Elements(calls[k].active) == Resolved(g, k + 1) - Resolved(g, k)
  }

  lemma RoundsAreLevels(g: Graph, calls: seq<Call>)
    requires RoundsSoFar(g, calls)
    ensures LevelByLevel(g, calls)
  {
    forall k | 0 <= k < |calls| ensures Elements(calls[k].active) == Level(g, k + 1) {
      NextIsLevel(g, k);
    }
  }

  lemma NextIsLevel(g: Graph, k: nat)
    ensures Resolved(g, k + 1) - Resolved(g, k) == Level(g, k + 1)
  {
    ResolvedGrows(g, k);
    ResolvedGrows(g, k + 1);
    forall id | id in g ensures id in Resolved(g, k + 1) - Resolved(g, k) <==> id in Level(g, k + 1) {
      LevelIffRound(g, k, id);
    }
  }

  ghost predicate AllHanded(rules: seq<Rule>, calls: seq<Call>) {
    forall id :: id in RuleIds(rules) ==> exists k :: 0 <= k < |calls| && id in calls[k].active
  }

  lemma EveryRuleHanded(rules: seq<Rule>, calls: seq<Call>)
    requires RoundsSoFar(GraphOf(rules), calls) && Resolved(GraphOf(rules), |calls|) == GraphOf(rules).Keys
    ensures LevelByLevel(GraphOf(rules), calls) && AllHanded(rules, calls)
  {
    var g := GraphOf(rules);
    RoundsAreLevels(g, calls);
    forall id | id in RuleIds(rules) ensures exists k :: 0 <= k < |calls| && id in calls[k].active {
      assert id in g;
      var k := FirstRound(g, id, |calls|);
      assert id in Elements(calls[k].active);
    }
  }

  lemma LevelIffRound(g: Graph, k: nat, id: string)
    requires id in g
    ensures id in Resolved(g, k + 1) - Resolved(g, k) <==> AtLevel(g, id, k + 1)
  {
    ResolvedIffShortChains(g, k, id);
    ResolvedIffShortChains(g, k + 1, id);
  }

  /** The call of the next round raised: its rules are exactly the next level. */
  ghost predicate RaisedOn(rules: seq<Rule>, model: Model, calls: seq<Call>, active: seq<string>) {
    && Distinct(active) && active != [] && Elements(active) == Level(GraphOf(rules), |calls| + 1)
    && model(active, Context(rules, AllReplies(calls), active)) == None
  }

  lemma RaisedNext(rules: seq<Rule>, model: Model, calls: seq<Call>, call: Call)
    requires RoundsSoFar(GraphOf(rules), calls) && Distinct(call.active) && call.active != []
    requires Elements(call.active) == Resolved(GraphOf(rules), |calls| + 1) - Resolved(GraphOf(rules), |calls|)
    requires call.context == Context(rules, AllReplies(calls), call.active) && model(call.active, call.context) == None
    ensures LevelByLevel(GraphOf(rules), calls) && RaisedOn(rules, model, calls, call.active)
  {
    RoundsAreLevels(GraphOf(rules), calls);
    NextIsLevel(GraphOf(rules), |calls|);
  }

  /** Finds a cycle exactly when there is one. Otherwise the rule ids are handed to the model, each
      once, in the round equal to one plus its longest chain of known parents; each round shows the
      model precisely the earlier results its rules name as parents. The first call that raises
      ends it (and what was gathered is lost with the exception); if none does, every rule was handed
      out and the answer is all replies in order. The empty-ready safety exit is never taken. */
  method Evaluate(rules: seq<Rule>, model: Model)
    returns (outcome: Outcome, results: seq<RuleResult>, calls: seq<Call>)
    ensures outcome.CycleFound? <==> Cyclic(GraphOf(rules))
    ensures outcome.CycleFound? ==> results == [] && calls == []
    ensures !outcome.CycleFound? ==> LevelByLevel(GraphOf(rules), calls)
    ensures outcome.CallRaised? ==> RaisedOn(rules, model, calls, outcome.active)
    ensures outcome.Evaluated? ==> AllHanded(rules, calls)
    ensures Asked(rules, model, calls)
    ensures results == AllReplies(calls)
  {
    outcome, results, calls := Evaluated, [], [];
    ghost var g := GraphOf(rules);
    if rules == [] {
      EmptyGraphHasNoCycle(g);
      return;
    }
    var sorter := BuildDag(rules);
    var ok := sorter.Prepare();
    if !ok {
      outcome := CycleFound;
      return;
    }
    outcome, results, calls := EvaluateLevels(sorter, rules, model);
  }

  /** After `n` rounds everything handed out is finished, and that is exactly the resolved rules. */
  ghost predicate BetweenRounds(sorter: TopologicalSorter, g: Graph, n: nat)
    reads sorter
  {
    sorter.Valid() && sorter.parents == g && sorter.handedOut == sorter.finished == Resolved(g, n)
  }

  lemma NothingReadyMeansDone(sorter: TopologicalSorter, g: Graph, n: nat)
    requires BetweenRounds(sorter, g, n) && !sorter.IsActive() && !Cyclic(g)
    ensures Resolved(g, n) == g.Keys
  {
    ReadyIsNextRound(g, n);
    assert Resolved(g, n + 1) == Resolved(g, n);
    StuckMeansDoneOrCyclic(g, n);
  }

  /** What the calls so far were, and what they were answered. */
  ghost predicate InRounds(rules: seq<Rule>, model: Model, calls: seq<Call>, results: seq<RuleResult>) {
    RoundsSoFar(GraphOf(rules), calls) && Asked(rules, model, calls) && results == AllReplies(calls)
  }

  lemma OneMoreRound(rules: seq<Rule>, model: Model, calls: seq<Call>, results: seq<RuleResult>, call: Call)
    requires InRounds(rules, model, calls, results) && Distinct(call.active) && call.active != []
    requires Elements(call.active) == Resolved(GraphOf(rules), |calls| + 1) - Resolved(GraphOf(rules), |calls|)
    requires call.context == Context(rules, results, call.active)
    requires model(call.active, call.context) == Some(call.reply)
    ensures InRounds(rules, model, calls + [call], results + call.reply)
  {
    AskedOnceMore(rules, model, calls, call);
    RoundsOnceMore(GraphOf(rules), calls, call);
  }

  /** One turn of the loop: what is ready, what the model is shown, its reply, then done. */
  method EvaluateLevel(sorter: TopologicalSorter, rules: seq<Rule>, model: Model, results: seq<RuleResult>,
                       ghost before: set<string>, ghost next: set<string>)
    returns (call: Call, answered: bool)
    requires sorter.Valid() && sorter.IsActive() && sorter.handedOut == sorter.finished == before
    requires before <= next && sorter.ReadyNodes() == next - before
    modifies sorter
    ensures Distinct(call.active) && call.active != [] && Elements(call.active) == next - before
    ensures call.context == Context(rules, results, call.active)
    ensures model(call.active, call.context) == if answered then Some(call.reply) else None
    ensures answered ==>
              sorter.Valid() && sorter.parents == old(sorter.parents) && sorter.handedOut == sorter.finished == next
  {
    var readyIds := sorter.GetReady();
    assert readyIds != [];  // so the source's empty-ready break is never taken
    var context := Context(rules, results, readyIds);
    var reply := model(readyIds, context);
    answered := reply.Some?;
    call := Call(readyIds, context, if reply.Some? then reply.value else []);
    if answered {
      sorter.Done(readyIds);
    }
  }

  /** One turn of the loop, as a round of the graph. */
  method EvaluateRound(sorter: TopologicalSorter, rules: seq<Rule>, model: Model, results: seq<RuleResult>,
                       ghost calls: seq<Call>)
    returns (call: Call, answered: bool)
    requires BetweenRounds(sorter, GraphOf(rules), |calls|) && sorter.IsActive()
    requires InRounds(rules, model, calls, results)
    modifies sorter
    ensures !answered ==> LevelByLevel(GraphOf(rules), calls) && RaisedOn(rules, model, calls, call.active)
    ensures answered ==> BetweenRounds(sorter, GraphOf(rules), |calls| + 1)
    ensures answered ==> InRounds(rules, model, calls + [call], results + call.reply)
    ensures answered ==> Rest(GraphOf(rules), |calls| + 1) < Rest(GraphOf(rules), |calls|)
  {
    ghost var g := GraphOf(rules);
    ghost var before, next := Resolved(g, |calls|), Resolved(g, |calls| + 1);
    ReadyIsNextRound(g, |calls|);
    call, answered := EvaluateLevel(sorter, rules, model, results, before, next);
    if answered {
      RoundShrinksRest(g, before, next, call.active);
      OneMoreRound(rules, model, calls, results, call);
    } else {
      RaisedNext(rules, model, calls, call);
    }
  }

  /** How many rules are unresolved after `n` rounds. */
  ghost function Rest(g: Graph, n: nat): nat { |g.Keys - Resolved(g, n)| }

  lemma NoRoundYet(rules: seq<Rule>, model: Model)
    ensures InRounds(rules, model, [], [])
  {
  }

  /** The level loop over a sorter without cycles. */
  method EvaluateLevels(sorter: TopologicalSorter, rules: seq<Rule>, model: Model)
    returns (outcome: Outcome, results: seq<RuleResult>, calls: seq<Call>)
    requires BetweenRounds(sorter, GraphOf(rules), 0) && !Cyclic(GraphOf(rules))
    modifies sorter
    ensures !outcome.CycleFound? && LevelByLevel(GraphOf(rules), calls)
    ensures outcome.CallRaised? ==> RaisedOn(rules, model, calls, outcome.active)
    ensures outcome.Evaluated? ==> AllHanded(rules, calls)
    ensures Asked(rules, model, calls) && results == AllReplies(calls)
  {
    outcome, results, calls := Evaluated, [], [];
    NoRoundYet(rules, model);
    while sorter.IsActive()
      invariant BetweenRounds(sorter, GraphOf(rules), |calls|)
      invariant InRounds(rules, model, calls, results)
      decreases Rest(GraphOf(rules), |calls|)
    {
      var call, answered := EvaluateRound(sorter, rules, model, results, calls);
      if !answered {
        return CallRaised(call.active), results, calls;
      }
      calls := calls + [call];
      results := results + call.reply;
    }
    NothingReadyMeansDone(sorter, GraphOf(rules), |calls|);
    EveryRuleHanded(rules, calls);
  }

  lemma RoundsOnceMore(g: Graph, calls: seq<Call>, call: Call)
    requires RoundsSoFar(g, calls) && Distinct(call.active) && call.active != []
    requires Elements(call.active) == Resolved(g, |calls| + 1) - Resolved(g, |calls|)
    ensures RoundsSoFar(g, calls + [call])
  {
  }

  lemma RoundShrinksRest(g: Graph, before: set<string>, after: set<string>, ids: seq<string>)
    requires before <= after <= g.Keys && Elements(ids) == after - before && ids != []
    ensures |g.Keys - after| < |g.Keys - before|
  {
    assert ids[0] in Elements(ids);
    ProperSubset(g.Keys - after, g.Keys - before);
  }

  lemma EmptyGraphHasNoCycle(g: Graph)
    requires g.Keys == {}
    ensures !Cyclic(g)
  {
  }

  lemma ReadyIsNextRound(g: Graph, k: nat)
    requires Closed(g)
    ensures Resolved(g, k) <= Resolved(g, k + 1) <= g.Keys
    ensures ReadyIn(g, Resolved(g, k), Resolved(g, k)) == Resolved(g, k + 1) - Resolved(g, k)
    ensures Resolved(g, k) + ReadyIn(g, Resolved(g, k), Resolved(g, k)) == Resolved(g, k + 1)
  {
    ResolvedGrows(g, k);
    NextRound(g, k);
  }

  lemma {:induction false} FirstRound(g: Graph, id: string, n: nat) returns (k: nat)
    requires id in Resolved(g, n)
    ensures k < n && id in Resolved(g, k + 1) - Resolved(g, k)
    decreases n
  {
    if id in Resolved(g, n - 1) {
      k := FirstRound(g, id, n - 1);
    } else {
      k := n - 1;
    }
  }

  // ---- What the levels give a rule's author --------------------------------

  /** Handed exactly once: no id occurs twice, within a round or across rounds. */
  lemma HandedOnce(g: Graph, calls: seq<Call>, i: nat, a: nat, j: nat, b: nat)
    requires LevelByLevel(g, calls)
    requires i < |calls| && j < |calls| && a < |calls[i].active| && b < |calls[j].active|
    requires calls[i].active[a] == calls[j].active[b]
    ensures i == j && a == b
  {
    var id := calls[i].active[a];
    assert id in Elements(calls[i].active) && id in Elements(calls[j].active);
    assert id in Level(g, i + 1) && id in Level(g, j + 1);
    LevelIsUnique(g, id, i + 1, j + 1);
  }

  lemma ParentIsEarlier(g: Graph, calls: seq<Call>, i: nat, j: nat, p: string, c: string)
    requires LevelByLevel(g, calls) && Edge(g, p, c)
    requires i < |calls| && j < |calls| && p in calls[i].active && c in calls[j].active
    ensures i < j
  {
    assert p in Elements(calls[i].active) && c in Elements(calls[j].active);
    assert p in Level(g, i + 1) && c in Level(g, j + 1);
    LaterThanParent(g, p, i + 1, c, j + 1);
  }

  lemma LaterThanParent(g: Graph, p: string, i: nat, c: string, j: nat)
    requires Edge(g, p, c) && AtLevel(g, p, i) && AtLevel(g, c, j)
    ensures i < j
  {
    var path :| WalkTo(g, path, p) && |path| == i;
    WalkExtends(g, path, c);
    assert WalkTo(g, path + [c], c);
  }

  lemma {:induction false} ContextKeeps(rules: seq<Rule>, results: seq<RuleResult>, active: seq<string>, r: RuleResult)
    ensures r in Context(rules, results, active) <==> r in results && UsedByAny(rules, r.ruleId, active)
  {
    if results != [] {
      ContextKeeps(rules, results[..|results| - 1], active, r);
      assert results == results[..|results| - 1] + [results[|results| - 1]];
    }
  }

  lemma {:induction false} RepliesInclude(calls: seq<Call>, i: nat, r: RuleResult)
    requires i < |calls| && r in calls[i].reply
    ensures r in AllReplies(calls)
  {
    if i < |calls| - 1 {
      RepliesInclude(calls[..|calls| - 1], i, r);
    }
  }

  lemma {:induction false} RuleByIdFinds(rules: seq<Rule>, id: string)
    requires id in RuleIds(rules)
    ensures RuleById(rules, id) in rules && RuleById(rules, id).id == id
  {
    if rules[|rules| - 1].id != id {
      RuleByIdFinds(rules[..|rules| - 1], id);
    }
  }

  predicate UniqueIds(rules: seq<Rule>) {
    forall i, j :: 0 <= i < j < |rules| ==> rules[i].id != rules[j].id
  }

  /** When rule ids are unique, a model that answers for every rule it is handed is shown, with
      each rule, a result for every one of that rule's known parents. */
  lemma ParentsAreInContext(rules: seq<Rule>, calls: seq<Call>, j: nat, p: string, c: string, i: nat, r: RuleResult)
    requires UniqueIds(rules) && LevelByLevel(GraphOf(rules), calls)
    requires j < |calls| && calls[j].context == Context(rules, AllReplies(calls[..j]), calls[j].active)
    requires c in calls[j].active && Edge(GraphOf(rules), p, c)
    requires i < |calls| && p in calls[i].active && r in calls[i].reply && r.ruleId == p
    ensures r in calls[j].context
  {
    ParentIsEarlier(GraphOf(rules), calls, i, j, p, c);
    RepliesInclude(calls[..j], i, r);
    ContextKeeps(rules, AllReplies(calls[..j]), calls[j].active, r);
    RuleByIdFinds(rules, c);
    var d :| 0 <= d < |rules| && rules[d].id == c && RuleParent(p) in rules[d].parents;
    assert RuleById(rules, c) == rules[d];
    var a :| 0 <= a < |calls[j].active| && calls[j].active[a] == c;
    assert UsedByAny(rules, p, calls[j].active);
  }
}
