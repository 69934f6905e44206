/** What a rule's author can rely on, told by declarations, rounds and replies alone. */
module RuleTheorems {
  import opened Collections
  import opened Wrappers
  import opened RuleGraph
  import opened RuleEngine

  // ---- The rounds ----------------------------------------------------------

  /** A rule waits for another iff one of its declarations names it and it is declared. */
  lemma WaitsFor(rules: seq<Rule>, p: string, c: string)
    ensures Edge(GraphOf(rules), p, c) <==>
              && (exists d :: 0 <= d < |rules| && rules[d].id == c && RuleParent(p) in rules[d].parents)
              && exists d :: 0 <= d < |rules| && rules[d].id == p
  {
  }

  /** A rule is handed out in the round after the last of its known parents, in the first if it has none. */
  lemma HandedAfterLastParent(g: Graph, calls: seq<Call>, j: nat, c: string) returns (last: Option<string>)
    requires LevelByLevel(g, calls) && j < |calls| && c in calls[j].active
    ensures last.None? ==> j == 0 && forall p :: !Edge(g, p, c)
    ensures last.Some? ==> j > 0 && Edge(g, last.value, c) && last.value in calls[j - 1].active
  {
    assert c in Elements(calls[j].active);
    NextIsLevel(g, j);
    last := None;
    if p :| Edge(g, p, c) && (j == 0 || p !in Resolved(g, j - 1)) {
      assert p in Resolved(g, j);
      NextIsLevel(g, j - 1);
      assert p in Elements(calls[j - 1].active);
      last := Some(p);
    }
  }

  // ---- What a call is shown ------------------------------------------------

  /** Where a result was replied: in which call, and where in its reply. */
  datatype Place = Place(call: nat, at: nat)

  predicate InReply(calls: seq<Call>, p: Place) { p.call < |calls| && p.at < |calls[p.call].reply| }

  predicate Sooner(p: Place, q: Place) { p.call < q.call || (p.call == q.call && p.at < q.at) }

  /** The results found at these places, which go forward through the replies. */
  ghost predicate Tells(calls: seq<Call>, results: seq<RuleResult>, places: seq<Place>) {
    && |results| == |places|
    && (forall n :: 0 <= n < |places| ==>
          InReply(calls, places[n]) && results[n] == calls[places[n].call].reply[places[n].at])
    && forall m, n :: 0 <= m < n < |places| ==> Sooner(places[m], places[n])
  }

  /** The declaration that counts for some id in `active`, the last one with that id, names `p` as a parent. */
  ghost predicate NamedBy(rules: seq<Rule>, active: seq<string>, p: string) {
    exists d :: 0 <= d < |rules| && rules[d].id in active && RuleParent(p) in rules[d].parents &&
        forall e :: d < e < |rules| ==> rules[e].id != rules[d].id
  }

  lemma {:induction false} RuleByIdIsLast(rules: seq<Rule>, id: string) returns (d: nat)
    requires id in RuleIds(rules)
    ensures d < |rules| && rules[d] == RuleById(rules, id) && rules[d].id == id
    ensures forall e :: d < e < |rules| ==> rules[e].id != id
  {
    d := |rules| - 1;
    if rules[d].id != id {
      d := RuleByIdIsLast(rules[..|rules| - 1], id);
    }
  }

  lemma UsedIffNamed(rules: seq<Rule>, active: seq<string>, p: string)
    ensures UsedByAny(rules, p, active) <==> NamedBy(rules, active, p)
  {
    if k :| 0 <= k < |active| && active[k] in RuleIds(rules) && RuleParent(p) in RuleById(rules, active[k]).parents {
      var d := RuleByIdIsLast(rules, active[k]);
      assert rules[d].id in active;
    }
    if d :| 0 <= d < |rules| && rules[d].id in active && RuleParent(p) in rules[d].parents &&
            forall e :: d < e < |rules| ==> rules[e].id != rules[d].id {
      var e := RuleByIdIsLast(rules, rules[d].id);
      assert e == d;
      var k :| 0 <= k < |active| && active[k] == rules[d].id;
    }
  }

  lemma TellsOneMore(calls: seq<Call>, results: seq<RuleResult>, places: seq<Place>, p: Place)
    requires Tells(calls, results, places) && InReply(calls, p)
    requires forall q :: q in places ==> Sooner(q, p)
    ensures Tells(calls, results + [calls[p.call].reply[p.at]], places + [p])
  {
  }

  /** The results of an evaluation are all replies, each once, in the order they came. */
  lemma RepliesInOrder(calls: seq<Call>) returns (places: seq<Place>)
    ensures Tells(calls, AllReplies(calls), places)
    ensures forall p :: p in places <==> InReply(calls, p)
  {
    places := [];
    ghost var results := [];
    for k := 0 to |calls|
      invariant results == AllReplies(calls[..k]) && Tells(calls, results, places)
      invariant forall p :: p in places <==> InReply(calls, p) && p.call < k
    {
      for m := 0 to |calls[k].reply|
        invariant results == AllReplies(calls[..k]) + calls[k].reply[..m] && Tells(calls, results, places)
        invariant forall p :: p in places <==> InReply(calls, p) && (p.call < k || (p.call == k && p.at < m))
      {
        TellsOneMore(calls, results, places, Place(k, m));
        OneMore(AllReplies(calls[..k]), calls[k].reply, m);
        results, places := results + [calls[k].reply[m]], places + [Place(k, m)];
      }
      TakeAll(calls[k].reply);
      TakeFront(calls, k);
    }
    TakeAll(calls);
  }

  predicate ShownAt(rules: seq<Rule>, calls: seq<Call>, active: seq<string>, p: Place) {
    InReply(calls, p) && UsedByAny(rules, calls[p.call].reply[p.at].ruleId, active)
  }

  lemma ShownPlaces(rules: seq<Rule>, calls: seq<Call>, active: seq<string>, results: seq<RuleResult>,
                    places: seq<Place>)
    returns (shown: seq<Place>)
    requires Tells(calls, results, places)
    ensures Tells(calls, Context(rules, results, active), shown)
    ensures forall p :: p in shown <==> p in places && ShownAt(rules, calls, active, p)
  {
    shown := [];
    for n := 0 to |results|
      invariant Tells(calls, Context(rules, results[..n], active), shown)
      invariant forall p :: p in shown <==> p in places[..n] && ShownAt(rules, calls, active, p)
    {
      TakeFront(results, n);
      TakeNext(places, n);
      if ShownAt(rules, calls, active, places[n]) {
        TellsOneMore(calls, Context(rules, results[..n], active), shown, places[n]);
        shown := shown + [places[n]];
      }
    }
    TakeAll(results);
    TakeAll(places);
  }

  lemma ShownIffNamedBy(rules: seq<Rule>, calls: seq<Call>, active: seq<string>, p: Place)
    requires InReply(calls, p)
    ensures ShownAt(rules, calls, active, p) <==> NamedBy(rules, active, calls[p.call].reply[p.at].ruleId)
  {
    UsedIffNamed(rules, active, calls[p.call].reply[p.at].ruleId);
  }

  /** A call is shown, of the results replied before it, exactly those of rules that a rule it is
      handed names as a parent: each as often as it was replied, in the order of the replies. */
  lemma ShownIffNamed(rules: seq<Rule>, model: Model, calls: seq<Call>, j: nat) returns (shown: seq<Place>)
    requires Asked(rules, model, calls) && j < |calls|
    ensures Tells(calls, calls[j].context, shown)
    ensures forall p :: p in shown <==>
              InReply(calls, p) && p.call < j && NamedBy(rules, calls[j].active, calls[p.call].reply[p.at].ruleId)
    ensures model(calls[j].active, calls[j].context) == Some(calls[j].reply)
  {
    var places := RepliesInOrder(calls[..j]);
    shown := ShownPlaces(rules, calls[..j], calls[j].active, AllReplies(calls[..j]), places);
    forall p | InReply(calls[..j], p)
      ensures ShownAt(rules, calls[..j], calls[j].active, p) <==>
              NamedBy(rules, calls[j].active, calls[p.call].reply[p.at].ruleId)
    {
      ShownIffNamedBy(rules, calls[..j], calls[j].active, p);
    }
  }

  /** So was the call that raised. */
  lemma RaisingCallIsShown(rules: seq<Rule>, model: Model, calls: seq<Call>, active: seq<string>)
    returns (context: seq<RuleResult>, shown: seq<Place>)
    requires RaisedOn(rules, model, calls, active)
    ensures Tells(calls, context, shown) && model(active, context) == None
    ensures forall p :: p in shown <==>
              InReply(calls, p) && NamedBy(rules, active, calls[p.call].reply[p.at].ruleId)
  {
    context := Context(rules, AllReplies(calls), active);
    var places := RepliesInOrder(calls);
    shown := ShownPlaces(rules, calls, active, AllReplies(calls), places);
    forall p | InReply(calls, p)
      ensures ShownAt(rules, calls, active, p) <==> NamedBy(rules, active, calls[p.call].reply[p.at].ruleId)
    {
      ShownIffNamedBy(rules, calls, active, p);
    }
  }

  /** No call is shown a result that none of its rules names as a parent, or that came later. */
  lemma NothingElseIsShown(rules: seq<Rule>, model: Model, calls: seq<Call>, j: nat, r: RuleResult)
    returns (i: nat, d: nat)
    requires Asked(rules, model, calls) && j < |calls| && r in calls[j].context
    ensures i < j && r in calls[i].reply
    ensures d < |rules| && rules[d].id in calls[j].active && RuleParent(r.ruleId) in rules[d].parents
  {
    var shown := ShownIffNamed(rules, model, calls, j);
    var n :| 0 <= n < |calls[j].context| && calls[j].context[n] == r;
    assert shown[n] in shown;
    i := shown[n].call;
    d :| 0 <= d < |rules| && rules[d].id in calls[j].active && RuleParent(r.ruleId) in rules[d].parents;
  }
}
