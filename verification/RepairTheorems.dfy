/** Repair is monotone: it only ever turns failing fields into clean ones. */
module RepairTheorems {
  import opened Collections
  import opened Fields
  import opened FieldRepair

  ghost predicate Holds(groups: seq<GroupSnap>, key: Key, f: Field) {
    exists g :: g in groups && g.name == key.0 && f in g.fields && f.name == key.1
  }

  lemma {:induction false} FailuresInAre(name: string, fields: seq<Field>, includeFlagged: bool, key: Key)
    ensures (exists f :: f in FailuresIn(name, fields, includeFlagged) && f.key == key) <==>
            key.0 == name && exists f :: f in fields && f.name == key.1 && Failing(f, includeFlagged)
  {
    if |fields| > 0 {
      var front, last := fields[..|fields| - 1], fields[|fields| - 1];
      FailuresInAre(name, front, includeFlagged, key);
      assert fields == front + [last];
      var all := FailuresIn(name, fields, includeFlagged);
      assert forall f :: f in FailuresIn(name, front, includeFlagged) ==> f in all;
      if Failing(last, includeFlagged) {
        assert Failure((name, last.name), PagesIn(last)) in all;
      }
    }
  }

  /** The failing keys are those of the fields that fail. */
  lemma {:induction false} FailuresAre(groups: seq<GroupSnap>, includeFlagged: bool, key: Key)
    ensures key in FailingKeys(Failures(groups, includeFlagged)) <==>
              exists f :: Holds(groups, key, f) && Failing(f, includeFlagged)
  {
    if |groups| > 0 {
      var front, last := groups[..|groups| - 1], groups[|groups| - 1];
      FailuresAre(front, includeFlagged, key);
      FailuresInAre(last.name, last.fields, includeFlagged, key);
      assert groups == front + [last];
      assert forall f :: Holds(groups, key, f) <==>
               Holds(front, key, f) || (last.name == key.0 && f in last.fields && f.name == key.1);
    }
  }

  lemma {:induction false} AcceptedInAre(pass: RepairPass, name: string, fields: seq<Field>, key: Key)
    ensures key in AcceptedIn(pass, name, fields) <==>
            key.0 == name && Accepts(pass, key) && exists f :: f in fields && f.name == key.1
  {
    if |fields| > 0 {
      var front, last := fields[..|fields| - 1], fields[|fields| - 1];
      AcceptedInAre(pass, name, front, key);
      assert fields == front + [last];
    }
  }

  lemma {:induction false} AcceptedAre(pass: RepairPass, groups: seq<GroupSnap>, key: Key)
    ensures key in AcceptedKeys(pass, groups) <==> Accepts(pass, key) && exists f :: Holds(groups, key, f)
  {
    if |groups| > 0 {
      var front, last := groups[..|groups| - 1], groups[|groups| - 1];
      AcceptedAre(pass, front, key);
      AcceptedInAre(pass, last.name, last.fields, key);
      assert groups == front + [last];
      assert forall f :: Holds(groups, key, f) <==>
               Holds(front, key, f) || (last.name == key.0 && f in last.fields && f.name == key.1);
    }
  }

  /** Candidates are filed under their own name. */
  ghost predicate WellFiled(pass: RepairPass) {
    forall key :: key in pass.candidates ==> pass.candidates[key].name == key.1
  }

  lemma {:induction false} ByKeyIsWellFiled(repaired: seq<GroupSnap>)
    ensures forall key :: key in ByKey(repaired) ==> ByKey(repaired)[key].name == key.1
  {
    if |repaired| > 0 {
      var last := repaired[|repaired| - 1];
      ByKeyIsWellFiled(repaired[..|repaired| - 1]);
      ByKeyInIsWellFiled(last.name, last.fields, ByKey(repaired[..|repaired| - 1]));
    }
  }

  lemma {:induction false} ByKeyInIsWellFiled(name: string, fields: seq<Field>, known: map<Key, Field>)
    requires forall key :: key in known ==> known[key].name == key.1
    ensures forall key :: key in ByKeyIn(name, fields, known) ==> ByKeyIn(name, fields, known)[key].name == key.1
  {
    if |fields| > 0 {
      ByKeyInIsWellFiled(name, fields[..|fields| - 1], known);
    }
  }

  lemma AfterHeldBefore(pass: RepairPass, groups: seq<GroupSnap>, key: Key, f: Field)
    requires WellFiled(pass) && Holds(GroupsAfter(pass, groups), key, f)
    ensures exists was :: Holds(groups, key, was) && f == FieldAfter(pass, key.0, was)
  {
    var after := GroupsAfter(pass, groups);
    var g :| g in after && g.name == key.0 && f in g.fields && f.name == key.1;
    var i :| 0 <= i < |after| && after[i] == g;
    var k :| 0 <= k < |g.fields| && g.fields[k] == f;
    var was := groups[i].fields[k];
    NameIsKept(pass, key.0, was);
    HeldAt(groups, i, k, key);
  }

  lemma HeldAt(groups: seq<GroupSnap>, i: nat, k: nat, key: Key)
    requires i < |groups| && k < |groups[i].fields| && key == (groups[i].name, groups[i].fields[k].name)
    ensures Holds(groups, key, groups[i].fields[k])
  {
    assert groups[i] in groups;
  }

  lemma StillHolds(pass: RepairPass, groups: seq<GroupSnap>, key: Key, was: Field)
    requires WellFiled(pass) && Holds(groups, key, was)
    ensures Holds(GroupsAfter(pass, groups), key, FieldAfter(pass, key.0, was))
  {
    var after := GroupsAfter(pass, groups);
    var g :| g in groups && g.name == key.0 && was in g.fields && was.name == key.1;
    var i :| 0 <= i < |groups| && groups[i] == g;
    var k :| 0 <= k < |g.fields| && g.fields[k] == was;
    NameIsKept(pass, key.0, was);
    assert after[i].fields[k] == FieldAfter(pass, key.0, was);
    assert after[i] in after;
  }

  lemma NameIsKept(pass: RepairPass, name: string, f: Field)
    requires WellFiled(pass)
    ensures FieldAfter(pass, name, f).name == f.name
    ensures Accepts(pass, (name, f.name)) ==> IsClean(FieldAfter(pass, name, f), pass.judged)
    ensures !Accepts(pass, (name, f.name)) ==> FieldAfter(pass, name, f) == f
    ensures f.value != Null ==> FieldAfter(pass, name, f).value != Null
  {
  }

  lemma CleanIsNotFailing(f: Field, judged: bool, includeFlagged: bool)
    requires IsClean(f, judged)
    ensures !Failing(f, includeFlagged)
  {
  }

  /** The failing set after repair is the failing set before it minus exactly the accepted fields. */
  lemma FailingShrinksByAccepted(pass: RepairPass, groups: seq<GroupSnap>, includeFlagged: bool, key: Key)
    requires WellFiled(pass)
    ensures key in FailingKeys(Failures(GroupsAfter(pass, groups), includeFlagged)) <==>
            key in FailingKeys(Failures(groups, includeFlagged)) && key !in AcceptedKeys(pass, groups)
  {
    var after := GroupsAfter(pass, groups);
    FailuresAre(groups, includeFlagged, key);
    FailuresAre(after, includeFlagged, key);
    AcceptedAre(pass, groups, key);
    if f :| Holds(after, key, f) && Failing(f, includeFlagged) {
      AfterHeldBefore(pass, groups, key, f);
      var was :| Holds(groups, key, was) && f == FieldAfter(pass, key.0, was);
      NameIsKept(pass, key.0, was);
      if Accepts(pass, key) {
        CleanIsNotFailing(f, pass.judged, includeFlagged);
      }
    }
    if !Accepts(pass, key) {
      if was :| Holds(groups, key, was) && Failing(was, includeFlagged) {
        NameIsKept(pass, key.0, was);
        StillHolds(pass, groups, key, was);
      }
    }
  }

  /** Position by position: a field not accepted is untouched, and no value becomes null. */
  lemma OthersAreUntouched(pass: RepairPass, groups: seq<GroupSnap>, i: nat, k: nat)
    requires WellFiled(pass) && i < |groups| && k < |groups[i].fields|
    ensures var was, now := groups[i].fields[k], GroupsAfter(pass, groups)[i].fields[k];
      && now.name == was.name
      && ((groups[i].name, was.name) !in AcceptedKeys(pass, groups) ==> now == was)
      && (was.value != Null ==> now.value != Null)
  {
    var was := groups[i].fields[k];
    NameIsKept(pass, groups[i].name, was);
    AcceptedAre(pass, groups, (groups[i].name, was.name));
    assert groups[i] in groups && was in groups[i].fields;
    assert Holds(groups, (groups[i].name, was.name), was);
  }

  /** What one repair of a task is worth, for any re-extraction and any verdicts on it: the failing set
      loses exactly the accepted fields, all of which were failing, and the bad verdicts never grow. */
  lemma RepairIsMonotone(groups: seq<GroupSnap>, includeFlagged: bool, candidates: seq<GroupSnap>, judged: bool,
                         offset: int)
    ensures var pass := PassOf(groups, includeFlagged, candidates, judged, offset);
      var before, after := FailingKeys(Failures(groups, includeFlagged)),
          FailingKeys(Failures(GroupsAfter(pass, groups), includeFlagged));
      var accepted := set key | key in AcceptedKeys(pass, groups);
      && accepted <= before && after == before - accepted
      && BadInGroups(GroupsAfter(pass, groups)) <= BadInGroups(groups)
  {
    var pass := PassOf(groups, includeFlagged, candidates, judged, offset);
    ByKeyIsWellFiled(candidates);
    forall key ensures key in AcceptedKeys(pass, groups) ==> key in pass.failing {
      AcceptedAre(pass, groups, key);
    }
    forall key ensures key in FailingKeys(Failures(GroupsAfter(pass, groups), includeFlagged)) <==>
                       key in FailingKeys(Failures(groups, includeFlagged)) && key !in AcceptedKeys(pass, groups) {
      FailingShrinksByAccepted(pass, groups, includeFlagged, key);
    }
    RepairNeverRaisesCount(pass, groups);
  }

  // ---- The escalation count ------------------------------------------------

  predicate JudgedBad(f: Field) { f.judge.status == Fail || f.judge.flagged }

  function BadIn(fields: seq<Field>): nat {
    if |fields| == 0 then 0 else BadIn(fields[..|fields| - 1]) + (if JudgedBad(fields[|fields| - 1]) then 1 else 0)
  }

  function BadInGroups(groups: seq<GroupSnap>): nat {
    if |groups| == 0 then 0 else BadInGroups(groups[..|groups| - 1]) + BadIn(groups[|groups| - 1].fields)
  }

  function BadInDocs(docs: seq<seq<GroupSnap>>): nat {
    if |docs| == 0 then 0 else BadInDocs(docs[..|docs| - 1]) + BadInGroups(docs[|docs| - 1])
  }

  function FieldsInDocs(docs: seq<seq<GroupSnap>>): nat {
    if |docs| == 0 then 0 else FieldsInDocs(docs[..|docs| - 1]) + FieldCount(docs[|docs| - 1])
  }

  /** The three loops that count bad verdicts over all documents. */
  method CountFailures(docs: seq<seq<GroupSnap>>) returns (fail: nat, total: nat)
    ensures fail == BadInDocs(docs) && total == FieldsInDocs(docs)
  {
    fail, total := 0, 0;
    for d := 0 to |docs|
      invariant fail == BadInDocs(docs[..d]) && total == FieldsInDocs(docs[..d])
    {
      TakeFront(docs, d);
      var bad, count := CountInGroups(docs[d]);
      fail, total := fail + bad, total + count;
    }
    TakeAll(docs);
  }

  method CountInGroups(groups: seq<GroupSnap>) returns (fail: nat, total: nat)
    ensures fail == BadInGroups(groups) && total == FieldCount(groups)
  {
    fail, total := 0, 0;
    for g := 0 to |groups|
      invariant fail == BadInGroups(groups[..g]) && total == FieldCount(groups[..g])
    {
      TakeFront(groups, g);
      var fields := groups[g].fields;
      ghost var failed, counted := fail, total;
      for k := 0 to |fields|
        invariant fail == failed + BadIn(fields[..k]) && total == counted + k
      {
        TakeFront(fields, k);
        total := total + 1;
        if JudgedBad(fields[k]) {
          fail := fail + 1;
        }
      }
      TakeAll(fields);
    }
    TakeAll(groups);
  }

  lemma {:induction false} BadInFalls(pass: RepairPass, name: string, fields: seq<Field>)
    requires WellFiled(pass)
    ensures BadIn(FieldsAfter(pass, name, fields)) <= BadIn(fields)
  {
    if |fields| > 0 {
      var front, last := fields[..|fields| - 1], fields[|fields| - 1];
      BadInFalls(pass, name, front);
      NameIsKept(pass, name, last);
      assert FieldsAfter(pass, name, fields)[..|fields| - 1] == FieldsAfter(pass, name, front);
    }
  }

  /** Repairing a document never raises its count of bad verdicts, nor changes its count of fields. */
  lemma {:induction false} RepairNeverRaisesCount(pass: RepairPass, groups: seq<GroupSnap>)
    requires WellFiled(pass)
    ensures BadInGroups(GroupsAfter(pass, groups)) <= BadInGroups(groups)
    ensures FieldCount(GroupsAfter(pass, groups)) == FieldCount(groups)
  {
    if |groups| > 0 {
      var front, last := groups[..|groups| - 1], groups[|groups| - 1];
      RepairNeverRaisesCount(pass, front);
      BadInFalls(pass, last.name, last.fields);
      assert GroupsAfter(pass, groups)[..|groups| - 1] == GroupsAfter(pass, front);
    }
  }

  /** So over all documents the rate that triggers escalation can only fall. */
  lemma {:induction false} EscalationCountNeverRises(passes: seq<RepairPass>, docs: seq<seq<GroupSnap>>,
                                                     after: seq<seq<GroupSnap>>)
    requires |passes| == |docs| == |after|
    requires forall d :: 0 <= d < |docs| ==>
               WellFiled(passes[d]) && (after[d] == docs[d] || after[d] == GroupsAfter(passes[d], docs[d]))
    ensures BadInDocs(after) <= BadInDocs(docs) && FieldsInDocs(after) == FieldsInDocs(docs)
  {
    if |docs| > 0 {
      var n := |docs| - 1;
      EscalationCountNeverRises(passes[..n], docs[..n], after[..n]);
      RepairNeverRaisesCount(passes[n], docs[n]);
    }
  }
}
