/** Which fields fail and what repair makes of each, told by the fields and the reply alone. */
module AcceptanceTheorems {
  import opened Collections
  import opened Wrappers
  import opened Fields
  import opened FieldRepair
  import opened RepairTheorems

  // ---- Fields by place -----------------------------------------------------

  /** Field `at` of group `group`. */
  datatype Spot = Spot(group: nat, at: nat)

  predicate IsSpot(groups: seq<GroupSnap>, s: Spot) { s.group < |groups| && s.at < |groups[s.group].fields| }

  function FieldAt(groups: seq<GroupSnap>, s: Spot): Field
    requires IsSpot(groups, s)
  {
    groups[s.group].fields[s.at]
  }

  function KeyAt(groups: seq<GroupSnap>, s: Spot): Key
    requires IsSpot(groups, s)
  {
    (groups[s.group].name, FieldAt(groups, s).name)
  }

  predicate Earlier(s: Spot, t: Spot) { s.group < t.group || (s.group == t.group && s.at < t.at) }

  /** The wanted fields before `end`, in order. */
  ghost predicate Chosen(groups: seq<GroupSnap>, spots: seq<Spot>, wanted: Spot -> bool, end: Spot) {
    && (forall m, n :: 0 <= m < n < |spots| ==> Earlier(spots[m], spots[n]))
    && (forall n :: 0 <= n < |spots| ==> Earlier(spots[n], end))
    && forall s :: s in spots <==> IsSpot(groups, s) && Earlier(s, end) && wanted(s)
  }

  lemma ChooseNext(groups: seq<GroupSnap>, spots: seq<Spot>, wanted: Spot -> bool, g: nat, k: nat)
    requires IsSpot(groups, Spot(g, k)) && Chosen(groups, spots, wanted, Spot(g, k))
    ensures wanted(Spot(g, k)) ==> Chosen(groups, spots + [Spot(g, k)], wanted, Spot(g, k + 1))
    ensures !wanted(Spot(g, k)) ==> Chosen(groups, spots, wanted, Spot(g, k + 1))
  {
    forall s ensures Earlier(s, Spot(g, k + 1)) <==> Earlier(s, Spot(g, k)) || s == Spot(g, k) {
    }
  }

  lemma ChooseGroup(groups: seq<GroupSnap>, spots: seq<Spot>, wanted: Spot -> bool, g: nat)
    requires g < |groups| && Chosen(groups, spots, wanted, Spot(g, |groups[g].fields|))
    ensures Chosen(groups, spots, wanted, Spot(g + 1, 0))
  {
  }

  // ---- What fails ----------------------------------------------------------

  /** The judge rejects the field, or flags it and flags count, or a validator does. */
  predicate Fails(f: Field, includeFlagged: bool) {
    (f.judge.flagged && includeFlagged) || f.judge.status == Fail || f.valid == false
  }

  ghost function FailsAt(groups: seq<GroupSnap>, includeFlagged: bool): Spot -> bool {
    (s: Spot) => IsSpot(groups, s) && Fails(FieldAt(groups, s), includeFlagged)
  }

  predicate ReportsFailure(groups: seq<GroupSnap>, failure: Failure, s: Spot) {
    IsSpot(groups, s) && failure == Failure(KeyAt(groups, s), PagesIn(FieldAt(groups, s)))
  }

  ghost predicate Reports(groups: seq<GroupSnap>, failures: seq<Failure>, spots: seq<Spot>) {
    |failures| == |spots| && forall n :: 0 <= n < |spots| ==> ReportsFailure(groups, failures[n], spots[n])
  }

  /** The failures are reported one per failing field, group by group and field by field. */
  lemma FailuresTold(groups: seq<GroupSnap>, includeFlagged: bool) returns (spots: seq<Spot>)
    ensures Chosen(groups, spots, FailsAt(groups, includeFlagged), Spot(|groups|, 0))
    ensures Reports(groups, Failures(groups, includeFlagged), spots)
  {
    var wanted := FailsAt(groups, includeFlagged);
    spots := [];
    for g := 0 to |groups|
      invariant Chosen(groups, spots, wanted, Spot(g, 0))
      invariant Reports(groups, Failures(groups[..g], includeFlagged), spots)
    {
      spots := FailuresInGroup(groups, includeFlagged, wanted, g, Failures(groups[..g], includeFlagged), spots);
      TakeFront(groups, g);
    }
    TakeAll(groups);
  }

  lemma FailuresInGroup(groups: seq<GroupSnap>, includeFlagged: bool, wanted: Spot -> bool, g: nat,
                        before: seq<Failure>, from: seq<Spot>)
    returns (spots: seq<Spot>)
    requires g < |groups| && wanted == FailsAt(groups, includeFlagged)
    requires Chosen(groups, from, wanted, Spot(g, 0)) && Reports(groups, before, from)
    ensures Chosen(groups, spots, wanted, Spot(g + 1, 0))
    ensures Reports(groups, before + FailuresIn(groups[g].name, groups[g].fields, includeFlagged), spots)
  {
    var name, fields := groups[g].name, groups[g].fields;
    spots := from;
    NothingAdded(before);
    for k := 0 to |fields|
      invariant Chosen(groups, spots, wanted, Spot(g, k))
      invariant Reports(groups, before + FailuresIn(name, fields[..k], includeFlagged), spots)
    {
      TakeFront(fields, k);
      ChooseNext(groups, spots, wanted, g, k);
      if wanted(Spot(g, k)) {
        var found := FailuresIn(name, fields[..k], includeFlagged);
        var next := Failure((name, fields[k].name), PagesIn(fields[k]));
        assert before + (found + [next]) == before + found + [next];
        spots := spots + [Spot(g, k)];
      }
    }
    TakeAll(fields);
    ChooseGroup(groups, spots, wanted, g);
  }

  /** A field is on a page if it says so, or one of its rows or their fields does. */
  lemma PagesTold(f: Field, p: int)
    ensures p in PagesIn(f) <==>
              p in f.pages || (f.value.Rows? && exists k :: 0 <= k < |f.value.subs| && p in PagesIn(f.value.subs[k]))
  {
    if f.value.Rows? {
      PagesInAllTold(f.value.subs, p);
    }
  }

  lemma {:induction false} PagesInAllTold(fs: seq<Field>, p: int)
    ensures p in PagesInAll(fs) <==> exists k :: 0 <= k < |fs| && p in PagesIn(fs[k])
  {
    if |fs| > 0 {
      PagesInAllTold(fs[1..], p);
      assert forall k :: 0 < k < |fs| ==> fs[k] == fs[1..][k - 1];
    }
  }

  // ---- What is accepted ----------------------------------------------------

  /** The candidate for a key: the last field of the reply with its names. */
  ghost predicate LastOf(reply: seq<GroupSnap>, key: Key, s: Spot) {
    && IsSpot(reply, s) && KeyAt(reply, s) == key
    && forall t :: IsSpot(reply, t) && KeyAt(reply, t) == key ==> t == s || Earlier(t, s)
  }

  /** It has a value, no validator rejects it, the judge does not flag it, and accepts it outright if it
      was asked, or at least does not reject it. */
  predicate Passes(f: Field, judged: bool) {
    && f.value != Null && f.valid && !f.judge.flagged
    && (f.judge.status == Pass || (f.judge.status == Uncertain && !judged))
  }

  /** Of the fields before `end`, `last` says which is the last with these names, if any. */
  ghost predicate LastBefore(reply: seq<GroupSnap>, key: Key, last: Option<Spot>, end: Spot) {
    match last
    case None => forall t :: IsSpot(reply, t) && Earlier(t, end) ==> KeyAt(reply, t) != key
    case Some(s) =>
      && IsSpot(reply, s) && Earlier(s, end) && KeyAt(reply, s) == key
      && forall t :: IsSpot(reply, t) && Earlier(t, end) && KeyAt(reply, t) == key ==> t == s || Earlier(t, s)
  }

  /** The candidate filed under the key is the last, if any. */
  ghost predicate Filed(reply: seq<GroupSnap>, known: map<Key, Field>, key: Key, last: Option<Spot>) {
    match last
    case None => key !in known
    case Some(s) => IsSpot(reply, s) && key in known && known[key] == FieldAt(reply, s)
  }

  lemma FileNext(reply: seq<GroupSnap>, known: map<Key, Field>, key: Key, last: Option<Spot>, g: nat, k: nat)
    returns (next: Option<Spot>)
    requires IsSpot(reply, Spot(g, k))
    requires LastBefore(reply, key, last, Spot(g, k)) && Filed(reply, known, key, last)
    ensures LastBefore(reply, key, next, Spot(g, k + 1))
    ensures Filed(reply, known[KeyAt(reply, Spot(g, k)) := FieldAt(reply, Spot(g, k))], key, next)
  {
    next := if KeyAt(reply, Spot(g, k)) == key then Some(Spot(g, k)) else last;
    forall t ensures Earlier(t, Spot(g, k + 1)) <==> Earlier(t, Spot(g, k)) || t == Spot(g, k) {
    }
  }

  /** The candidate for a key is the last field of the reply with those names. */
  lemma CandidateTold(reply: seq<GroupSnap>, key: Key) returns (last: Option<Spot>)
    ensures LastBefore(reply, key, last, Spot(|reply|, 0)) && Filed(reply, ByKey(reply), key, last)
  {
    last := None;
    for g := 0 to |reply|
      invariant LastBefore(reply, key, last, Spot(g, 0)) && Filed(reply, ByKey(reply[..g]), key, last)
    {
      var name, fields, known := reply[g].name, reply[g].fields, ByKey(reply[..g]);
      for k := 0 to |fields|
        invariant LastBefore(reply, key, last, Spot(g, k))
        invariant Filed(reply, ByKeyIn(name, fields[..k], known), key, last)
      {
        TakeFront(fields, k);
        last := FileNext(reply, ByKeyIn(name, fields[..k], known), key, last, g, k);
      }
      TakeAll(fields);
      TakeFront(reply, g);
      forall t | IsSpot(reply, t) ensures Earlier(t, Spot(g + 1, 0)) <==> Earlier(t, Spot(g, |fields|)) {
      }
    }
    TakeAll(reply);
  }

  /** Some field with these names fails. */
  ghost predicate KeyFails(groups: seq<GroupSnap>, includeFlagged: bool, key: Key) {
    exists s :: IsSpot(groups, s) && KeyAt(groups, s) == key && Fails(FieldAt(groups, s), includeFlagged)
  }

  lemma FailingKeysTold(groups: seq<GroupSnap>, includeFlagged: bool, key: Key)
    ensures key in FailingKeys(Failures(groups, includeFlagged)) <==> KeyFails(groups, includeFlagged, key)
  {
    FailuresAre(groups, includeFlagged, key);
    if f :| Holds(groups, key, f) && Failing(f, includeFlagged) {
      var g :| g in groups && g.name == key.0 && f in g.fields && f.name == key.1;
      var i :| 0 <= i < |groups| && groups[i] == g;
      var k :| 0 <= k < |g.fields| && g.fields[k] == f;
      assert IsSpot(groups, Spot(i, k)) && KeyAt(groups, Spot(i, k)) == key;
    }
    if s :| IsSpot(groups, s) && KeyAt(groups, s) == key && Fails(FieldAt(groups, s), includeFlagged) {
      HeldAt(groups, s.group, s.at, key);
    }
  }

  /** The key is repaired: some field with its names fails, and the last field of the reply with them passes. */
  ghost predicate Repairs(groups: seq<GroupSnap>, includeFlagged: bool, reply: seq<GroupSnap>, judged: bool, key: Key,
                          last: Option<Spot>) {
    && KeyFails(groups, includeFlagged, key) && last.Some? && IsSpot(reply, last.value)
    && Passes(FieldAt(reply, last.value), judged)
  }

  /** A repaired field is replaced by the candidate, its pages counted from the segment's first; any
      other field stays as it is. */
  lemma RepairTold(groups: seq<GroupSnap>, includeFlagged: bool, reply: seq<GroupSnap>, judged: bool, offset: int,
                   s: Spot)
    returns (last: Option<Spot>)
    requires IsSpot(groups, s)
    ensures LastBefore(reply, KeyAt(groups, s), last, Spot(|reply|, 0))
    ensures var after := GroupsAfter(PassOf(groups, includeFlagged, reply, judged, offset), groups);
      && IsSpot(after, s) && after[s.group].name == groups[s.group].name
      && (if Repairs(groups, includeFlagged, reply, judged, KeyAt(groups, s), last)
          then FieldAt(after, s) == Shift(FieldAt(reply, last.value), offset)
          else FieldAt(after, s) == FieldAt(groups, s))
  {
    var key := KeyAt(groups, s);
    last := CandidateTold(reply, key);
    FailingKeysTold(groups, includeFlagged, key);
    if offset == 0 && last.Some? {
      NoShift(FieldAt(reply, last.value));
    }
  }

  /** Moving by nothing changes nothing. */
  lemma {:induction false} NoShift(f: Field)
    ensures Shift(f, 0) == f
    decreases f, 1
  {
    assert ShiftPages(f.pages, 0) == f.pages;
    if f.value.Rows? {
      NoShiftAll(f.value.subs);
    }
  }

  lemma {:induction false} NoShiftAll(fs: seq<Field>)
    ensures ShiftAll(fs, 0) == fs
    decreases fs, 0
  {
    if |fs| > 0 {
      NoShift(fs[0]);
      NoShiftAll(fs[1..]);
      assert fs == [fs[0]] + fs[1..];
    }
  }

  /** A moved field is the field with each of its pages moved, and each of its rows. */
  lemma ShiftTold(f: Field, offset: int)
    ensures var g := Shift(f, offset);
      && |g.pages| == |f.pages| && (forall k :: 0 <= k < |f.pages| ==> g.pages[k] == f.pages[k] + offset)
      && (!f.value.Rows? ==> g == f.(pages := g.pages))
      && (f.value.Rows? ==>
            && g.value.Rows? && g == f.(pages := g.pages, value := g.value) && |g.value.subs| == |f.value.subs|
            && forall k :: 0 <= k < |f.value.subs| ==> g.value.subs[k] == Shift(f.value.subs[k], offset))
  {
    if f.value.Rows? {
      ShiftAllTold(f.value.subs, offset);
    }
  }

  lemma {:induction false} ShiftAllTold(fs: seq<Field>, offset: int)
    ensures forall k :: 0 <= k < |fs| ==> ShiftAll(fs, offset)[k] == Shift(fs[k], offset)
  {
    if |fs| > 0 {
      ShiftAllTold(fs[1..], offset);
      assert forall k :: 0 < k < |fs| ==> fs[k] == fs[1..][k - 1];
    }
  }

  ghost predicate Names(groups: seq<GroupSnap>, keys: seq<Key>, spots: seq<Spot>) {
    |keys| == |spots| && forall n :: 0 <= n < |spots| ==> IsSpot(groups, spots[n]) && keys[n] == KeyAt(groups, spots[n])
  }

  /** The accepted fields are those repaired, each told by its group's name and its own, in order. */
  lemma AcceptedTold(groups: seq<GroupSnap>, pass: RepairPass) returns (spots: seq<Spot>)
    ensures Chosen(groups, spots, (s: Spot) => IsSpot(groups, s) && Accepts(pass, KeyAt(groups, s)), Spot(|groups|, 0))
    ensures Names(groups, AcceptedKeys(pass, groups), spots)
  {
    var wanted := (s: Spot) => IsSpot(groups, s) && Accepts(pass, KeyAt(groups, s));
    spots := [];
    for g := 0 to |groups|
      invariant Chosen(groups, spots, wanted, Spot(g, 0))
      invariant Names(groups, AcceptedKeys(pass, groups[..g]), spots)
    {
      spots := AcceptedInGroup(groups, pass, wanted, g, AcceptedKeys(pass, groups[..g]), spots);
      TakeFront(groups, g);
    }
    TakeAll(groups);
  }

  lemma AcceptedInGroup(groups: seq<GroupSnap>, pass: RepairPass, wanted: Spot -> bool, g: nat, before: seq<Key>,
                        from: seq<Spot>)
    returns (spots: seq<Spot>)
    requires g < |groups| && forall s :: wanted(s) <==> IsSpot(groups, s) && Accepts(pass, KeyAt(groups, s))
    requires Chosen(groups, from, wanted, Spot(g, 0)) && Names(groups, before, from)
    ensures Chosen(groups, spots, wanted, Spot(g + 1, 0))
    ensures Names(groups, before + AcceptedIn(pass, groups[g].name, groups[g].fields), spots)
  {
    var name, fields := groups[g].name, groups[g].fields;
    spots := from;
    NothingAdded(before);
    for k := 0 to |fields|
      invariant Chosen(groups, spots, wanted, Spot(g, k))
      invariant Names(groups, before + AcceptedIn(pass, name, fields[..k]), spots)
    {
      TakeFront(fields, k);
      ChooseNext(groups, spots, wanted, g, k);
      if wanted(Spot(g, k)) {
        var found := AcceptedIn(pass, name, fields[..k]);
        assert before + (found + [(name, fields[k].name)]) == before + found + [(name, fields[k].name)];
        spots := spots + [Spot(g, k)];
      }
    }
    TakeAll(fields);
    ChooseGroup(groups, spots, wanted, g);
  }

  // ---- The count that triggers escalation ----------------------------------

  /** The judge rejects or flags the field. */
  predicate BadAt(groups: seq<GroupSnap>, s: Spot) {
    IsSpot(groups, s) && (FieldAt(groups, s).judge.flagged || FieldAt(groups, s).judge.status == Fail)
  }

  /** One document counts the fields the judge rejects or flags, and all its fields. */
  lemma CountsTold(groups: seq<GroupSnap>) returns (bad: seq<Spot>, all: seq<Spot>)
    ensures Chosen(groups, bad, s => BadAt(groups, s), Spot(|groups|, 0)) && BadInGroups(groups) == |bad|
    ensures Chosen(groups, all, s => IsSpot(groups, s), Spot(|groups|, 0)) && FieldCount(groups) == |all|
  {
    bad, all := [], [];
    for g := 0 to |groups|
      invariant Chosen(groups, bad, s => BadAt(groups, s), Spot(g, 0)) && BadInGroups(groups[..g]) == |bad|
      invariant Chosen(groups, all, s => IsSpot(groups, s), Spot(g, 0)) && FieldCount(groups[..g]) == |all|
    {
      bad := CountGroup(groups, g, s => BadAt(groups, s), bad);
      all := ListGroup(groups, g, s => IsSpot(groups, s), all);
      TakeFront(groups, g);
    }
    TakeAll(groups);
  }

  lemma CountGroup(groups: seq<GroupSnap>, g: nat, wanted: Spot -> bool, before: seq<Spot>) returns (bad: seq<Spot>)
    requires g < |groups| && (forall s :: wanted(s) <==> BadAt(groups, s))
    requires Chosen(groups, before, wanted, Spot(g, 0))
    ensures Chosen(groups, bad, wanted, Spot(g + 1, 0)) && |bad| == |before| + BadIn(groups[g].fields)
  {
    var fields := groups[g].fields;
    bad := before;
    for k := 0 to |fields|
      invariant Chosen(groups, bad, wanted, Spot(g, k)) && |bad| == |before| + BadIn(fields[..k])
    {
      TakeFront(fields, k);
      ChooseNext(groups, bad, wanted, g, k);
      if wanted(Spot(g, k)) {
        bad := bad + [Spot(g, k)];
      }
    }
    TakeAll(fields);
    ChooseGroup(groups, bad, wanted, g);
  }

  lemma ListGroup(groups: seq<GroupSnap>, g: nat, wanted: Spot -> bool, before: seq<Spot>) returns (all: seq<Spot>)
    requires g < |groups| && (forall s :: wanted(s) <==> IsSpot(groups, s))
    requires Chosen(groups, before, wanted, Spot(g, 0))
    ensures Chosen(groups, all, wanted, Spot(g + 1, 0)) && |all| == |before| + |groups[g].fields|
  {
    all := before;
    for k := 0 to |groups[g].fields|
      invariant Chosen(groups, all, wanted, Spot(g, k)) && |all| == |before| + k
    {
      ChooseNext(groups, all, wanted, g, k);
      all := all + [Spot(g, k)];
    }
    ChooseGroup(groups, all, wanted, g);
  }

  /** Over all documents the two counts are added up. */
  lemma DocsTold(docs: seq<seq<GroupSnap>>, bad: seq<nat>, all: seq<nat>)
    requires |bad| == |all| == |docs| + 1 && bad[0] == all[0] == 0
    requires forall d :: 0 <= d < |docs| ==>
               bad[d + 1] == bad[d] + BadInGroups(docs[d]) && all[d + 1] == all[d] + FieldCount(docs[d])
    ensures BadInDocs(docs) == bad[|docs|] && FieldsInDocs(docs) == all[|docs|]
  {
    for d := 0 to |docs|
      invariant BadInDocs(docs[..d]) == bad[d] && FieldsInDocs(docs[..d]) == all[d]
    {
      TakeFront(docs, d);
    }
    TakeAll(docs);
  }
}
