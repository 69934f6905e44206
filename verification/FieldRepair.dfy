/** Closed-loop repair: failing fields are asked for again, and replaced only by what passes. */
module FieldRepair {
  import opened Collections
  import opened Wrappers
  import opened Fields

  /** A group of extracted fields; repair overwrites entries of its list. */
  class Group {
    const name: string
    var fields: seq<Field>

    constructor (name: string, fields: seq<Field>)
      ensures this.name == name && this.fields == fields
    {
      this.name, this.fields := name, fields;
    }

    function Now(): GroupSnap
      reads this
    {
      GroupSnap(name, fields)
    }
  }

  /** The state of a group. */
  datatype GroupSnap = GroupSnap(name: string, fields: seq<Field>)

  type Key = (string, string)

  // ---- What fails ----------------------------------------------------------

  predicate Failing(f: Field, includeFlagged: bool) {
    f.judge.status == Fail || (includeFlagged && f.judge.flagged) || !f.valid
  }

  predicate IsClean(f: Field, requireJudgePass: bool) {
    && f.value != Null
    && f.valid
    && !f.judge.flagged
    && (if requireJudgePass then f.judge.status == Pass else f.judge.status != Fail)
  }

  /** Every page a field, or a row of it, was reported on. */
  function PagesIn(f: Field): set<int> {
    (set p | p in f.pages) + (if f.value.Rows? then PagesInAll(f.value.subs) else {})
  }

  function PagesInAll(fs: seq<Field>): set<int> {
    if |fs| == 0 then {} else PagesIn(fs[0]) + PagesInAll(fs[1..])
  }

  datatype Failure = Failure(key: Key, pages: set<int>)

  function FailuresIn(name: string, fields: seq<Field>, includeFlagged: bool): seq<Failure> {
    if |fields| == 0 then []
    else
      var front, last := FailuresIn(name, fields[..|fields| - 1], includeFlagged), fields[|fields| - 1];
      if Failing(last, includeFlagged) then front + [Failure((name, last.name), PagesIn(last))] else front
  }

  function Failures(groups: seq<GroupSnap>, includeFlagged: bool): seq<Failure> {
    if |groups| == 0 then []
    else
      var last := groups[|groups| - 1];
      Failures(groups[..|groups| - 1], includeFlagged) + FailuresIn(last.name, last.fields, includeFlagged)
  }

  function FailingKeys(failures: seq<Failure>): set<Key> { set f | f in failures :: f.key }

  function Snaps(groups: seq<Group>): (snaps: seq<GroupSnap>)
    reads groups
    ensures |snaps| == |groups| && forall i :: 0 <= i < |groups| ==> snaps[i] == groups[i].Now()
  {
    seq(|groups|, i requires 0 <= i < |groups| reads groups => groups[i].Now())
  }

  method CollectFailingFields(groups: seq<Group>, includeFlagged: bool) returns (failures: seq<Failure>)
    ensures failures == Failures(Snaps(groups), includeFlagged)
  {
    failures := [];
    ghost var snaps := Snaps(groups);
    for i := 0 to |groups|
      invariant failures == Failures(snaps[..i], includeFlagged)
    {
      assert snaps[..i + 1][..i] == snaps[..i];
      var found := CollectInGroup(groups[i], includeFlagged);
      failures := failures + found;
    }
    assert snaps[..|groups|] == snaps;
  }

  method CollectInGroup(group: Group, includeFlagged: bool) returns (failures: seq<Failure>)
    ensures failures == FailuresIn(group.name, group.fields, includeFlagged)
  {
    failures := [];
    var fields := group.fields;
    for k := 0 to |fields|
      invariant failures == FailuresIn(group.name, fields[..k], includeFlagged)
    {
      TakeFront(fields, k);
      if Failing(fields[k], includeFlagged) {
        failures := failures + [Failure((group.name, fields[k].name), PagesIn(fields[k]))];
      }
    }
    TakeAll(fields);
  }

  // ---- Pages of the focused pass -------------------------------------------

  /** How many pages are sent, and how far the first is from the start of the segment. */
  datatype Slice = Slice(count: int, offset: int)

  function FailingPages(failures: seq<Failure>): set<int> { set f, p | f in failures && p in f.pages :: p }

  /** `slices` says whether cutting the document succeeds; an empty range never does. */
  method RepairSlice(pdf: bool, slicePages: int, failures: seq<Failure>, slices: bool) returns (s: Slice)
    ensures s == Slice(slicePages, 0) || SpansFailures(s, slicePages, failures)
    ensures pdf && slices && Cuttable(slicePages, failures) ==> s != Slice(slicePages, 0)
    ensures |failures| == 0 || (exists f :: f in failures && f.pages == {}) ==> s == Slice(slicePages, 0)
    ensures forall first, last :: (forall f :: f in failures ==> f.pages != {}) && Bounds(failures, first, last) ==>
              s == ExactSlice(pdf && slices, slicePages, if first > 2 then first - 1 else 1,
                     if last < slicePages then last + 1 else slicePages)
  {
    s := Slice(slicePages, 0);
    if !pdf {
      return;
    }
    if |failures| == 0 || exists f :: f in failures && |f.pages| == 0 {
      return;
    }
    var pages := Sorted(FailingPages(failures));
    SomeFailingPage(failures);
    var start := if pages[0] - 1 > 1 then pages[0] - 1 else 1;
    var end := if slicePages < pages[|pages| - 1] + 1 then slicePages else pages[|pages| - 1] + 1;
    EndsOf(failures, pages);
    if end - start + 1 >= slicePages {
      return;
    }
    if !slices || start > end {
      return;
    }
    s := Slice(end - start + 1, start - 1);
  }

  /** The least and the greatest failing page. */
  ghost predicate Bounds(failures: seq<Failure>, first: int, last: int) {
    && first in FailingPages(failures) && last in FailingPages(failures)
    && forall p :: p in FailingPages(failures) ==> first <= p <= last
  }

  /** Pages `start` to `end` when they can be cut out, are any and are not all; else the whole segment. */
  function ExactSlice(cuts: bool, slicePages: int, start: int, end: int): Slice {
    if cuts && start <= end && end - start + 1 < slicePages then Slice(end - start + 1, start - 1)
    else Slice(slicePages, 0)
  }

  lemma SomeFailingPage(failures: seq<Failure>)
    requires |failures| > 0 && forall f :: f in failures ==> |f.pages| > 0
    ensures |Sorted(FailingPages(failures))| > 0
  {
    var f := failures[0];
    EmptyOrInhabited(f.pages);
    var p :| p in f.pages;
    assert p in FailingPages(failures);
    SortedIs(FailingPages(failures));
  }

  lemma EndsOf(failures: seq<Failure>, pages: seq<int>)
    requires pages == Sorted(FailingPages(failures)) && |pages| > 0
    ensures pages[0] in FailingPages(failures) && pages[|pages| - 1] in FailingPages(failures)
    ensures forall p :: p in FailingPages(failures) ==> pages[0] <= p <= pages[|pages| - 1]
  {
    SortedIs(FailingPages(failures));
    assert pages[0] in pages && pages[|pages| - 1] in pages;
    forall p | p in FailingPages(failures) ensures pages[0] <= p <= pages[|pages| - 1] {
      assert p in pages;
      var k :| 0 <= k < |pages| && pages[k] == p;
    }
  }

  /** A proper slice: inside the segment, and around every failing page the segment has, with a page
      of margin where there is one. */
  ghost predicate SpansFailures(s: Slice, slicePages: int, failures: seq<Failure>) {
    && 1 <= s.count < slicePages && 0 <= s.offset && s.offset + s.count <= slicePages
    && forall p :: p in FailingPages(failures) && 1 <= p <= slicePages ==>
         s.offset < p <= s.offset + s.count &&
         (p > 1 ==> s.offset < p - 1) && (p < slicePages ==> p + 1 <= s.offset + s.count)
  }

  /** Some page of the segment is far from every failing one, and all of those are known and inside. */
  ghost predicate Cuttable(slicePages: int, failures: seq<Failure>) {
    && |failures| > 0 && (forall f :: f in failures ==> |f.pages| > 0)
    && (forall p :: p in FailingPages(failures) ==> 1 <= p <= slicePages)
    && ((forall p :: p in FailingPages(failures) ==> p > 2) ||
        (forall p :: p in FailingPages(failures) ==> p < slicePages - 1))
  }

  // ---- Shifting pages back -------------------------------------------------

  function ShiftPages(pages: seq<int>, offset: int): seq<int> {
    seq(|pages|, i requires 0 <= i < |pages| => pages[i] + offset)
  }

  function Shift(f: Field, offset: int): Field {
    f.(pages := ShiftPages(f.pages, offset),
        value := if f.value.Rows? then Rows(ShiftAll(f.value.subs, offset)) else f.value)
  }

  function ShiftAll(fs: seq<Field>, offset: int): (r: seq<Field>)
    ensures |r| == |fs|
  {
    if |fs| == 0 then [] else [Shift(fs[0], offset)] + ShiftAll(fs[1..], offset)
  }

  lemma {:induction false} ShiftMovesPages(f: Field, offset: int, p: int)
    ensures p in PagesIn(f) <==> p + offset in PagesIn(Shift(f, offset))
    decreases f, 1
  {
    var pages := ShiftPages(f.pages, offset);
    assert p in f.pages ==> p + offset in pages by {
      if p in f.pages {
        var i :| 0 <= i < |f.pages| && f.pages[i] == p;
        assert pages[i] == p + offset;
      }
    }
    if f.value.Rows? {
      ShiftMovesAll(f.value.subs, offset, p);
    }
  }

  lemma {:induction false} ShiftMovesAll(fs: seq<Field>, offset: int, p: int)
    ensures p in PagesInAll(fs) <==> p + offset in PagesInAll(ShiftAll(fs, offset))
    decreases fs, 0
  {
    if |fs| > 0 {
      ShiftMovesPages(fs[0], offset, p);
      ShiftMovesAll(fs[1..], offset, p);
    }
  }

  /** Pages a repaired field reports within its slice land, once accepted, inside the segment. */
  lemma ShiftedInsideSegment(f: Field, s: Slice, slicePages: int, failures: seq<Failure>)
    requires s == Slice(slicePages, 0) || SpansFailures(s, slicePages, failures)
    requires forall p :: p in PagesIn(f) ==> 1 <= p <= s.count
    ensures forall q :: q in PagesIn(Shift(f, s.offset)) ==> 1 <= q <= slicePages && q - s.offset in PagesIn(f)
  {
    forall q | q in PagesIn(Shift(f, s.offset)) ensures 1 <= q <= slicePages && q - s.offset in PagesIn(f) {
      ShiftMovesPages(f, s.offset, q - s.offset);
    }
  }

  // ---- Merging what passes -------------------------------------------------

  /** The candidates by key; a later one of the same key wins. */
  function ByKeyIn(name: string, fields: seq<Field>, known: map<Key, Field>): map<Key, Field> {
    if |fields| == 0 then known
    else
      var last := fields[|fields| - 1];
      ByKeyIn(name, fields[..|fields| - 1], known)[(name, last.name) := last]
  }

  function ByKey(repaired: seq<GroupSnap>): map<Key, Field> {
    if |repaired| == 0 then map[]
    else
      var last := repaired[|repaired| - 1];
      ByKeyIn(last.name, last.fields, ByKey(repaired[..|repaired| - 1]))
  }

  method GatherCandidates(repaired: seq<GroupSnap>) returns (byKey: map<Key, Field>)
    ensures byKey == ByKey(repaired)
  {
    byKey := map[];
    for i := 0 to |repaired|
      invariant byKey == ByKey(repaired[..i])
    {
      TakeFront(repaired, i);
      var name, fields := repaired[i].name, repaired[i].fields;
      ghost var known := byKey;
      for k := 0 to |fields|
        invariant byKey == ByKeyIn(name, fields[..k], known)
      {
        TakeFront(fields, k);
        byKey := byKey[(name, fields[k].name) := fields[k]];
      }
      TakeAll(fields);
    }
    TakeAll(repaired);
  }

  /** What a repair pass works with: the failing keys, the re-verified candidates, whether the judge
      looked at them, and the page offset of the slice they were read from. */
  datatype RepairPass = RepairPass(failing: set<Key>, candidates: map<Key, Field>, judged: bool, offset: int)

  predicate Accepts(pass: RepairPass, key: Key) {
    key in pass.failing && key in pass.candidates && IsClean(pass.candidates[key], pass.judged)
  }

  function AcceptedField(pass: RepairPass, key: Key): Field
    requires Accepts(pass, key)
  {
    if pass.offset != 0 then Shift(pass.candidates[key], pass.offset) else pass.candidates[key]
  }

  function FieldAfter(pass: RepairPass, name: string, f: Field): Field {
    if Accepts(pass, (name, f.name)) then AcceptedField(pass, (name, f.name)) else f
  }

  function FieldsAfter(pass: RepairPass, name: string, fields: seq<Field>): (after: seq<Field>)
    ensures |after| == |fields| && forall k :: 0 <= k < |fields| ==> after[k] == FieldAfter(pass, name, fields[k])
  {
    seq(|fields|, k requires 0 <= k < |fields| => FieldAfter(pass, name, fields[k]))
  }

  function GroupsAfter(pass: RepairPass, groups: seq<GroupSnap>): (after: seq<GroupSnap>)
    ensures |after| == |groups|
    ensures forall i :: 0 <= i < |groups| ==>
              after[i] == GroupSnap(groups[i].name, FieldsAfter(pass, groups[i].name, groups[i].fields))
  {
    seq(|groups|, i requires 0 <= i < |groups| =>
      GroupSnap(groups[i].name, FieldsAfter(pass, groups[i].name, groups[i].fields)))
  }

  function AcceptedIn(pass: RepairPass, name: string, fields: seq<Field>): seq<Key> {
    if |fields| == 0 then []
    else
      var front, key := AcceptedIn(pass, name, fields[..|fields| - 1]), (name, fields[|fields| - 1].name);
      if Accepts(pass, key) then front + [key] else front
  }

  function AcceptedKeys(pass: RepairPass, groups: seq<GroupSnap>): seq<Key> {
    if |groups| == 0 then []
    else
      var front, last := groups[..|groups| - 1], groups[|groups| - 1];
      AcceptedKeys(pass, front) + AcceptedIn(pass, last.name, last.fields)
  }

  /** Replaces the accepted fields of one group, in place. */
  method RepairGroup(group: Group, pass: RepairPass) returns (accepted: seq<Key>)
    modifies group
    ensures group.fields == FieldsAfter(pass, group.name, old(group.fields))
    ensures accepted == AcceptedIn(pass, group.name, old(group.fields))
  {
    ghost var was := group.fields;
    accepted := [];
    var index := 0;
    while index < |group.fields|
      invariant index <= |group.fields| == |was|
      invariant forall k :: 0 <= k < index ==> group.fields[k] == FieldAfter(pass, group.name, was[k])
      invariant forall k :: index <= k < |was| ==> group.fields[k] == was[k]
      invariant accepted == AcceptedIn(pass, group.name, was[..index])
    {
      TakeFront(was, index);
      var key := (group.name, group.fields[index].name);
      if key in pass.failing {
        if key in pass.candidates && IsClean(pass.candidates[key], pass.judged) {
          var candidate := pass.candidates[key];
          if pass.offset != 0 {
            candidate := Shift(candidate, pass.offset);
          }
          group.fields := group.fields[index := candidate];
          accepted := accepted + [key];
        }
      }
      index := index + 1;
    }
    TakeAll(was);
  }

  /** The first `n` groups are repaired, the others as they were, and these fields were accepted. */
  ghost predicate MergedTo(pass: RepairPass, was: seq<GroupSnap>, now: seq<GroupSnap>, n: nat, accepted: seq<Key>) {
    && |now| == |was| && n <= |was| && accepted == AcceptedKeys(pass, was[..n])
    && forall j :: 0 <= j < |was| ==> now[j] == if j < n then GroupsAfter(pass, was)[j] else was[j]
  }

  lemma MergedNext(pass: RepairPass, was: seq<GroupSnap>, now: seq<GroupSnap>, next: seq<GroupSnap>, n: nat,
                   accepted: seq<Key>, more: seq<Key>)
    requires n < |was| && MergedTo(pass, was, now, n, accepted) && |next| == |was|
    requires forall j :: 0 <= j < |was| && j != n ==> next[j] == now[j]
    requires next[n] == GroupSnap(now[n].name, FieldsAfter(pass, now[n].name, now[n].fields))
    requires more == AcceptedIn(pass, now[n].name, now[n].fields)
    ensures MergedTo(pass, was, next, n + 1, accepted + more)
  {
    TakeFront(was, n);
  }

  lemma MergedEnds(pass: RepairPass, was: seq<GroupSnap>)
    ensures MergedTo(pass, was, was, 0, [])
    ensures forall now, accepted :: MergedTo(pass, was, now, |was|, accepted) ==>
              now == GroupsAfter(pass, was) && accepted == AcceptedKeys(pass, was)
  {
    TakeAll(was);
  }

  method MergeAll(groups: seq<Group>, pass: RepairPass) returns (accepted: seq<Key>)
    requires Distinct(groups)
    modifies groups
    ensures Snaps(groups) == GroupsAfter(pass, old(Snaps(groups)))
    ensures accepted == AcceptedKeys(pass, old(Snaps(groups)))
  {
    ghost var was := Snaps(groups);
    accepted := [];
    MergedEnds(pass, was);
    for i := 0 to |groups|
      invariant MergedTo(pass, was, Snaps(groups), i, accepted)
    {
      ghost var now := Snaps(groups);
      var more := RepairGroup(groups[i], pass);
      MergedNext(pass, was, now, Snaps(groups), i, accepted, more);
      accepted := accepted + more;
    }
  }

  /** What a re-extraction, validated and perhaps judged, comes to; none when it fails. */
  datatype Reply = Reply(groups: Option<seq<GroupSnap>>)

  predicate TooMany(failing: nat, total: nat, maxFraction: real) {
    total > 0 && failing as real / total as real > maxFraction
  }

  function FieldCount(groups: seq<GroupSnap>): nat {
    if |groups| == 0 then 0 else FieldCount(groups[..|groups| - 1]) + |groups[|groups| - 1].fields|
  }

  /** The pass that a task's own failures and a reply amount to. */
  function PassOf(groups: seq<GroupSnap>, includeFlagged: bool, candidates: seq<GroupSnap>, judged: bool,
                  offset: int): RepairPass {
    RepairPass(FailingKeys(Failures(groups, includeFlagged)), ByKey(candidates), judged, offset)
  }

  /** One task: skipped when nothing, or too much, fails; unchanged when the re-extraction raises. */
  method RepairTask(groups: seq<Group>, includeFlagged: bool, maxFraction: real, judged: bool, offset: int,
                    reply: Reply)
    returns (accepted: seq<Key>, flagged: nat, skipped: bool)
    requires Distinct(groups)
    modifies groups
    ensures flagged == |Failures(old(Snaps(groups)), includeFlagged)|
    ensures skipped <==> flagged > 0 && TooMany(flagged, FieldCount(old(Snaps(groups))), maxFraction)
    ensures FieldCount(old(Snaps(groups))) > 0 ==>
              (skipped <==> flagged > 0 && flagged as real / FieldCount(old(Snaps(groups))) as real > maxFraction)
    ensures FieldCount(old(Snaps(groups))) == 0 ==> !skipped
    ensures flagged == 0 || skipped || reply.groups.None? ==> Snaps(groups) == old(Snaps(groups)) && accepted == []
    ensures flagged > 0 && !skipped && reply.groups.Some? ==>
              var pass := PassOf(old(Snaps(groups)), includeFlagged, reply.groups.value, judged, offset);
              Snaps(groups) == GroupsAfter(pass, old(Snaps(groups))) &&
                  accepted == AcceptedKeys(pass, old(Snaps(groups)))
  {
    accepted, skipped := [], false;
    var failures := CollectFailingFields(groups, includeFlagged);
    flagged := |failures|;
    if flagged == 0 {
      return;
    }
    var total := CountFields(groups);
    if TooMany(flagged, total, maxFraction) {
      skipped := true;
      return;
    }
    if reply.groups.None? {
      return;
    }
    var candidates := GatherCandidates(reply.groups.value);
    accepted := MergeAll(groups, RepairPass(FailingKeys(failures), candidates, judged, offset));
  }

  method CountFields(groups: seq<Group>) returns (total: nat)
    ensures total == FieldCount(Snaps(groups))
  {
    total := 0;
    ghost var snaps := Snaps(groups);
    for i := 0 to |groups|
      invariant total == FieldCount(snaps[..i])
    {
      TakeFront(snaps, i);
      total := total + |groups[i].fields|;
    }
    TakeAll(snaps);
  }
}
