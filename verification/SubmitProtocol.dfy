/** Concurrent submits: select by key, insert under the partial unique index, re-select on a
    conflict, publish. Any number of callers, any keys, any interleaving, crashes anywhere. */
module SubmitProtocol {
  import opened Collections
  import opened Wrappers

  /** A caller's key. `Some("")` is a key for the index but not for the handler's truth tests. */
  type Key = Option<string>

  predicate Truthy(key: Key) { key.Some? && key.value != "" }

  datatype Phase =
    | Started
    | Missed                 // past the first select, or never made it
    | Inserted(id: nat)      // row committed, event not yet published
    | Conflicted             // the insert hit the unique index
    | Returned(id: nat)
    | Raised

  datatype Caller = Caller(key: Key, phase: Phase)

  /** `table` maps row ids to keys; `published` lists the ids in submitted-event order. */
  datatype State = State(table: map<nat, Key>, callers: map<nat, Caller>, published: seq<nat>)

  datatype Label =
    | Arrive(c: nat, key: Key)
    | Select(c: nat)
    | RejectInvalid(c: nat)        // the request validator found errors
    | Insert(c: nat, id: nat)      // `id` is the fresh id generated for the row
    | Reselect(c: nat)
    | Publish(c: nat)
    | PublishRaises(c: nat)
    | Crash(c: nat)

  /** The first row with this key, if any. */
  ghost predicate HasKey(s: State, key: Key, id: nat) {
    key.Some? && id in s.table && s.table[id] == key
  }

  predicate At(s: State, c: nat, phase: Phase -> bool) {
    c in s.callers && phase(s.callers[c].phase)
  }

  ghost predicate Enabled(s: State, l: Label) {
    match l
    case Arrive(c, _) => c !in s.callers
    case Select(c) => At(s, c, (p: Phase) => p.Started?)
    case RejectInvalid(c) => At(s, c, (p: Phase) => p.Missed?)
    case Insert(c, id) => At(s, c, (p: Phase) => p.Missed?) && id !in s.table
    case Reselect(c) => At(s, c, (p: Phase) => p.Conflicted?)
    case Publish(c) => At(s, c, (p: Phase) => p.Inserted?)
    case PublishRaises(c) => At(s, c, (p: Phase) => p.Inserted?)
    case Crash(c) => c in s.callers
  }

  function Moved(s: State, c: nat, phase: Phase): State
    requires c in s.callers
  {
    s.(callers := s.callers[c := s.callers[c].(phase := phase)])
  }

  ghost predicate Step(s: State, l: Label, t: State) {
    Enabled(s, l) &&
    match l
    case Arrive(c, key) => t == s.(callers := s.callers[c := Caller(key, Started)])
    case Select(c) =>
      var key := s.callers[c].key;
      if !Truthy(key) then t == Moved(s, c, Missed)
      else if exists id :: HasKey(s, key, id) then exists id :: HasKey(s, key, id) && t == Moved(s, c, Returned(id))
      else t == Moved(s, c, Missed)
    case RejectInvalid(c) => t == Moved(s, c, Raised)
    case Insert(c, id) =>
      var key := s.callers[c].key;
      if exists other :: HasKey(s, key, other) then t == Moved(s, c, Conflicted)
      else t == Moved(s, c, Inserted(id)).(table := s.table[id := key])
    case Reselect(c) =>
      var key := s.callers[c].key;
      if !Truthy(key) then t == Moved(s, c, Raised)
      else if exists id :: HasKey(s, key, id) then exists id :: HasKey(s, key, id) && t == Moved(s, c, Returned(id))
      else t == Moved(s, c, Raised)
    case Publish(c) =>
      t == Moved(s, c, Returned(s.callers[c].phase.id)).(published := s.published + [s.callers[c].phase.id])
    case PublishRaises(c) => t == Moved(s, c, Raised)
    case Crash(c) => t == Moved(s, c, Raised)
  }

  ghost predicate Behaviour(ss: seq<State>, ls: seq<Label>) {
    && |ss| == |ls| + 1
    && ss[0] == State(map[], map[], [])
    && forall i :: 0 <= i < |ls| ==> Step(ss[i], ls[i], ss[i + 1])
  }

  // ---- The invariant -----------------------------------------------------

  ghost predicate UniqueKeys(s: State) {
    forall i, j :: (i in s.table && j in s.table && s.table[i].Some? && s.table[i] == s.table[j]) ==> i == j
  }

  /** Each event is for a row, at most one per row, and never for one whose inserter has yet to publish. */
  ghost predicate Events(s: State) {
    && (forall k :: 0 <= k < |s.published| ==> s.published[k] in s.table)
    && (forall j, k :: 0 <= j < k < |s.published| ==> s.published[j] != s.published[k])
    && (forall c :: c in s.callers && s.callers[c].phase.Inserted? ==> s.callers[c].phase.id !in s.published)
  }

  ghost predicate Callers(s: State) {
    && (forall c :: c in s.callers ==>
          match s.callers[c].phase
          case Inserted(id) => id in s.table && s.table[id] == s.callers[c].key
          case Returned(id) => id in s.table && s.table[id] == s.callers[c].key
          case Conflicted => s.callers[c].key.Some? && exists id :: HasKey(s, s.callers[c].key, id)
          case _ => true)
    && (forall b, c :: (b in s.callers && c in s.callers && s.callers[b].phase.Inserted? &&
        s.callers[c].phase.Inserted? &&
                        s.callers[b].phase.id == s.callers[c].phase.id) ==> b == c)
  }

  ghost predicate Inv(s: State) {
    UniqueKeys(s) && Events(s) && Callers(s)
  }

  lemma InsertKeepsInv(s: State, c: nat, id: nat, t: State)
    requires Inv(s) && Step(s, Insert(c, id), t)
    ensures Inv(t)
  {
    var key := s.callers[c].key;
    if !exists other :: HasKey(s, key, other) {
      forall i, j | i in t.table && j in t.table && t.table[i].Some? && t.table[i] == t.table[j] ensures i == j {
        assert i in s.table ==> !HasKey(s, key, i);
        assert j in s.table ==> !HasKey(s, key, j);
      }
      forall b | b in t.callers && t.callers[b].phase.Conflicted?
        ensures exists k :: HasKey(t, t.callers[b].key, k)
      {
        var k :| HasKey(s, s.callers[b].key, k);
        assert HasKey(t, t.callers[b].key, k);
      }
    } else {
      assert t.table == s.table;
      KeysSeenAlike(s, t);
    }
  }

  lemma KeysSeenAlike(s: State, t: State)
    requires s.table == t.table
    ensures forall key, id :: HasKey(s, key, id) <==> HasKey(t, key, id)
  {
  }

  lemma StepKeepsInv(s: State, l: Label, t: State)
    requires Inv(s) && Step(s, l, t)
    ensures Inv(t)
  {
    match l
    case Insert(c, id) => InsertKeepsInv(s, c, id, t);
    case Publish(_) => PublishKeepsInv(s, l, t);
    case Arrive(_, _) => QuietKeepsInv(s, l, t);
    case RejectInvalid(_) => QuietKeepsInv(s, l, t);
    case PublishRaises(_) => QuietKeepsInv(s, l, t);
    case Crash(_) => QuietKeepsInv(s, l, t);
    case _ => SelectKeepsInv(s, l, t);
  }

  lemma PublishKeepsInv(s: State, l: Label, t: State)
    requires Inv(s) && l.Publish? && Step(s, l, t)
    ensures Inv(t)
  {
    KeysSeenAlike(s, t);
  }

  lemma QuietKeepsInv(s: State, l: Label, t: State)
    requires Inv(s) && (l.Arrive? || l.RejectInvalid? || l.PublishRaises? || l.Crash?) && Step(s, l, t)
    ensures Inv(t)
  {
    KeysSeenAlike(s, t);
  }

  /** A caller moves on, and the table does not. */
  lemma MoveKeepsInv(s: State, c: nat, p: Phase)
    requires Inv(s) && c in s.callers
    requires p.Missed? || p.Raised? || (p.Returned? && HasKey(s, s.callers[c].key, p.id))
    ensures Inv(Moved(s, c, p))
  {
    KeysSeenAlike(s, Moved(s, c, p));
  }

  lemma SelectKeepsInv(s: State, l: Label, t: State)
    requires Inv(s) && (l.Select? || l.Reselect?) && Step(s, l, t)
    ensures Inv(t)
  {
    var key := s.callers[l.c].key;
    if Truthy(key) && exists id :: HasKey(s, key, id) {
      var id :| HasKey(s, key, id) && t == Moved(s, l.c, Returned(id));
      MoveKeepsInv(s, l.c, Returned(id));
    } else {
      MoveKeepsInv(s, l.c, if l.Select? then Missed else Raised);
    }
  }

  lemma {:induction false} BehaviourKeepsInv(ss: seq<State>, ls: seq<Label>, i: nat)
    requires Behaviour(ss, ls) && i < |ss|
    ensures Inv(ss[i])
  {
    if i > 0 {
      BehaviourKeepsInv(ss, ls, i - 1);
      StepKeepsInv(ss[i - 1], ls[i - 1], ss[i]);
    }
  }

  /** Rows and returned ids are never taken back. */
  lemma {:induction false} TableOnlyGrows(ss: seq<State>, ls: seq<Label>, i: nat, j: nat)
    requires Behaviour(ss, ls) && i <= j < |ss|
    ensures forall id :: id in ss[i].table ==> id in ss[j].table && ss[j].table[id] == ss[i].table[id]
    ensures ss[i].published <= ss[j].published
  {
    if i < j {
      TableOnlyGrows(ss, ls, i, j - 1);
      assert Step(ss[j - 1], ls[j - 1], ss[j]);
    }
  }

  /** Whatever the interleaving: one row and one submitted event per key at most, and any two
      submits that ever return for one key, early or late, return the same id. */
  lemma SubmitIsIdempotent(ss: seq<State>, ls: seq<Label>, i: nat, j: nat, b: nat, c: nat)
    requires Behaviour(ss, ls) && i <= j < |ss|
    ensures forall x, y :: (x in ss[j].table && y in ss[j].table && ss[j].table[x].Some? &&
              ss[j].table[x] == ss[j].table[y]) ==> x == y
    ensures forall k, m :: (0 <= k < |ss[j].published| && 0 <= m < |ss[j].published| &&
              ss[j].published[k] in ss[j].table && ss[j].published[m] in ss[j].table &&
              ss[j].table[ss[j].published[k]].Some? &&
                  ss[j].table[ss[j].published[k]] == ss[j].table[ss[j].published[m]]) ==> k == m
    ensures (b in ss[i].callers && c in ss[j].callers && ss[i].callers[b].phase.Returned? &&
              ss[j].callers[c].phase.Returned? &&
             ss[i].callers[b].key.Some? && ss[i].callers[b].key == ss[j].callers[c].key) ==>
              ss[i].callers[b].phase.id == ss[j].callers[c].phase.id
  {
    BehaviourKeepsInv(ss, ls, i);
    BehaviourKeepsInv(ss, ls, j);
    TableOnlyGrows(ss, ls, i, j);
  }

  /** The "row rolled back between insert and re-select" branch is dead: a conflicted caller
      with a truthy key always finds the winner, so it returns and never raises. */
  lemma ConflictAlwaysResolves(ss: seq<State>, ls: seq<Label>, i: nat, c: nat, t: State)
    requires Behaviour(ss, ls) && i < |ss|
    requires Step(ss[i], Reselect(c), t)
    ensures t.callers[c].phase.Returned? <==> Truthy(ss[i].callers[c].key)
    ensures !Truthy(ss[i].callers[c].key) <==> ss[i].callers[c].key == Some("")
  {
    BehaviourKeepsInv(ss, ls, i);
  }

  /** A later caller gets the row back for exactly the truthy keys, whether its first select
      saw the row or lost the race; the handler's truth test skips both selects for the empty
      key, which the index still rejects, so that caller gets the integrity error. This is about
      the handler alone: its one caller in the service turns an empty key into an absent one. */
  lemma RepeatedKeyReturnsIffTruthy(s: State, c: nat, id: nat, key: string, newId: nat, tried: State, end: State)
    requires Inv(s) && HasKey(s, Some(key), id) && c in s.callers && s.callers[c].key == Some(key)
    requires (Step(s, Select(c), end) && key != "") ||
             (Step(s, Insert(c, newId), tried) && Step(tried, Reselect(c), end))
    ensures end.callers[c].phase == if key != "" then Returned(id) else Raised
    ensures end.table == s.table && end.published == s.published
  {
    if !Step(s, Select(c), end) {
      assert tried == Moved(s, c, Conflicted);
      KeysSeenAlike(s, tried);
      assert HasKey(tried, Some(key), id);
    }
  }

  // ---- Every submit comes to an end ----------------------------------------

  /** How far a submit has come: it arrived, it selected, it inserted, it was answered. */
  function Rank(p: Phase): nat {
    match p
    case Started => 0
    case Missed => 1
    case Inserted(_) => 2
    case Conflicted => 2
    case Returned(_) => 3
    case Raised => 3
  }

  /** A step of this caller's own; a crash only happens to it. */
  predicate OwnStep(l: Label, c: nat) { !l.Crash? && l.c == c }

  function OwnSteps(ls: seq<Label>, c: nat): nat {
    if |ls| == 0 then 0 else OwnSteps(ls[..|ls| - 1], c) + if OwnStep(ls[|ls| - 1], c) then 1 else 0
  }

  lemma StepGoesForward(s: State, l: Label, t: State, c: nat)
    requires Step(s, l, t)
    ensures c in s.callers ==> c in t.callers && t.callers[c].key == s.callers[c].key
    ensures c in s.callers ==>
              Rank(t.callers[c].phase) >= Rank(s.callers[c].phase) + if OwnStep(l, c) then 1 else 0
    ensures c !in s.callers && OwnStep(l, c) ==> c in t.callers
    ensures c !in s.callers && !OwnStep(l, c) ==> c !in t.callers
  {
  }

  /** No submit takes more than four steps: it arrives, selects, inserts, and re-selects or publishes. */
  lemma SubmitsAreShort(ss: seq<State>, ls: seq<Label>, i: nat, c: nat)
    requires Behaviour(ss, ls) && i < |ss|
    ensures c !in ss[i].callers ==> OwnSteps(ls[..i], c) == 0
    ensures c in ss[i].callers ==> OwnSteps(ls[..i], c) <= 1 + Rank(ss[i].callers[c].phase) <= 4
  {
    for n := 0 to i
      invariant c !in ss[n].callers ==> OwnSteps(ls[..n], c) == 0
      invariant c in ss[n].callers ==> OwnSteps(ls[..n], c) <= 1 + Rank(ss[n].callers[c].phase)
    {
      TakeFront(ls, n);
      assert Step(ss[n], ls[n], ss[n + 1]);
      StepGoesForward(ss[n], ls[n], ss[n + 1], c);
    }
  }

  /** And none is ever stuck: whatever the table and the other callers, one that is not answered yet can
      take a step of its own. */
  lemma NeverStuck(s: State, c: nat, id: nat) returns (l: Label, t: State)
    requires c in s.callers && Rank(s.callers[c].phase) < 3 && id !in s.table
    ensures OwnStep(l, c) && Step(s, l, t)
  {
    var key := s.callers[c].key;
    match s.callers[c].phase {
      case Started =>
        l, t := Select(c), Moved(s, c, Missed);
        if other :| Truthy(key) && HasKey(s, key, other) {
          t := Moved(s, c, Returned(other));
        }
      case Missed =>
        l, t := Insert(c, id), Moved(s, c, Inserted(id)).(table := s.table[id := key]);
        if exists other :: HasKey(s, key, other) {
          t := Moved(s, c, Conflicted);
        }
      case Inserted(mine) =>
        l, t := Publish(c), Moved(s, c, Returned(mine)).(published := s.published + [mine]);
      case Conflicted =>
        l, t := Reselect(c), Moved(s, c, Raised);
        if other :| Truthy(key) && HasKey(s, key, other) {
          t := Moved(s, c, Returned(other));
        }
    }
  }

  /** One more step at the end of an execution. */
  lemma OneMoreStep(ss: seq<State>, ls: seq<Label>, l: Label, t: State) returns (ss': seq<State>, ls': seq<Label>)
    requires Behaviour(ss, ls) && Step(ss[|ls|], l, t)
    ensures Behaviour(ss', ls') && ss'[|ls'|] == t
  {
    ss', ls' := ss + [t], ls + [l];
  }

  /** A caller arrives with a key, its select finds nothing, and it is about to insert. */
  lemma ArrivesAndMisses(ss: seq<State>, ls: seq<Label>, s: State, c: nat, key: Key)
    returns (ss': seq<State>, ls': seq<Label>, t: State)
    requires Behaviour(ss, ls) && ss[|ls|] == s && c !in s.callers && !Truthy(key)
    ensures Behaviour(ss', ls') && ss'[|ls'|] == t && t == s.(callers := s.callers[c := Caller(key, Missed)])
  {
    var a := s.(callers := s.callers[c := Caller(key, Started)]);
    ss', ls' := OneMoreStep(ss, ls, Arrive(c, key), a);
    t := Moved(a, c, Missed);
    ss', ls' := OneMoreStep(ss', ls', Select(c), t);
  }

  /** The empty key is reached: some execution commits a row for it, and the second submit with it raises. */
  lemma EmptyKeyRaises() returns (ss: seq<State>, ls: seq<Label>)
    ensures Behaviour(ss, ls) && HasKey(ss[|ls|], Some(""), 0)
    ensures 1 in ss[|ls|].callers && ss[|ls|].callers[1] == Caller(Some(""), Raised)
  {
    var key: Key := Some("");
    var s := State(map[], map[], []);
    ss, ls := [s], [];
    ss, ls, s := ArrivesAndMisses(ss, ls, s, 0, key);
    var t := Moved(s, 0, Inserted(0)).(table := s.table[0 := key]);
    ss, ls := OneMoreStep(ss, ls, Insert(0, 0), t);
    ss, ls, s := ArrivesAndMisses(ss, ls, t, 1, key);
    assert HasKey(s, key, 0);
    t := Moved(s, 1, Conflicted);
    ss, ls := OneMoreStep(ss, ls, Insert(1, 1), t);
    s := Moved(t, 1, Raised);
    ss, ls := OneMoreStep(ss, ls, Reselect(1), s);
  }
}
