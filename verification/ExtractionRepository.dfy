/** The repository: one table, changed only by single conditional UPDATEs, plus the handlers
    and sweeps that are straight-line clients of it. */
module ExtractionRepository {
  import opened Collections
  import opened Wrappers
  import opened ExtractionRows

  /** What an UPDATE ... RETURNING of transition `t` on row `id` does to the table. */
  ghost predicate Updated(before: map<string, Row>, after: map<string, Row>,
                          id: string, t: Transition, r: Option<Row>)
  {
    if id in before && Where(t, before[id]) then
      r == Some(Set(t, before[id])) && after == before[id := Set(t, before[id])]
    else
      r == None && after == before
  }

  /** The same, told by the row: whether it changes, and into what; nothing happens to a missing row. */
  ghost predicate RowChanges(before: map<string, Row>, after: map<string, Row>, id: string, r: Option<Row>,
                             when: bool, next: Row)
  {
    if when then r == Some(next) && after == before[id := next] else r == None && after == before
  }

  /** A lease of fewer than zero seconds is one of zero. */
  predicate Expired(stamp: Option<int>, now: int, lease: int) {
    stamp.Some? && stamp.value < now - (if lease > 0 then lease else 0)
  }

  /** Keys are unique among the rows that have one (the partial unique index). */
  ghost predicate UniqueKeys(rows: map<string, Row>) {
    forall i, j :: i in rows && j in rows && rows[i].key.Some? && rows[i].key == rows[j].key ==> i == j
  }

  ghost predicate ValidTable(rows: map<string, Row>) {
    UniqueKeys(rows) && forall i :: i in rows ==> WellFormed(rows[i])
  }

  ghost function Refining(rows: map<string, Row>, now: int, lease: int): set<string> {
    set i | i in rows && StaleBboxRefining(rows[i], now, lease)
  }

  ghost function Orphaned(rows: map<string, Row>, now: int, pendingThreshold: int, lease: int): set<string> {
    set i | i in rows && PendingBboxRevive(rows[i], now, pendingThreshold, lease)
  }

  /** What SQL's LIMIT leaves of a query without an order: some `limit` of the rows, all if there are fewer. */
  ghost predicate Limited(found: set<string>, limit: nat, ids: seq<string>) {
    && Distinct(ids) && (forall i :: i in ids ==> i in found)
    && |ids| <= limit && (|ids| < limit ==> forall i :: i in found ==> i in ids)
  }

  lemma AllUnlessMore(found: set<string>, limit: nat, ids: seq<string>, more: set<string>)
    requires Limited(found, limit, ids) && found <= more && |more| <= limit
    ensures forall i :: i in found ==> i in ids
  {
    var listed := set i | i in ids;
    DistinctSize(ids);
    SubsetSize(found, more);
    if i :| i in found && i !in listed {
      SmallerSet(listed, found, i);
    }
  }

  method UpTo(found: set<string>, limit: nat) returns (ids: seq<string>)
    ensures Limited(found, limit, ids)
  {
    ids := [];
    var left := found;
    while left != {} && |ids| < limit
      invariant left <= found && Distinct(ids) && |ids| <= limit
      invariant forall i :: i in ids <==> i in found - left
      decreases |left|
    {
      var id :| id in left;
      DistinctSnoc(ids, id);
      ids := ids + [id];
      left := left - {id};
    }
  }

  datatype Inserted = Inserted | IntegrityError

  datatype CancelOutcome = Cancel(row: Row) | NotFound | NotCancellable(status: Status)

  class Repository {
    var rows: map<string, Row>

    ghost predicate Valid()
      reads this
    {
      ValidTable(rows)
    }

    constructor ()
      ensures Valid() && rows == map[]
    {
      rows := map[];
    }

    // ---- queries ----------------------------------------------------------

    method Get(id: string) returns (r: Option<Row>)
      ensures r == if id in rows then Some(rows[id]) else None
    {
      r := if id in rows then Some(rows[id]) else None;
    }

    method GetByIdempotencyKey(key: string) returns (r: Option<string>)
      requires Valid()
      ensures r.Some? ==> r.value in rows && rows[r.value].key == Some(key)
      ensures r.Some? ==> forall i :: i in rows && rows[i].key == Some(key) ==> i == r.value
      ensures r.None? ==> forall i :: i in rows ==> rows[i].key != Some(key)
    {
      var hits := set i | i in rows && rows[i].key == Some(key);
      if hits == {} {
        assert forall i :: i in rows && rows[i].key == Some(key) ==> i in hits;
        return None;
      }
      var hit :| hit in hits;
      r := Some(hit);
    }

    method FindStaleRunning(now: int, lease: int, limit: nat) returns (ids: seq<string>)
      ensures Limited((set i | i in rows && rows[i].status == Running && Expired(rows[i].startedAt, now, lease)),
                      limit, ids)
    {
      var cutoff := now - Max(0, lease);
      var found := set i | i in rows && rows[i].status == Running && OlderThan(rows[i].startedAt, cutoff);
      ids := UpTo(found, limit);
    }

    method FindStaleQueued(now: int, olderThan: int, limit: nat) returns (ids: seq<string>)
      ensures Limited((set i | i in rows && rows[i].status == Queued &&
                               (Expired(rows[i].startedAt, now, olderThan) ||
                                (rows[i].startedAt.None? && Expired(Some(rows[i].submittedAt), now, olderThan)))),
                      limit, ids)
    {
      var cutoff := now - Max(0, olderThan);
      var found := set i | i in rows && rows[i].status == Queued &&
                           (match rows[i].startedAt case Some(t) => t case None => rows[i].submittedAt) < cutoff;
      ids := UpTo(found, limit);
    }

    method FindStaleBboxRefining(now: int, lease: int, limit: nat) returns (ids: seq<string>)
      ensures Limited(Refining(rows, now, lease), limit, ids)
      ensures Limited((set i | i in rows && rows[i].bbox == BboxRunning && Expired(rows[i].bboxStartedAt, now, lease)),
                      limit, ids)
    {
      var cutoff := now - Max(0, lease);
      var found := set i | i in rows && rows[i].bbox == BboxRunning && OlderThan(rows[i].bboxStartedAt, cutoff);
      ids := UpTo(found, limit);
    }

    method FindPendingBboxRevive(now: int, pendingThreshold: int, bboxLease: int, limit: nat) returns (ids: seq<string>)
      ensures Limited(Orphaned(rows, now, pendingThreshold, bboxLease), limit, ids)
      ensures Limited((set i | i in rows && rows[i].status == Succeeded && rows[i].bbox == BboxPending &&
                               (Expired(rows[i].bboxStartedAt, now, bboxLease) ||
                                (rows[i].bboxStartedAt.None? && Expired(rows[i].finishedAt, now, pendingThreshold)))),
                      limit, ids)
    {
      var mainCutoff := now - Max(0, pendingThreshold);
      var refineCutoff := now - Max(0, bboxLease);
      var found := set i | i in rows && rows[i].status == Succeeded && rows[i].bbox == BboxPending &&
                           ((rows[i].bboxStartedAt.None? && OlderThan(rows[i].finishedAt, mainCutoff)) ||
                            (rows[i].bboxStartedAt.Some? && OlderThan(rows[i].bboxStartedAt, refineCutoff)));
      ids := UpTo(found, limit);
    }

    // ---- mutations ----------------------------------------------------------

    method Add(id: string, key: Option<string>, submittedAt: int) returns (r: Inserted)
      requires Valid() && id !in rows
      modifies this
      ensures Valid()
      ensures r == Inserted <==> key.None? || forall i :: i in old(rows) ==> old(rows)[i].key != key
      ensures rows == if r == Inserted then old(rows)[id := FreshRow(key, submittedAt)] else old(rows)
      ensures r == Inserted ==>
                rows[id] == Row(key, Queued, 0, submittedAt, None, None, None, None, NoLeg, 0, None, None, None)
    {
      FreshRowIsWellFormed(key, submittedAt);
      if key.Some? && exists i | i in rows :: rows[i].key == key {
        return IntegrityError;
      }
      rows := rows[id := FreshRow(key, submittedAt)];
      r := Inserted;
    }

    method AtomicUpdate(id: string, matches: Row -> bool, values: Row -> Row) returns (r: Option<Row>)
      modifies this
      ensures if id in old(rows) && matches(old(rows)[id])
              then r == Some(values(old(rows)[id])) && rows == old(rows)[id := values(old(rows)[id])]
              else r == None && rows == old(rows)
    {
      if id in rows && matches(rows[id]) {
        var row := values(rows[id]);
        rows := rows[id := row];
        return Some(row);
      }
      r := None;
    }

    method MarkRunning(id: string, now: int, lease: int) returns (r: Option<Row>)
      requires Valid()
      modifies this
      ensures Valid() && Updated(old(rows), rows, id, Transition.MarkRunning(now, lease), r)
      ensures id !in old(rows) ==> r == None && rows == old(rows)
      ensures id in old(rows) ==>
                var row := old(rows)[id];
                RowChanges(old(rows), rows, id, r,
                  row.status == Queued || (row.status == Running && Expired(row.startedAt, now, lease)),
                  row.(status := Running, startedAt := Some(now), attempts := row.attempts + 1))
    {
      var staleCutoff := now - Max(0, lease);
      r := AtomicUpdate(id,
        (row: Row) => row.status == Queued || (row.status == Running && OlderThan(row.startedAt, staleCutoff)),
        (row: Row) => row.(status := Running, startedAt := Some(now), attempts := row.attempts + 1));
    }

    method MarkSucceeded(id: string, now: int, result: Payload, requestBbox: bool) returns (r: Option<Row>)
      requires Valid()
      modifies this
      ensures Valid() && Updated(old(rows), rows, id, Transition.MarkSucceeded(now, result, requestBbox), r)
      ensures id !in old(rows) ==> r == None && rows == old(rows)
      ensures id in old(rows) ==>
                var row := old(rows)[id];
                RowChanges(old(rows), rows, id, r,
                  row.status == Running,
                  row.(status := Succeeded, finishedAt := Some(now), result := Some(result), error := None,
                       bbox := if requestBbox then BboxPending else row.bbox))
    {
      r := AtomicUpdate(id,
        (row: Row) => row.status == Running,
        (row: Row) => row.(status := Succeeded, finishedAt := Some(now), result := Some(result), error := None,
                           bbox := if requestBbox then BboxPending else row.bbox));
    }

    method MarkFailed(id: string, now: int, code: string, message: string) returns (r: Option<Row>)
      requires Valid()
      modifies this
      ensures Valid() && Updated(old(rows), rows, id, Transition.MarkFailed(now, Error(code, message)), r)
      ensures id !in old(rows) ==> r == None && rows == old(rows)
      ensures id in old(rows) ==>
                var row := old(rows)[id];
                RowChanges(old(rows), rows, id, r,
                  row.status == Running,
                  row.(status := Failed, finishedAt := Some(now), error := Some(Error(code, message))))
    {
      r := AtomicUpdate(id,
        (row: Row) => row.status == Running,
        (row: Row) => row.(status := Failed, finishedAt := Some(now), error := Some(Error(code, message))));
    }

    method MarkCancelled(id: string, now: int) returns (r: Option<Row>)
      requires Valid()
      modifies this
      ensures Valid() && Updated(old(rows), rows, id, Transition.MarkCancelled(now), r)
      ensures id !in old(rows) ==> r == None && rows == old(rows)
      ensures id in old(rows) ==>
                var row := old(rows)[id];
                RowChanges(old(rows), rows, id, r,
                  row.status == Queued,
                  row.(status := Cancelled, finishedAt := Some(now)))
    {
      r := AtomicUpdate(id,
        (row: Row) => row.status == Queued,
        (row: Row) => row.(status := Cancelled, finishedAt := Some(now)));
    }

    method RequeueForRetry(id: string) returns (r: Option<Row>)
      requires Valid()
      modifies this
      ensures Valid() && Updated(old(rows), rows, id, Transition.RequeueForRetry, r)
      ensures id !in old(rows) ==> r == None && rows == old(rows)
      ensures id in old(rows) ==>
                var row := old(rows)[id];
                RowChanges(old(rows), rows, id, r,
                  row.status == Running,
                  row.(status := Queued))
    {
      r := AtomicUpdate(id, (row: Row) => row.status == Running, (row: Row) => row.(status := Queued));
    }

    method ClaimBboxRefinement(id: string, now: int, lease: int) returns (r: Option<Row>)
      requires Valid()
      modifies this
      ensures Valid() && Updated(old(rows), rows, id, ClaimBbox(now, lease), r)
      ensures id !in old(rows) ==> r == None && rows == old(rows)
      ensures id in old(rows) ==>
                var row := old(rows)[id];
                RowChanges(old(rows), rows, id, r,
                  row.status == Succeeded && (row.bbox == BboxPending ||
                  (row.bbox == BboxRunning && Expired(row.bboxStartedAt, now, lease))),
                  row.(bbox := BboxRunning, bboxStartedAt := Some(now), bboxAttempts := row.bboxAttempts + 1))
    {
      var staleCutoff := now - Max(0, lease);
      r := AtomicUpdate(id,
        (row: Row) => row.status == Succeeded &&
          (row.bbox == BboxPending || (row.bbox == BboxRunning && OlderThan(row.bboxStartedAt, staleCutoff))),
        (row: Row) => row.(bbox := BboxRunning, bboxStartedAt := Some(now), bboxAttempts := row.bboxAttempts + 1));
    }

    method RequeueBboxRefinement(id: string) returns (r: Option<Row>)
      requires Valid()
      modifies this
      ensures Valid() && Updated(old(rows), rows, id, RequeueBbox, r)
      ensures id !in old(rows) ==> r == None && rows == old(rows)
      ensures id in old(rows) ==>
                var row := old(rows)[id];
                RowChanges(old(rows), rows, id, r,
                  row.status == Succeeded && row.bbox == BboxRunning,
                  row.(bbox := BboxPending))
    {
      r := AtomicUpdate(id,
        (row: Row) => row.status == Succeeded && row.bbox == BboxRunning,
        (row: Row) => row.(bbox := BboxPending));
    }

    method CompleteBboxRefinement(id: string, now: int, result: Payload) returns (r: Option<Row>)
      requires Valid()
      modifies this
      ensures Valid() && Updated(old(rows), rows, id, CompleteBbox(now, result), r)
      ensures id !in old(rows) ==> r == None && rows == old(rows)
      ensures id in old(rows) ==>
                var row := old(rows)[id];
                RowChanges(old(rows), rows, id, r,
                  row.status == Succeeded && row.bbox == BboxRunning,
                  row.(result := Some(result), bbox := BboxSucceeded, bboxFinishedAt := Some(now), bboxError := None))
    {
      r := AtomicUpdate(id,
        (row: Row) => row.status == Succeeded && row.bbox == BboxRunning,
        (row: Row) => row.(result := Some(result), bbox := BboxSucceeded, bboxFinishedAt := Some(now),
            bboxError := None));
    }

    method FailBboxRefinement(id: string, now: int, code: string, message: string) returns (r: Option<Row>)
      requires Valid()
      modifies this
      ensures Valid() && Updated(old(rows), rows, id, FailBbox(now, Error(code, message)), r)
      ensures id !in old(rows) ==> r == None && rows == old(rows)
      ensures id in old(rows) ==>
                var row := old(rows)[id];
                RowChanges(old(rows), rows, id, r,
                  row.status == Succeeded && row.bbox == BboxRunning,
                  row.(bbox := BboxFailed, bboxFinishedAt := Some(now), bboxError := Some(Error(code, message))))
    {
      r := AtomicUpdate(id,
        (row: Row) => row.status == Succeeded && row.bbox == BboxRunning,
        (row: Row) => row.(bbox := BboxFailed, bboxFinishedAt := Some(now), bboxError := Some(Error(code, message))));
    }
  }

  /** Anything other clients may do while a handler waits: rows come and move, their keys stay,
      none is deleted, and nobody else creates a row of this id. */
  ghost predicate Interference(before: map<string, Row>, after: map<string, Row>, id: string) {
    && ValidTable(after)
    && (forall j :: j in before ==> j in after && after[j].key == before[j].key)
    && (id in after ==> id in before)
  }

  /** Stands for other clients' calls; callers only know the contract. */
  method OtherClients(repository: Repository, id: string)
    requires repository.Valid()
    modifies repository
    ensures repository.Valid()
    ensures Interference(old(repository.rows), repository.rows, id)
  {
  }

  /** Cancels a queued row; otherwise a second read, with other clients active in between, tells a
      missing row from a late cancel. The handler itself then changes nothing. */
  method CancelExtraction(repository: Repository, id: string, now: int) returns (r: CancelOutcome)
    requires repository.Valid()
    modifies repository
    ensures repository.Valid()
    ensures r.NotFound? <==> id !in old(repository.rows)
    ensures r.Cancel? <==> id in old(repository.rows) && old(repository.rows)[id].status == Queued
    ensures r.Cancel? ==> repository.rows == old(repository.rows)[id := r.row] && Settled(r.row) && r.row.result == None
    ensures r.NotCancellable? ==> id in repository.rows && r.status == repository.rows[id].status
    ensures !r.Cancel? ==> Interference(old(repository.rows), repository.rows, id)
  {
    var cancelled := repository.MarkCancelled(id, now);
    if cancelled.Some? {
      return Cancel(cancelled.value);
    }
    OtherClients(repository, id);
    var row := repository.Get(id);
    r := if row.None? then NotFound else NotCancellable(row.value.status);
  }

  function Present(rows: map<string, Row>, ids: seq<string>): (present: seq<string>)
    ensures forall i :: i in present <==> i in ids && i in rows
  {
    if |ids| == 0 then []
    else
      var front, last := Present(rows, ids[..|ids| - 1]), ids[|ids| - 1];
      if last in rows then front + [last] else front
  }

  lemma {:induction false} AllPresent(rows: map<string, Row>, ids: seq<string>)
    requires forall i :: i in ids ==> i in rows
    ensures Present(rows, ids) == ids
  {
    if |ids| > 0 {
      assert ids[|ids| - 1] in ids;
      AllPresent(rows, ids[..|ids| - 1]);
    }
  }

  ghost function InState(rows: map<string, Row>, b: BboxStatus): set<string> { set i | i in rows && rows[i].bbox == b }

  ghost predicate Claimable(rows: map<string, Row>, id: string, from: int, lease: int) {
    id in rows && forall later :: later >= from ==> Where(ClaimBbox(later, lease), rows[id])
  }

  lemma SweptIsClaimable(rows: map<string, Row>, first: int, second: int, c: Reaper, id: string)
    requires ValidTable(rows) && (id in Refining(rows, first, c.bboxLease) ||
               id in Orphaned(rows, second, c.pendingThreshold, c.bboxLease))
    ensures Claimable(rows, id, Max(first, second), c.bboxLease)
  {
  }

  lemma SweepIsSafe(rows: map<string, Row>, first: int, second: int, c: Reaper,
                    stale: seq<string>, orphans: seq<string>, published: seq<string>)
    requires ValidTable(rows) && Distinct(stale) && Distinct(orphans) && published <= stale + orphans
    requires forall i :: i in stale ==> i in Refining(rows, first, c.bboxLease)
    requires forall i :: i in orphans ==> i in Orphaned(rows, second, c.pendingThreshold, c.bboxLease)
    ensures Distinct(published)
    ensures forall i :: i in published ==> Claimable(rows, i, Max(first, second), c.bboxLease)
  {
    var all := stale + orphans;
    forall j, k | 0 <= j < k < |all| ensures all[j] != all[k] {
      if j < |stale| <= k {
        assert all[j] in stale && all[k] in orphans;
      }
    }
    assert forall j :: 0 <= j < |published| ==> published[j] == all[j];
    forall i | i in published ensures Claimable(rows, i, Max(first, second), c.bboxLease) {
      assert i in stale || i in orphans;
      SweptIsClaimable(rows, first, second, c, i);
    }
  }

  /** An open leg with old stamps, among no more than `limit` in its state, is in the query for it. */
  lemma OldLegIsListed(rows: map<string, Row>, first: int, second: int, c: Reaper, limit: nat,
                       stale: seq<string>, orphans: seq<string>, id: string, bound: int)
    requires ValidTable(rows) && id in rows && StampsAtMost(rows[id], bound)
    requires Limited(Refining(rows, first, c.bboxLease), limit, stale) &&
               Limited(Orphaned(rows, second, c.pendingThreshold, c.bboxLease), limit, orphans)
    requires first > bound + Longest(c) && second > bound + Longest(c) && |InState(rows, rows[id].bbox)| <= limit
    ensures rows[id].bbox == BboxRunning ==> id in stale
    ensures rows[id].bbox == BboxPending ==> id in orphans
  {
    if rows[id].bbox == BboxRunning {
      AllUnlessMore(Refining(rows, first, c.bboxLease), limit, stale, InState(rows, BboxRunning));
      assert id in Refining(rows, first, c.bboxLease);
    } else if rows[id].bbox == BboxPending {
      AllUnlessMore(Orphaned(rows, second, c.pendingThreshold, c.bboxLease), limit, orphans,
          InState(rows, BboxPending));
      assert id in Orphaned(rows, second, c.pendingThreshold, c.bboxLease);
    }
  }

  /** An open leg the sweep must publish: its stamps are old for both readings, and no more rows
      than the limit are in its state. */
  ghost predicate Due(rows: map<string, Row>, id: string, first: int, second: int, c: Reaper, limit: nat) {
    && id in rows && (rows[id].bbox == BboxPending || rows[id].bbox == BboxRunning)
    && |InState(rows, rows[id].bbox)| <= limit
    && exists bound :: StampsAtMost(rows[id], bound) && first > bound + Longest(c) && second > bound + Longest(c)
  }

  lemma SweepIsComplete(rows: map<string, Row>, first: int, second: int, c: Reaper, limit: nat,
                        stale: seq<string>, orphans: seq<string>)
    requires ValidTable(rows)
    requires Limited(Refining(rows, first, c.bboxLease), limit, stale) &&
               Limited(Orphaned(rows, second, c.pendingThreshold, c.bboxLease), limit, orphans)
    ensures forall i :: Due(rows, i, first, second, c, limit) ==> i in stale + orphans
  {
    forall i | Due(rows, i, first, second, c, limit) ensures i in stale + orphans {
      var bound :| StampsAtMost(rows[i], bound) && first > bound + Longest(c) && second > bound + Longest(c);
      OldLegIsListed(rows, first, second, c, limit, stale, orphans, i, bound);
    }
  }

  /** One pass of the grounding reaper; the result is what it published, in order, and whether a
      publication raised and so ended it. Every id it published is claimable when the event arrives,
      however late; and if none raised, every leg that is due was published, once. */
  method BboxSweep(repository: Repository, first: int, second: int, c: Reaper, limit: nat, publishes: nat -> bool)
    returns (published: seq<string>, raised: bool)
    requires repository.Valid()
    ensures Distinct(published)
    ensures forall i :: i in published ==> Claimable(repository.rows, i, Max(first, second), c.bboxLease)
    ensures raised ==> !publishes(|published|)
    ensures !raised ==> forall i :: Due(repository.rows, i, first, second, c, limit) ==> i in published
  {
    var stale := repository.FindStaleBboxRefining(first, c.bboxLease, limit);
    AllPresent(repository.rows, stale);
    NothingAdded(stale);
    published, raised := Republish(repository, stale, [], publishes);
    if raised {
      SweepIsSafe(repository.rows, first, second, c, stale, [], published);
      return;
    }
    var orphans := repository.FindPendingBboxRevive(second, c.pendingThreshold, c.bboxLease, limit);
    AllPresent(repository.rows, orphans);
    published, raised := Republish(repository, orphans, published, publishes);
    SweepIsSafe(repository.rows, first, second, c, stale, orphans, published);
    SweepIsComplete(repository.rows, first, second, c, limit, stale, orphans);
  }

  /** Appends one event per id that still has a row to `sent`, until a publication raises. */
  method Republish(repository: Repository, ids: seq<string>, sent: seq<string>, publishes: nat -> bool)
    returns (published: seq<string>, raised: bool)
    ensures published <= sent + Present(repository.rows, ids) && sent <= published
    ensures raised <==> published != sent + Present(repository.rows, ids)
    ensures raised ==> !publishes(|published|)
    ensures forall k :: |sent| <= k < |published| ==> publishes(k)
  {
    published, raised := sent, false;
    for k := 0 to |ids|
      invariant published == sent + Present(repository.rows, ids[..k])
      invariant forall j :: |sent| <= j < |published| ==> publishes(j)
    {
      assert ids[..k + 1][..k] == ids[..k];
      var row := repository.Get(ids[k]);
      if row.Some? {
        if !publishes(|published|) {
          RowsAhead(repository.rows, ids, k);
          return published, true;
        }
        published := published + [ids[k]];
      }
    }
    assert ids[..|ids|] == ids;
  }

  /** What is present up to `k` comes first, and something follows it if `ids[k]` is present. */
  lemma {:induction false} RowsAhead(rows: map<string, Row>, ids: seq<string>, k: nat)
    requires k < |ids| && ids[k] in rows
    ensures Present(rows, ids[..k]) < Present(rows, ids)
  {
    if k + 1 < |ids| {
      assert ids[..|ids| - 1][..k] == ids[..k];
      RowsAhead(rows, ids[..|ids| - 1], k);
    }
  }
}
