/** One row of the `extractions` table and the conditional UPDATEs that change it.
    A transition is a WHERE clause and a SET list; it either fires or leaves the row alone. */
module ExtractionRows {
  import opened Wrappers

  datatype Status = Queued | Running | Succeeded | Failed | Cancelled

  /** The additive grounding leg; `NoLeg` is the column's NULL. */
  datatype BboxStatus = NoLeg | BboxPending | BboxRunning | BboxSucceeded | BboxFailed

  /** What `result_json` may hold. The model and the refiner are oracles: `reply` stands for
      whatever they answered, and a grounded result remembers what it was computed from. */
  datatype Payload = FromPipeline(reply: nat) | Grounded(base: Payload, reply: nat)

  datatype Error = Error(code: string, message: string)

  datatype Row = Row(
    key: Option<string>,
    status: Status,
    attempts: nat,
    submittedAt: int,
    startedAt: Option<int>,
    finishedAt: Option<int>,
    result: Option<Payload>,
    error: Option<Error>,
    bbox: BboxStatus,
    bboxAttempts: nat,
    bboxStartedAt: Option<int>,
    bboxFinishedAt: Option<int>,
    bboxError: Option<Error>)

  /** Every state-changing call of the repository, with the caller's clock reading. */
  datatype Transition =
    | MarkRunning(now: int, lease: int)
    | MarkSucceeded(now: int, result: Payload, requestBbox: bool)
    | MarkFailed(now: int, error: Error)
    | MarkCancelled(now: int)
    | RequeueForRetry
    | ClaimBbox(now: int, lease: int)
    | RequeueBbox
    | CompleteBbox(now: int, result: Payload)
    | FailBbox(now: int, error: Error)

  function Max(a: int, b: int): int { if a < b then b else a }

  /** SQL `column < cutoff`: NULL is never older than anything. */
  predicate OlderThan(stamp: Option<int>, cutoff: int) {
    stamp.Some? && stamp.value < cutoff
  }

  predicate Where(t: Transition, row: Row) {
    match t
    case MarkRunning(now, lease) =>
      row.status == Queued || (row.status == Running && OlderThan(row.startedAt, now - Max(0, lease)))
    case MarkSucceeded(_, _, _) => row.status == Running
    case MarkFailed(_, _) => row.status == Running
    case MarkCancelled(_) => row.status == Queued
    case RequeueForRetry => row.status == Running
    case ClaimBbox(now, lease) =>
      row.status == Succeeded &&
      (row.bbox == BboxPending ||
       (row.bbox == BboxRunning && OlderThan(row.bboxStartedAt, now - Max(0, lease))))
    case RequeueBbox => row.status == Succeeded && row.bbox == BboxRunning
    case CompleteBbox(_, _) => row.status == Succeeded && row.bbox == BboxRunning
    case FailBbox(_, _) => row.status == Succeeded && row.bbox == BboxRunning
  }

  function Set(t: Transition, row: Row): Row {
    match t
    case MarkRunning(now, _) =>
      row.(status := Running, startedAt := Some(now), attempts := row.attempts + 1)
    case MarkSucceeded(now, result, requestBbox) =>
      var done := row.(status := Succeeded, finishedAt := Some(now), result := Some(result), error := None);
      if requestBbox then done.(bbox := BboxPending) else done
    case MarkFailed(now, error) =>
      row.(status := Failed, finishedAt := Some(now), error := Some(error))
    case MarkCancelled(now) =>
      row.(status := Cancelled, finishedAt := Some(now))
    case RequeueForRetry =>
      row.(status := Queued)
    case ClaimBbox(now, _) =>
      row.(bbox := BboxRunning, bboxStartedAt := Some(now), bboxAttempts := row.bboxAttempts + 1)
    case RequeueBbox =>
      row.(bbox := BboxPending)
    case CompleteBbox(now, result) =>
      row.(result := Some(result), bbox := BboxSucceeded, bboxFinishedAt := Some(now), bboxError := None)
    case FailBbox(now, error) =>
      row.(bbox := BboxFailed, bboxFinishedAt := Some(now), bboxError := Some(error))
  }

  /** The row after an UPDATE that may or may not match. */
  function Apply(t: Transition, row: Row): Row {
    if Where(t, row) then Set(t, row) else row
  }

  /** The row the submit handler inserts. */
  function FreshRow(key: Option<string>, submittedAt: int): Row {
    Row(key, Queued, 0, submittedAt, None, None, None, None, NoLeg, 0, None, None, None)
  }

  // ---- Well-formedness ---------------------------------------------------

  predicate Terminal(s: Status) { s == Succeeded || s == Failed || s == Cancelled }

  predicate BboxTerminal(b: BboxStatus) { b == BboxSucceeded || b == BboxFailed }

  predicate WellFormed(row: Row) {
    && (row.bbox != NoLeg ==> row.status == Succeeded)
    && (row.result.Some? <==> row.status == Succeeded)
    && (row.finishedAt.Some? <==> Terminal(row.status))
    && (row.status == Running ==> row.startedAt.Some? && row.attempts >= 1)
    && (row.startedAt.Some? <==> row.attempts >= 1)
    && (row.bboxFinishedAt.Some? <==> BboxTerminal(row.bbox))
    && (row.bbox == BboxRunning ==> row.bboxStartedAt.Some? && row.bboxAttempts >= 1)
    && (row.bboxStartedAt.Some? <==> row.bboxAttempts >= 1)
    && (row.bbox == NoLeg ==> row.bboxAttempts == 0)
    && (BboxTerminal(row.bbox) ==> row.bboxAttempts >= 1)
    && (row.status == Failed ==> row.error.Some?)
    && (row.status == Succeeded ==> row.error.None?)
    && (row.bboxError.Some? <==> row.bbox == BboxFailed)
  }

  lemma FreshRowIsWellFormed(key: Option<string>, submittedAt: int)
    ensures WellFormed(FreshRow(key, submittedAt))
  {
  }

  /** The row after any sequence of calls, by any clients, in any order. */
  function ApplyAll(ts: seq<Transition>, row: Row): Row {
    if ts == [] then row else Apply(ts[|ts| - 1], ApplyAll(ts[..|ts| - 1], row))
  }

  /** Well-formedness survives every history of repository calls. */
  lemma {:induction false} HistoryIsWellFormed(ts: seq<Transition>, key: Option<string>, submittedAt: int)
    ensures WellFormed(ApplyAll(ts, FreshRow(key, submittedAt)))
  {
    if ts != [] {
      HistoryIsWellFormed(ts[..|ts| - 1], key, submittedAt);
    }
  }

  /** A row that no later call can touch: every main leg that is terminal without an open
      grounding leg. Queued, running, pending and refining rows are exactly the others. */
  predicate Settled(row: Row) {
    Terminal(row.status) && row.bbox != BboxPending && row.bbox != BboxRunning
  }

  /** Settled rows are exactly those no call at any clock reading can change. */
  lemma SettledIffFrozen(row: Row)
    requires WellFormed(row)
    ensures Settled(row) <==> forall t :: Apply(t, row) == row
  {
    if !Settled(row) {
      var e := Error("", "");
      if row.status == Queued {
        assert Apply(MarkCancelled(0), row) != row;
      } else if row.status == Running {
        assert Apply(RequeueForRetry, row) != row;
      } else if row.bbox == BboxPending {
        assert Apply(ClaimBbox(0, 0), row) != row;
      } else {
        assert Apply(RequeueBbox, row) != row;
      }
    }
  }

  /** What one history keeps of the row an earlier history reached: a terminal main status
      absorbs, only success ever carries a result, a requested leg is never withdrawn, and a
      finished leg absorbs with its result. Prefixes `ts[..i]` are the row's past. */
  ghost predicate Absorbs(earlier: Row, later: Row) {
    && (Terminal(earlier.status) ==> later.status == earlier.status && later.finishedAt == earlier.finishedAt)
    && (earlier.status == Failed || earlier.status == Cancelled ==> later == earlier)
    && (earlier.bbox != NoLeg ==> later.bbox != NoLeg)
    && (earlier.status == Succeeded && earlier.bbox == NoLeg ==> later == earlier)
    && (BboxTerminal(earlier.bbox) ==> later == earlier)
    && earlier.attempts <= later.attempts && earlier.bboxAttempts <= later.bboxAttempts
  }

  lemma {:induction false} HistoryAbsorbs(ts: seq<Transition>, i: nat, key: Option<string>, submittedAt: int)
    requires i <= |ts|
    ensures Absorbs(ApplyAll(ts[..i], FreshRow(key, submittedAt)), ApplyAll(ts, FreshRow(key, submittedAt)))
  {
    if i == |ts| {
      assert ts[..i] == ts;
    } else {
      var before := ts[..|ts| - 1];
      assert before[..i] == ts[..i];
      HistoryAbsorbs(before, i, key, submittedAt);
      HistoryIsWellFormed(before, key, submittedAt);
      HistoryIsWellFormed(ts[..i], key, submittedAt);
    }
  }

  /** The index at which the leg was requested is unique: it starts at most once. */
  predicate StartsLegAt(ts: seq<Transition>, i: nat, row: Row)
    requires i < |ts|
  {
    ApplyAll(ts[..i], row).bbox == NoLeg && ApplyAll(ts[..i + 1], row).bbox != NoLeg
  }

  lemma LegStartsAtMostOnce(ts: seq<Transition>, i: nat, j: nat, key: Option<string>, submittedAt: int)
    requires i < |ts| && j < |ts|
    requires StartsLegAt(ts, i, FreshRow(key, submittedAt)) && StartsLegAt(ts, j, FreshRow(key, submittedAt))
    ensures i == j
  {
    if i < j {
      assert ts[..j][..i + 1] == ts[..i + 1];
      HistoryAbsorbs(ts[..j], i + 1, key, submittedAt);
    } else if j < i {
      assert ts[..i][..j + 1] == ts[..j + 1];
      HistoryAbsorbs(ts[..i], j + 1, key, submittedAt);
    }
  }

  // ---- The reapers' queries ----------------------------------------------

  predicate StaleRunning(row: Row, now: int, lease: int) {
    row.status == Running && OlderThan(row.startedAt, now - Max(0, lease))
  }

  predicate StaleQueued(row: Row, now: int, olderThan: int) {
    row.status == Queued &&
    (if row.startedAt.Some? then row.startedAt.value else row.submittedAt) < now - Max(0, olderThan)
  }

  predicate StaleBboxRefining(row: Row, now: int, lease: int) {
    row.bbox == BboxRunning && OlderThan(row.bboxStartedAt, now - Max(0, lease))
  }

  predicate PendingBboxRevive(row: Row, now: int, pendingThreshold: int, bboxLease: int) {
    && row.status == Succeeded
    && row.bbox == BboxPending
    && (if row.bboxStartedAt.None? then OlderThan(row.finishedAt, now - Max(0, pendingThreshold))
        else OlderThan(row.bboxStartedAt, now - Max(0, bboxLease)))
  }

  /** The thresholds the two reapers are configured with. */
  datatype Reaper = Reaper(runLease: int, queuedThreshold: int, bboxLease: int, pendingThreshold: int)

  predicate Found(row: Row, now: int, c: Reaper) {
    || StaleRunning(row, now, c.runLease)
    || StaleQueued(row, now, c.queuedThreshold)
    || StaleBboxRefining(row, now, c.bboxLease)
    || PendingBboxRevive(row, now, c.pendingThreshold, c.bboxLease)
  }

  /** Every time stamp a query or a lease check reads. */
  predicate StampsAtMost(row: Row, bound: int) {
    && row.submittedAt <= bound
    && (row.startedAt.Some? ==> row.startedAt.value <= bound)
    && (row.finishedAt.Some? ==> row.finishedAt.value <= bound)
    && (row.bboxStartedAt.Some? ==> row.bboxStartedAt.value <= bound)
  }

  function Longest(c: Reaper): int {
    Max(0, Max(Max(c.runLease, c.queuedThreshold), Max(c.bboxLease, c.pendingThreshold)))
  }

  /** Once a reader's clock has passed the row's stamps by the longest threshold, the four
      queries together return exactly the rows that still need work. */
  lemma FoundIffUnsettled(row: Row, bound: int, now: int, c: Reaper)
    requires WellFormed(row) && StampsAtMost(row, bound)
    requires now > bound + Longest(c)
    ensures Found(row, now, c) <==> !Settled(row)
  {
  }

  /** Until some call changes it, a row a query returned stays returned, and the claim the
      republished event leads to matches, at every later clock reading. */
  lemma FoundStaysClaimable(row: Row, now: int, later: int, c: Reaper)
    requires WellFormed(row) && now <= later
    ensures Found(row, now, c) ==> Found(row, later, c)
    ensures Found(row, now, c) ==>
              Where(MarkRunning(later, c.runLease), row) || Where(ClaimBbox(later, c.bboxLease), row)
    ensures StaleRunning(row, now, c.runLease) || StaleQueued(row, now, c.queuedThreshold) ==>
              Where(MarkRunning(later, c.runLease), row)
    ensures StaleBboxRefining(row, now, c.bboxLease) || PendingBboxRevive(row, now, c.pendingThreshold, c.bboxLease) ==>
              Where(ClaimBbox(later, c.bboxLease), row)
  {
  }
}
