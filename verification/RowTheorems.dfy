/** What the two legs of a row owe to the calls in its history, told by the row's columns alone. */
module RowTheorems {
  import opened Wrappers
  import opened ExtractionRows

  /** The row after the first `i` calls. */
  function RowAt(ts: seq<Transition>, i: nat, key: Option<string>, submittedAt: int): Row
    requires i <= |ts|
  {
    ApplyAll(ts[..i], FreshRow(key, submittedAt))
  }

  /** Call `i` took effect: it left another row. */
  predicate Fired(ts: seq<Transition>, i: nat, key: Option<string>, submittedAt: int)
    requires i < |ts|
  {
    RowAt(ts, i + 1, key, submittedAt) != RowAt(ts, i, key, submittedAt)
  }

  lemma OneCall(ts: seq<Transition>, i: nat, key: Option<string>, submittedAt: int)
    requires i < |ts|
    ensures RowAt(ts, i + 1, key, submittedAt) == Apply(ts[i], RowAt(ts, i, key, submittedAt))
  {
    assert ts[..i + 1][..i] == ts[..i];
  }

  // ---- The main leg's lease ------------------------------------------------

  /** How the row stands as long as nothing requeues it after a claim at clock reading `since`. */
  predicate ClaimedSince(row: Row, since: int) {
    Terminal(row.status) || (row.status == Running && row.startedAt.Some? && row.startedAt.value >= since)
  }

  lemma {:induction false} StaysClaimed(ts: seq<Transition>, i: nat, j: nat, key: Option<string>, submittedAt: int)
    requires i < j <= |ts| && ts[i].MarkRunning? && Fired(ts, i, key, submittedAt)
    requires forall k :: i < k < j && ts[k].RequeueForRetry? ==> !Fired(ts, k, key, submittedAt)
    ensures ClaimedSince(RowAt(ts, j, key, submittedAt), ts[i].now)
  {
    OneCall(ts, j - 1, key, submittedAt);
    if j != i + 1 {
      StaysClaimed(ts, i, j - 1, key, submittedAt);
    }
  }

  /** Two claims of the main leg with no requeue between them are more than the later one's lease apart. */
  lemma RunLeaseIsRespected(ts: seq<Transition>, i: nat, j: nat, key: Option<string>, submittedAt: int)
    requires i < j < |ts| && ts[i].MarkRunning? && ts[j].MarkRunning?
    requires Fired(ts, i, key, submittedAt) && Fired(ts, j, key, submittedAt)
    requires forall k :: i < k < j && ts[k].RequeueForRetry? ==> !Fired(ts, k, key, submittedAt)
    ensures ts[j].now - ts[i].now > (if ts[j].lease > 0 then ts[j].lease else 0)
  {
    StaysClaimed(ts, i, j, key, submittedAt);
    OneCall(ts, j, key, submittedAt);
  }

  // ---- What the counters and stamps count ----------------------------------

  /** The calls of a kind that took effect, up to the `n`-th. */
  function Effective(ts: seq<Transition>, n: nat, kind: Transition -> bool, key: Option<string>,
                     submittedAt: int): (calls: seq<nat>)
    requires n <= |ts|
    ensures |calls| > 0 ==> calls[|calls| - 1] < n && kind(ts[calls[|calls| - 1]])
  {
    if n == 0 then []
    else
      var front := Effective(ts, n - 1, kind, key, submittedAt);
      if kind(ts[n - 1]) && Fired(ts, n - 1, key, submittedAt) then front + [n - 1] else front
  }

  function IsRun(t: Transition): bool { t.MarkRunning? }

  function IsClaim(t: Transition): bool { t.ClaimBbox? }

  /** When the last of these calls was made, by its caller's clock. */
  function LastReading(ts: seq<Transition>, calls: seq<nat>): Option<int>
    requires |calls| > 0 ==> calls[|calls| - 1] < |ts|
    requires |calls| > 0 ==> ts[calls[|calls| - 1]].MarkRunning? || ts[calls[|calls| - 1]].ClaimBbox?
  {
    if |calls| == 0 then None else Some(ts[calls[|calls| - 1]].now)
  }

  /** One call counts as an attempt on a leg, and stamps it, iff it is a claim of that leg that takes effect. */
  lemma CountedOnce(row: Row, t: Transition)
    ensures var next := Apply(t, row);
      && (if t.MarkRunning? && next != row then next.attempts == row.attempts + 1 && next.startedAt == Some(t.now)
          else next.attempts == row.attempts && next.startedAt == row.startedAt)
      && (if t.ClaimBbox? && next != row
          then next.bboxAttempts == row.bboxAttempts + 1 && next.bboxStartedAt == Some(t.now)
          else next.bboxAttempts == row.bboxAttempts && next.bboxStartedAt == row.bboxStartedAt)
  {
  }

  /** `attempts` counts the claims of the main leg that took effect, and `startedAt` is the clock
      reading of the last of them. */
  lemma {:induction false} AttemptsCountRuns(ts: seq<Transition>, n: nat, key: Option<string>, submittedAt: int)
    requires n <= |ts|
    ensures var row, runs := RowAt(ts, n, key, submittedAt), Effective(ts, n, IsRun, key, submittedAt);
      row.attempts == |runs| && row.startedAt == LastReading(ts, runs)
  {
    if n == 0 {
      assert |ts[..0]| == 0;
    } else {
      AttemptsCountRuns(ts, n - 1, key, submittedAt);
      OneCall(ts, n - 1, key, submittedAt);
      CountedOnce(RowAt(ts, n - 1, key, submittedAt), ts[n - 1]);
    }
  }

  /** The same for the claims of the grounding leg. */
  lemma {:induction false} AttemptsCountClaims(ts: seq<Transition>, n: nat, key: Option<string>, submittedAt: int)
    requires n <= |ts|
    ensures var row, claims := RowAt(ts, n, key, submittedAt), Effective(ts, n, IsClaim, key, submittedAt);
      row.bboxAttempts == |claims| && row.bboxStartedAt == LastReading(ts, claims)
  {
    if n == 0 {
      assert |ts[..0]| == 0;
    } else {
      AttemptsCountClaims(ts, n - 1, key, submittedAt);
      OneCall(ts, n - 1, key, submittedAt);
      CountedOnce(RowAt(ts, n - 1, key, submittedAt), ts[n - 1]);
    }
  }

  /** The grounding leg's claims keep their lease alike. */
  predicate GroundingSince(row: Row, since: int) {
    BboxTerminal(row.bbox) || (row.bbox == BboxRunning && row.bboxStartedAt.Some? && row.bboxStartedAt.value >= since)
  }

  lemma {:induction false} StaysGrounding(ts: seq<Transition>, i: nat, j: nat, key: Option<string>, submittedAt: int)
    requires i < j <= |ts| && ts[i].ClaimBbox? && Fired(ts, i, key, submittedAt)
    requires forall k :: i < k < j && ts[k].RequeueBbox? ==> !Fired(ts, k, key, submittedAt)
    ensures RowAt(ts, j, key, submittedAt).status == Succeeded
    ensures GroundingSince(RowAt(ts, j, key, submittedAt), ts[i].now)
  {
    OneCall(ts, j - 1, key, submittedAt);
    if j != i + 1 {
      StaysGrounding(ts, i, j - 1, key, submittedAt);
    }
  }

  lemma ClaimLeaseIsRespected(ts: seq<Transition>, i: nat, j: nat, key: Option<string>, submittedAt: int)
    requires i < j < |ts| && ts[i].ClaimBbox? && ts[j].ClaimBbox?
    requires Fired(ts, i, key, submittedAt) && Fired(ts, j, key, submittedAt)
    requires forall k :: i < k < j && ts[k].RequeueBbox? ==> !Fired(ts, k, key, submittedAt)
    ensures ts[j].now - ts[i].now > (if ts[j].lease > 0 then ts[j].lease else 0)
  {
    StaysGrounding(ts, i, j, key, submittedAt);
    OneCall(ts, j, key, submittedAt);
  }
}
