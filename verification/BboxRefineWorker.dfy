/** The worker's `_process` as the straight-line code it is, on a table nobody else touches
    meanwhile. Interleavings are the protocol's business; the contract ties the code to it. */
module BboxRefineWorker {
  import opened Wrappers
  import opened ExtractionRows
  import opened ExtractionRepository
  import opened LeaseProtocol
  import opened LeaseTheorems

  /** What the refiner answers, and what the webhook call does: both are oracles. */
  datatype Work = Replies(reply: nat) | Fails(permanent: bool)
  datatype Webhook = Returns | Raises(permanent: bool)

  /** The protocol steps of one call, by what its oracles did. */
  function Plan(w: nat, now: int, error: Error, work: Work, webhook: Webhook): seq<Label> {
    [Deliver(w, now)] + ([TryClaim(w)] + PlanAfterClaim(w, now, error, work, webhook))
  }

  function PlanAfterClaim(w: nat, now: int, error: Error, work: Work, webhook: Webhook): seq<Label> {
    match work
    case Fails(permanent) => [WorkFails(w, permanent)] + ([TryFailOrRequeue(w, now, error)] + [])
    case Replies(reply) => [TryComplete(w, reply, now)] + AfterComplete(w, now, error, webhook)
  }

  function AfterComplete(w: nat, now: int, error: Error, webhook: Webhook): seq<Label> {
    match webhook
    case Returns => [WebhookReturns(w)] + []
    case Raises(permanent) => [WebhookRaises(w, permanent)] + ([TryFailOrRequeue(w, now, error)] + [])
  }

  /** The row one undisturbed call leaves behind: grounded, failed or pending again. */
  function RowAfter(c: Config, row: Row, now: int, error: Error, work: Work): Row
    requires row.result.Some?
  {
    EndRow(c, Set(ClaimBbox(now, c.lease), row), now, error, work)
  }

  function EndRow(c: Config, claimed: Row, now: int, error: Error, work: Work): Row
    requires claimed.result.Some?
  {
    match work
    case Replies(reply) => Set(CompleteBbox(now, Grounded(claimed.result.value, reply)), claimed)
    case Fails(permanent) =>
      if permanent || claimed.bboxAttempts >= c.maxAttempts then Set(FailBbox(now, error), claimed)
      else Set(RequeueBbox, claimed)
  }

  /** That row, column by column: the claim is stamped and counted; a refined leg gets its result, a
      failed one its error and one put back neither; the main leg's columns are left alone. */
  lemma RowAfterTold(c: Config, row: Row, now: int, error: Error, work: Work)
    requires row.result.Some?
    ensures var after := RowAfter(c, row, now, error, work);
      && after.bboxAttempts == row.bboxAttempts + 1 && after.bboxStartedAt == Some(now)
      && after == row.(bbox := after.bbox, bboxAttempts := after.bboxAttempts, bboxStartedAt := after.bboxStartedAt,
                       bboxFinishedAt := after.bboxFinishedAt, bboxError := after.bboxError, result := after.result)
      && (work.Replies? ==>
            after.bbox == BboxSucceeded && after.result == Some(Grounded(row.result.value, work.reply)) &&
            after.bboxFinishedAt == Some(now) && after.bboxError == None)
      && (work.Fails? ==> after.result == row.result)
      && (work.Fails? && (work.permanent || row.bboxAttempts + 1 >= c.maxAttempts) ==>
            after.bbox == BboxFailed && after.bboxFinishedAt == Some(now) && after.bboxError == Some(error))
      && (work.Fails? && !work.permanent && row.bboxAttempts + 1 < c.maxAttempts ==>
            after.bbox == BboxPending && after.bboxFinishedAt == row.bboxFinishedAt &&
            after.bboxError == row.bboxError)
  {
  }

  /** Handles one delivered event. `entered` tells whether the completion webhook was called,
      `republish` whether a delayed publication was scheduled. Once the webhook is entered
      nothing it does, raising included, moves the leg or its result. */
  method Process(repository: Repository, id: string, now: int, c: Config, work: Work, webhook: Webhook, error: Error)
    returns (entered: bool, republish: bool)
    requires repository.Valid()
    modifies repository
    ensures repository.Valid()
    ensures var before := old(repository.rows);
      if id in before && Where(ClaimBbox(now, c.lease), before[id]) then
        && repository.rows == before[id := RowAfter(c, before[id], now, error, work)]
        && entered == work.Replies?
        && republish == (repository.rows[id].bbox == BboxPending)
      else
        repository.rows == before && !entered && !republish
  {
    entered, republish := false, false;
    var row := repository.Get(id);
    if row.None? {
      return;
    }
    var claimed := repository.ClaimBboxRefinement(id, now, c.lease);
    if claimed.None? {
      return;
    }
    entered, republish := RefineClaimed(repository, id, claimed.value, now, c, work, webhook, error);
  }

  /** The `try` block and its `except` branch, once the claim is won. */
  method RefineClaimed(repository: Repository, id: string, claimed: Row, now: int, c: Config,
                       work: Work, webhook: Webhook, error: Error)
    returns (entered: bool, republish: bool)
    requires repository.Valid() && id in repository.rows && repository.rows[id] == claimed
    requires claimed.status == Succeeded && claimed.bbox == BboxRunning && claimed.bboxAttempts >= 1
    modifies repository
    ensures repository.Valid() && entered == work.Replies?
    ensures repository.rows == old(repository.rows)[id := EndRow(c, claimed, now, error, work)]
    ensures republish == (repository.rows[id].bbox == BboxPending)
  {
    entered, republish := false, false;
    var attempts := if claimed.bboxAttempts == 0 then 1 else claimed.bboxAttempts;
    var raised: Option<bool> := None;
    match work {
      case Fails(permanent) =>
        raised := Some(permanent);
      case Replies(reply) =>
        var refined := Grounded(claimed.result.value, reply);
        var finalised := repository.CompleteBboxRefinement(id, now, refined);
        if finalised.None? {
          return;
        }
        entered := true;
        raised := match webhook case Returns => None case Raises(permanent) => Some(permanent);
    }
    if raised.Some? {
      republish := HandleFailure(repository, id, now, attempts, c, raised.value, error);
    }
  }

  /** The `except` branch: fail for good or put the leg back, unless it is no longer running. */
  method HandleFailure(repository: Repository, id: string, now: int, attempts: nat, c: Config, permanent: bool,
                       error: Error)
    returns (republish: bool)
    requires repository.Valid()
    modifies repository
    ensures repository.Valid()
    ensures var before := old(repository.rows);
      if id in before && before[id].bbox == BboxRunning then
        && repository.rows == before[id :=
             if permanent || attempts >= c.maxAttempts then Set(FailBbox(now, error), before[id])
                                           else Set(RequeueBbox, before[id])]
        && republish == !(permanent || attempts >= c.maxAttempts)
      else
        repository.rows == before && !republish
  {
    republish := false;
    if permanent || attempts >= c.maxAttempts {
      var failed := repository.FailBboxRefinement(id, now, error.code, error.message);
    } else {
      var requeued := repository.RequeueBboxRefinement(id);
      republish := requeued.Some?;
    }
  }

  /** The code and the protocol agree: the labelled steps of one undisturbed call, taken from
      any well-formed state whose claim matches, end with the row `Process` leaves, one webhook
      entry exactly when it reports one, and one publication exactly when it reports one. */
  lemma ProcessIsTheProtocol(c: Config, s: State, w: nat, now: int, error: Error, work: Work, webhook: Webhook)
    returns (t: State)
    requires w !in s.workers && s.bus > 0 && s.now == now && WellFormed(s.row) && Where(ClaimBbox(now, c.lease), s.row)
    ensures Reaches(c, s, Plan(w, now, error, work, webhook), t)
    ensures t.row == RowAfter(c, s.row, now, error, work)
    ensures t.log.webhooks == s.log.webhooks + Indicator(work.Replies?)
    ensures t.outbox == s.outbox + Indicator(t.row.bbox == BboxPending)
  {
    var s2 := Claimant(c, s, w, now);
    t := WorkRun(c, s2, w, now, error, work, webhook);
    ClaimFirst(c, s, w, now, s2, PlanAfterClaim(w, now, error, work, webhook), t);
  }

  /** The state once the delivered event's claim is won. */
  lemma Claimant(c: Config, s: State, w: nat, now: int) returns (s2: State)
    requires w !in s.workers && s.bus > 0 && s.now == now && WellFormed(s.row) && Where(ClaimBbox(now, c.lease), s.row)
    ensures Enabled(c, s, Deliver(w, now)) && Enabled(c, Next(c, s, Deliver(w, now)), TryClaim(w))
    ensures s2 == Next(c, Next(c, s, Deliver(w, now)), TryClaim(w))
    ensures s2.row == Set(ClaimBbox(now, c.lease), s.row) && s2.now == now
    ensures w in s2.workers && s2.workers[w] == Working(Claim(s.row.bboxAttempts + 1, s.row.result, now, now))
    ensures s2.outbox == s.outbox && s2.log.webhooks == s.log.webhooks
  {
    s2 := Next(c, Next(c, s, Deliver(w, now)), TryClaim(w));
  }

  lemma ClaimFirst(c: Config, s: State, w: nat, now: int, s2: State, rest: seq<Label>, t: State)
    requires Enabled(c, s, Deliver(w, now)) && Enabled(c, Next(c, s, Deliver(w, now)), TryClaim(w))
    requires s2 == Next(c, Next(c, s, Deliver(w, now)), TryClaim(w)) && Reaches(c, s2, rest, t)
    ensures Reaches(c, s, [Deliver(w, now)] + ([TryClaim(w)] + rest), t)
  {
    var s1 := Next(c, s, Deliver(w, now));
    ReachesFirst(c, s1, TryClaim(w), rest, t);
    ReachesFirst(c, s, Deliver(w, now), [TryClaim(w)] + rest, t);
  }

  lemma WorkRun(c: Config, s: State, w: nat, now: int, error: Error, work: Work, webhook: Webhook) returns (t: State)
    requires w in s.workers && s.workers[w].Working? && s.now == now
    requires s.row.status == Succeeded && s.row.bbox == BboxRunning && s.row.result.Some?
    requires s.workers[w].claim.base == s.row.result && s.workers[w].claim.attempt == s.row.bboxAttempts
    ensures Reaches(c, s, PlanAfterClaim(w, now, error, work, webhook), t)
    ensures t.row == EndRow(c, s.row, now, error, work)
    ensures t.log.webhooks == s.log.webhooks + Indicator(work.Replies?)
    ensures t.outbox == s.outbox + Indicator(t.row.bbox == BboxPending)
  {
    match work {
      case Fails(permanent) => t := FailureRun(c, s, w, now, error, permanent);
      case Replies(reply) => t := ReplyRun(c, s, w, now, error, reply, webhook);
    }
  }

  lemma FailureRun(c: Config, s: State, w: nat, now: int, error: Error, permanent: bool) returns (t: State)
    requires w in s.workers && s.workers[w].Working? && s.now == now
    requires s.row.status == Succeeded && s.row.bbox == BboxRunning
    ensures Reaches(c, s, [WorkFails(w, permanent)] + ([TryFailOrRequeue(w, now, error)] + []), t)
    ensures t.row == (if permanent || s.workers[w].claim.attempt >= c.maxAttempts then Set(FailBbox(now, error), s.row)
                      else Set(RequeueBbox, s.row))
    ensures t.log.webhooks == s.log.webhooks && t.outbox == s.outbox + Indicator(t.row.bbox == BboxPending)
  {
    var s3 := Next(c, s, WorkFails(w, permanent));
    t := Next(c, s3, TryFailOrRequeue(w, now, error));
    ReachesFirst(c, s3, TryFailOrRequeue(w, now, error), [], t);
    ReachesFirst(c, s, WorkFails(w, permanent), [TryFailOrRequeue(w, now, error)] + [], t);
  }

  lemma ReplyRun(c: Config, s: State, w: nat, now: int, error: Error, reply: nat, webhook: Webhook) returns (t: State)
    requires w in s.workers && s.workers[w].Working? && s.now == now && s.workers[w].claim.base.Some?
    requires s.row.status == Succeeded && s.row.bbox == BboxRunning
    ensures Reaches(c, s, [TryComplete(w, reply, now)] + AfterComplete(w, now, error, webhook), t)
    ensures t.row == Set(CompleteOf(s.workers[w].claim, reply, now), s.row)
    ensures t.log.webhooks == s.log.webhooks + 1 && t.outbox == s.outbox
  {
    var s3 := Next(c, s, TryComplete(w, reply, now));
    t := WebhookRun(c, s3, w, now, error, webhook);
    ReachesFirst(c, s, TryComplete(w, reply, now), AfterComplete(w, now, error, webhook), t);
  }

  /** Nothing the webhook does moves the leg. */
  lemma WebhookRun(c: Config, s: State, w: nat, now: int, error: Error, webhook: Webhook) returns (t: State)
    requires w in s.workers && s.workers[w].Delivering? && s.now == now && s.row.bbox == BboxSucceeded
    ensures Reaches(c, s, AfterComplete(w, now, error, webhook), t)
    ensures t.row == s.row && t.log.webhooks == s.log.webhooks && t.outbox == s.outbox
  {
    match webhook {
      case Returns =>
        t := Next(c, s, WebhookReturns(w));
        ReachesFirst(c, s, WebhookReturns(w), [], t);
      case Raises(permanent) =>
        var s4 := Next(c, s, WebhookRaises(w, permanent));
        t := Next(c, s4, TryFailOrRequeue(w, now, error));
        ReachesFirst(c, s4, TryFailOrRequeue(w, now, error), [], t);
        ReachesFirst(c, s, WebhookRaises(w, permanent), [TryFailOrRequeue(w, now, error)] + [], t);
    }
  }
}
