/** What every execution of the grounding leg keeps, and exactly when its lease is a lock. */
module LeaseTheorems {
  import opened Wrappers
  import opened ExtractionRows
  import opened LeaseProtocol

  // ---- With no timing assumption -------------------------------------------

  lemma BoundedSubsetSize(s: set<nat>, n: nat)
    requires forall a :: a in s ==> 1 <= a <= n
    ensures |s| <= n
  {
    if n == 0 {
      assert s == {};
    } else {
      BoundedSubsetSize(s - {n}, n - 1);
    }
  }

  /** Claims = request + requeues + takeovers, less the one still owed while the leg is pending;
      the k-th claim carries attempt k; the requeue budget is `maxAttempts - 1`, so only takeovers
      can push the attempts past the configured maximum (`TakeoversAreUnbounded`: as far as you like). */
  lemma RetryLedger(c: Config, ss: seq<State>, ls: seq<Label>, i: nat)
    requires Behaviour(c, ss, ls) && i < |ss|
    ensures var log, row := ss[i].log, ss[i].row;
      && (row.bbox != NoLeg ==> |log.claims| == 1 + log.requeues + log.reclaims - Indicator(row.bbox == BboxPending))
      && (row.bbox == NoLeg ==> log.claims == [] && log.requeues == log.reclaims == 0)
      && |log.claims| == row.bboxAttempts
      && (forall k :: 0 <= k < |log.claims| ==> log.claims[k] == k + 1)
      && log.requeues <= Max(0, c.maxAttempts - 1)
      && |log.claims| <= Max(1, c.maxAttempts) + log.reclaims
  {
    BehaviourKeepsInv(c, ss, ls, i);
    var requeuers := ss[i].log.requeuers;
    if c.maxAttempts <= 1 {
      BoundedSubsetSize(requeuers, 0);
    } else {
      BoundedSubsetSize(requeuers, c.maxAttempts - 1);
    }
  }

  /** A finished leg is never written again, whatever stale claimants, late webhook errors and
      redeliveries follow. */
  lemma {:induction false} FinishedLegIsFrozen(c: Config, ss: seq<State>, ls: seq<Label>, i: nat, j: nat)
    requires Behaviour(c, ss, ls) && i <= j < |ss|
    requires BboxTerminal(ss[i].row.bbox)
    ensures ss[j].row == ss[i].row && ss[j].log.webhooks == ss[i].log.webhooks
    ensures ss[j].log.outcomes == ss[i].log.outcomes
  {
    if i < j {
      FinishedLegIsFrozen(c, ss, ls, i, j - 1);
      BehaviourKeepsInv(c, ss, ls, j - 1);
      var s, l := ss[j - 1], ls[j - 1];
      FinishedLegStep(c, s, l);
      assert ss[j] == Next(c, s, l);
    }
  }

  lemma FinishedLegStep(c: Config, s: State, l: Label)
    requires Inv(c, s) && Enabled(c, s, l) && BboxTerminal(s.row.bbox)
    ensures Next(c, s, l).row == s.row
    ensures Next(c, s, l).log.webhooks == s.log.webhooks && Next(c, s, l).log.outcomes == s.log.outcomes
  {
  }

  /** At most one complete-or-fail ever takes effect and the completion webhook is entered at
      most once, only for a grounded result; the stored result is what the main leg's success
      wrote, or a grounding computed from exactly that. */
  lemma ExactlyOnceOutcome(c: Config, ss: seq<State>, ls: seq<Label>, i: nat)
    requires Behaviour(c, ss, ls) && i < |ss|
    ensures var log, row := ss[i].log, ss[i].row;
      && (log.outcomes == 1 <==> BboxTerminal(row.bbox)) && log.outcomes <= 1
      && log.webhooks <= 1 && (log.webhooks == 1 ==> row.bbox == BboxSucceeded)
      && (row.status == Succeeded <==> log.main.Some?)
      && (row.bbox != BboxSucceeded ==> row.result == log.main)
      && (row.bbox == BboxSucceeded ==>
            log.main.Some? && exists reply :: row.result == Some(Grounded(log.main.value, reply)))
  {
    BehaviourKeepsInv(c, ss, ls, i);
    var row := ss[i].row;
    if row.bbox == BboxSucceeded {
      assert row.result == Some(Grounded(ss[i].log.main.value, row.result.value.reply));
    }
  }

  /** From every reachable state, as soon as a reader's clock has moved past the present by the
      skew and the longest threshold, the four reaper queries return the row exactly when some
      leg of it is unfinished, and the claim its event leads to matches at any later time. */
  lemma NoOrphanIsInvisible(c: Config, ss: seq<State>, ls: seq<Label>, i: nat, reapers: Reaper, reading: int,
                            later: int)
    requires Behaviour(c, ss, ls) && i < |ss|
    requires ss[i].now + c.skew + Longest(reapers) < reading <= later
    ensures Found(ss[i].row, reading, reapers) <==> !Settled(ss[i].row)
    ensures !Settled(ss[i].row) ==>
              Where(MarkRunning(later, reapers.runLease), ss[i].row) ||
                  Where(ClaimBbox(later, reapers.bboxLease), ss[i].row)
  {
    BehaviourKeepsInv(c, ss, ls, i);
    FoundIffUnsettled(ss[i].row, ss[i].now + c.skew, reading, reapers);
    FoundStaysClaimable(ss[i].row, reading, later, reapers);
  }

  /** Taking the steps `ls` one after the other leads from `s` to `t`. */
  ghost predicate Reaches(c: Config, s: State, ls: seq<Label>, t: State)
    decreases |ls|
  {
    if |ls| == 0 then s == t
    else Enabled(c, s, ls[0]) && Reaches(c, Next(c, s, ls[0]), ls[1..], t)
  }

  lemma ReachesFirst(c: Config, s: State, l: Label, ls: seq<Label>, t: State)
    requires Enabled(c, s, l) && Reaches(c, Next(c, s, l), ls, t)
    ensures Reaches(c, s, [l] + ls, t)
  {
    assert ([l] + ls)[1..] == ls;
  }

  lemma {:induction false} FreshWorker(s: set<nat>) returns (w: nat)
    ensures forall v :: v in s ==> v < w
    decreases |s|
  {
    if s == {} {
      w := 0;
    } else {
      var v :| v in s;
      var u := FreshWorker(s - {v});
      w := Max(u, v + 1);
      assert forall x :: x in s ==> x == v || x in s - {v};
    }
  }

  /** A sweep once every stamp is old, its event delivered to worker `w`, which claims and completes. */
  function RecoveryPlan(d: nat, w: nat, r: int, reply: nat): seq<Label> {
    SweepPlan(d, w, r, GroundingPlan(w, r, reply))
  }

  function SweepPlan(d: nat, w: nat, r: int, rest: seq<Label>): seq<Label> {
    [Tick(d)] + ([Sweep(r)] + ([Deliver(w, r)] + rest))
  }

  function GroundingPlan(w: nat, r: int, reply: nat): seq<Label> {
    [TryClaim(w)] + ([TryComplete(w, reply, r)] + [])
  }

  /** Recovery needs only a reaper and one worker: from every reachable state with an open leg,
      with every event and publication lost and every claimant crashed or asleep, one sweep
      publishes, its event is delivered, and the leg can be finished, with any refinement reply,
      and the webhook entered. */
  lemma OpenLegIsRecoverable(c: Config, ss: seq<State>, ls: seq<Label>, i: nat, reply: nat)
    returns (d: nat, w: nat, r: int, t: State)
    requires Behaviour(c, ss, ls) && i < |ss|
    requires ss[i].row.bbox == BboxPending || ss[i].row.bbox == BboxRunning
    ensures ss[i].log.main.Some? && Reaches(c, ss[i], RecoveryPlan(d, w, r, reply), t)
    ensures t.row.bbox == BboxSucceeded && t.row.result == Some(Grounded(ss[i].log.main.value, reply))
    ensures t.log.webhooks == ss[i].log.webhooks + 1 == 1
  {
    BehaviourKeepsInv(c, ss, ls, i);
    var s := ss[i];
    w := FreshWorker(s.workers.Keys);
    d := c.skew + c.lease + c.pendingThreshold + 1;
    r := s.now + d;
    OpenLegFacts(c, s, r);
    t := SweptLegIsGrounded(c, s, w, d, reply);
  }

  /** And nothing less may be counted on: in every state all that is in flight (publications, events and
      claimants) can be lost at once, with the row, the clock and the log as they were. */
  lemma {:induction false} EverythingMayBeLost(c: Config, s: State) returns (ls: seq<Label>, t: State)
    ensures Reaches(c, s, ls, t)
    ensures t == s.(outbox := 0, bus := 0, workers := map[])
    decreases s.outbox + s.bus + |s.workers|
  {
    if s.outbox > 0 {
      ls, t := LoseFirst(c, s, DropPublication);
    } else if s.bus > 0 {
      ls, t := LoseFirst(c, s, LoseEvent);
    } else if s.workers.Keys != {} {
      var w :| w in s.workers;
      OneWorkerLess(s.workers, w);
      ls, t := LoseFirst(c, s, Crash(w));
    } else {
      ls, t := [], s;
    }
  }

  lemma {:induction false} LoseFirst(c: Config, s: State, l: Label) returns (ls: seq<Label>, t: State)
    requires Enabled(c, s, l) && (l == DropPublication || l == LoseEvent || l.Crash?)
    requires var n := Next(c, s, l); n.outbox + n.bus + |n.workers| < s.outbox + s.bus + |s.workers|
    ensures Reaches(c, s, ls, t)
    ensures t == s.(outbox := 0, bus := 0, workers := map[])
    decreases s.outbox + s.bus + |s.workers|, 0
  {
    var rest;
    rest, t := EverythingMayBeLost(c, Next(c, s, l));
    ReachesFirst(c, s, l, rest, t);
    ls := [l] + rest;
  }

  lemma OneWorkerLess(workers: map<nat, Phase>, w: nat)
    requires w in workers
    ensures |workers - {w}| < |workers|
  {
    assert (workers - {w}).Keys == workers.Keys - {w};
  }

  /** What is known of an open leg, and that its claim matches once every stamp is old. */
  lemma OpenLegFacts(c: Config, s: State, r: int)
    requires Inv(c, s) && (s.row.bbox == BboxPending || s.row.bbox == BboxRunning) && r > s.now + c.skew + c.lease
    ensures s.row.status == Succeeded && s.row.result.Some? && s.row.result == s.log.main && s.log.webhooks == 0
    ensures Where(ClaimBbox(r, c.lease), s.row)
  {
  }

  lemma SweptLegIsGrounded(c: Config, s: State, w: nat, d: nat, reply: nat) returns (t: State)
    requires WellFormed(s.row) && StampsAtMost(s.row, s.now + c.skew) && w !in s.workers
    requires s.row.bbox == BboxPending || s.row.bbox == BboxRunning
    requires d == c.skew + c.lease + c.pendingThreshold + 1
    requires s.row.status == Succeeded && s.row.result.Some? && Where(ClaimBbox(s.now + d, c.lease), s.row)
    ensures Reaches(c, s, RecoveryPlan(d, w, s.now + d, reply), t)
    ensures t.row.bbox == BboxSucceeded && t.row.result == Some(Grounded(s.row.result.value, reply))
    ensures t.log.webhooks == s.log.webhooks + 1
  {
    var r := s.now + d;
    var s3 := s.(now := r, workers := s.workers[w := Reading(r, r)]);
    assert s3.workers[w] == Reading(s3.now, s3.now) && s3.row == s.row && s3.log == s.log;
    t := WorkerGrounds(c, s3, w, reply);
    SweepReachesWorker(c, s, w, d, s3, GroundingPlan(w, r, reply), t);
  }

  /** Once every stamp is old the sweep finds the leg, and its event can be delivered. */
  lemma SweepDelivers(c: Config, s: State, w: nat, d: nat) returns (s1: State, s2: State)
    requires WellFormed(s.row) && StampsAtMost(s.row, s.now + c.skew) && w !in s.workers
    requires s.row.bbox == BboxPending || s.row.bbox == BboxRunning
    requires d == c.skew + c.lease + c.pendingThreshold + 1
    ensures s1 == Next(c, s, Tick(d)) && Enabled(c, s1, Sweep(s.now + d)) && s2 == Next(c, s1, Sweep(s.now + d))
    ensures Enabled(c, s2, Deliver(w, s.now + d))
    ensures Next(c, s2, Deliver(w, s.now + d)) ==
            s.(now := s.now + d, workers := s.workers[w := Reading(s.now + d, s.now + d)])
  {
    s1 := Next(c, s, Tick(d));
    s2 := Next(c, s1, Sweep(s.now + d));
  }

  lemma SweepReachesWorker(c: Config, s: State, w: nat, d: nat, s3: State, rest: seq<Label>, t: State)
    requires WellFormed(s.row) && StampsAtMost(s.row, s.now + c.skew) && w !in s.workers
    requires s.row.bbox == BboxPending || s.row.bbox == BboxRunning
    requires d == c.skew + c.lease + c.pendingThreshold + 1
    requires s3 == s.(now := s.now + d, workers := s.workers[w := Reading(s.now + d, s.now + d)])
    requires Reaches(c, s3, rest, t)
    ensures Reaches(c, s, SweepPlan(d, w, s.now + d, rest), t)
  {
    var s1, s2 := SweepDelivers(c, s, w, d);
    ThreeMore(c, s, s1, s2, Tick(d), Sweep(s.now + d), Deliver(w, s.now + d), rest, t);
  }

  lemma ThreeMore(c: Config, s: State, s1: State, s2: State, first: Label, second: Label, third: Label,
                  rest: seq<Label>, t: State)
    requires Enabled(c, s, first) && s1 == Next(c, s, first) && Enabled(c, s1, second) && s2 == Next(c, s1, second)
    requires Enabled(c, s2, third) && Reaches(c, Next(c, s2, third), rest, t)
    ensures Reaches(c, s, [first] + ([second] + ([third] + rest)), t)
  {
    ReachesFirst(c, s2, third, rest, t);
    ReachesFirst(c, s1, second, [third] + rest, t);
    ReachesFirst(c, s, first, [second] + ([third] + rest), t);
  }

  lemma WorkerGrounds(c: Config, s: State, w: nat, reply: nat) returns (t: State)
    requires s.row.status == Succeeded && s.row.result.Some?
    requires w in s.workers && s.workers[w] == Reading(s.now, s.now)
    requires Where(ClaimBbox(s.now, c.lease), s.row)
    ensures Reaches(c, s, GroundingPlan(w, s.now, reply), t)
    ensures t.row.bbox == BboxSucceeded && t.row.result == Some(Grounded(s.row.result.value, reply))
    ensures t.log.webhooks == s.log.webhooks + 1
  {
    var s1 := Next(c, s, TryClaim(w));
    assert s1.workers[w] == Working(Claim(s.row.bboxAttempts + 1, s.row.result, s.now, s.now));
    t := Next(c, s1, TryComplete(w, reply, s.now));
    assert Reaches(c, t, [], t);
    ReachesFirst(c, s1, TryComplete(w, reply, s.now), [], t);
    ReachesFirst(c, s, TryClaim(w), [TryComplete(w, reply, s.now)] + [], t);
  }

  // ---- The lease as a lock -------------------------------------------------

  /** Everyone still alive keeps to its time limits; whoever overruns must have crashed. The
      webhook call after the outcome has no limit. */
  ghost predicate OnTime(c: Config, s: State) {
    forall w :: w in s.workers ==>
      && (s.workers[w].Reading? ==> s.now <= s.workers[w].readAt + c.latency)
      && (Busy(s.workers[w]) ==> s.now <= s.workers[w].claim.committedAt + c.work + c.commit)
  }

  ghost predicate TimedBehaviour(c: Config, ss: seq<State>, ls: seq<Label>) {
    Behaviour(c, ss, ls) && forall i :: 0 <= i < |ss| ==> OnTime(c, ss[i])
  }

  ghost predicate AtMostOneClaimant(s: State) {
    forall v, w :: v in s.workers && w in s.workers && Claimed(s.workers[v]) && Claimed(s.workers[w]) ==> v == w
  }

  ghost predicate NoClaimant(s: State) {
    forall w :: w in s.workers ==> !Claimed(s.workers[w])
  }

  function ActingWorker(l: Label): Option<nat> {
    match l
    case TryComplete(w, _, _) => Some(w)
    case CompleteRaises(w, _, _, _, _) => Some(w)
    case TryFailOrRequeue(w, _, _) => Some(w)
    case _ => None
  }

  /** A step that changes the leg on behalf of a claimant is the current holder's: its attempt
      number is the row's. A claim finds nobody else holding the leg. */
  ghost predicate GuardedStep(c: Config, s: State, l: Label)
    requires Enabled(c, s, l)
  {
    && (l.TryClaim? && Where(ClaimOf(c, s, l.w), s.row) ==> NoClaimant(s))
    && (ActingWorker(l).Some? && Next(c, s, l).row != s.row ==>
          s.workers[ActingWorker(l).value].claim.attempt == s.row.bboxAttempts)
  }

  ghost predicate LeaseHolds(c: Config, ss: seq<State>, ls: seq<Label>)
    requires Behaviour(c, ss, ls)
  {
    && (forall i :: 0 <= i < |ss| ==> AtMostOneClaimant(ss[i]))
    && (forall i :: 0 <= i < |ls| ==> GuardedStep(c, ss[i], ls[i]))
  }

  /** The whole timed window of one claim, as the clocks involved can see it. The claimant's work
      timer starts when the response to its claim arrives, a claimant counts as busy from the
      claim's commit: the lag of that response belongs to `commit`. */
  function Window(c: Config): nat {
    c.latency + c.work + c.commit + 2 * c.skew
  }

  ghost predicate Holds(c: Config, s: State, p: Phase)
    requires Claimed(p)
  {
    BboxTerminal(s.row.bbox) ||
    (&& s.row.bbox == BboxRunning
     && p.claim.attempt == s.row.bboxAttempts
     && s.row.bboxStartedAt == Some(p.claim.reading)
     && p.claim.committedAt <= p.claim.reading + c.skew + c.latency)
  }

  ghost predicate LeaseInv(c: Config, s: State) {
    && Inv(c, s)
    && AtMostOneClaimant(s)
    && forall w :: w in s.workers && Claimed(s.workers[w]) ==> Holds(c, s, s.workers[w])
  }

  /** Inside the window nobody's clock shows the lease expired. */
  lemma ClaimFindsNobody(c: Config, s: State, w: nat)
    requires Window(c) <= c.lease
    requires LeaseInv(c, s) && OnTime(c, s)
    requires Enabled(c, s, TryClaim(w)) && Where(ClaimOf(c, s, w), s.row)
    ensures NoClaimant(s)
  {
    assert PhaseInv(c, s, s.workers[w]);
    forall v | v in s.workers ensures !Claimed(s.workers[v]) {
    }
  }

  lemma LeaseStep(c: Config, s: State, l: Label)
    requires Window(c) <= c.lease
    requires LeaseInv(c, s) && OnTime(c, s) && Enabled(c, s, l)
    ensures GuardedStep(c, s, l)
    ensures LeaseInv(c, Next(c, s, l))
  {
    StepKeepsInv(c, s, l);
    match l
    case TryClaim(w) => LeaseClaimStep(c, s, w);
    case Main(t) => LeaseMainStep(c, s, t);
    case TryComplete(_, _, _) => LeaseCompleteStep(c, s, l);
    case CompleteRaises(_, _, _, _, _) => LeaseCompleteStep(c, s, l);
    case TryFailOrRequeue(w, r, error) => LeaseFailStep(c, s, w, r, error);
    case _ => LeaseQuietStep(c, s, l);
  }

  lemma LeaseMainStep(c: Config, s: State, t: Transition)
    requires LeaseInv(c, s) && Enabled(c, s, Main(t)) && Inv(c, Next(c, s, Main(t)))
    ensures LeaseInv(c, Next(c, s, Main(t)))
  {
    if s.row.bbox != NoLeg {
      assert s.row.status == Succeeded;
    } else {
      assert forall w :: w in s.workers && Claimed(s.workers[w]) ==> PhaseInv(c, s, s.workers[w]);
    }
  }

  lemma LeaseCompleteStep(c: Config, s: State, l: Label)
    requires l.TryComplete? || l.CompleteRaises?
    requires LeaseInv(c, s) && Enabled(c, s, l) && Inv(c, Next(c, s, l))
    ensures GuardedStep(c, s, l) && LeaseInv(c, Next(c, s, l))
  {
    assert Holds(c, s, s.workers[l.w]);
  }

  lemma LeaseFailStep(c: Config, s: State, w: nat, r: int, error: Error)
    requires LeaseInv(c, s) && Enabled(c, s, TryFailOrRequeue(w, r, error))
    requires Inv(c, Next(c, s, TryFailOrRequeue(w, r, error)))
    ensures GuardedStep(c, s, TryFailOrRequeue(w, r, error))
    ensures LeaseInv(c, Next(c, s, TryFailOrRequeue(w, r, error)))
  {
    assert Holds(c, s, s.workers[w]);
  }

  /** The steps that touch neither the row nor any claim. */
  predicate Quiet(l: Label) {
    !l.TryClaim? && !l.Main? && !l.TryComplete? && !l.CompleteRaises? && !l.TryFailOrRequeue?
  }

  lemma LeaseQuietStep(c: Config, s: State, l: Label)
    requires LeaseInv(c, s) && Quiet(l) && Enabled(c, s, l) && Inv(c, Next(c, s, l))
    ensures GuardedStep(c, s, l) && LeaseInv(c, Next(c, s, l))
  {
    if l.Deliver? || l.WorkFails? || l.WebhookReturns? || l.WebhookRaises? || l.Crash? {
      LeaseCallStep(c, s, l);
    } else {
      LeaseEventStep(c, s, l);
    }
  }

  lemma LeaseCallStep(c: Config, s: State, l: Label)
    requires l.Deliver? || l.WorkFails? || l.WebhookReturns? || l.WebhookRaises? || l.Crash?
    requires LeaseInv(c, s) && Enabled(c, s, l) && Inv(c, Next(c, s, l))
    ensures GuardedStep(c, s, l) && LeaseInv(c, Next(c, s, l))
  {
  }

  lemma LeaseEventStep(c: Config, s: State, l: Label)
    requires l.Tick? || l.Publish? || l.DropPublication? || l.DuplicateEvent? || l.LoseEvent? || l.Sweep?
    requires LeaseInv(c, s) && Enabled(c, s, l) && Inv(c, Next(c, s, l))
    ensures GuardedStep(c, s, l) && LeaseInv(c, Next(c, s, l))
  {
  }

  lemma LeaseClaimStep(c: Config, s: State, w: nat)
    requires Window(c) <= c.lease
    requires LeaseInv(c, s) && OnTime(c, s) && Enabled(c, s, TryClaim(w))
    requires Inv(c, Next(c, s, TryClaim(w)))
    ensures GuardedStep(c, s, TryClaim(w))
    ensures LeaseInv(c, Next(c, s, TryClaim(w)))
  {
    if Where(ClaimOf(c, s, w), s.row) {
      ClaimFindsNobody(c, s, w);
      assert PhaseInv(c, s, s.workers[w]);
    }
  }

  lemma {:induction false} TimedBehaviourKeepsLease(c: Config, ss: seq<State>, ls: seq<Label>, i: nat)
    requires Window(c) <= c.lease
    requires TimedBehaviour(c, ss, ls) && i < |ss|
    ensures LeaseInv(c, ss[i])
    ensures i < |ls| ==> GuardedStep(c, ss[i], ls[i])
  {
    if i == 0 {
      BehaviourKeepsInv(c, ss, ls, 0);
    } else {
      TimedBehaviourKeepsLease(c, ss, ls, i - 1);
      LeaseStep(c, ss[i - 1], ls[i - 1]);
    }
    if i < |ls| {
      LeaseStep(c, ss[i], ls[i]);
    }
  }

  /** One more on-time step at the end of an execution. */
  lemma Extend(c: Config, ss: seq<State>, ls: seq<Label>, l: Label) returns (ss': seq<State>, ls': seq<Label>, t: State)
    requires TimedBehaviour(c, ss, ls)
    requires Enabled(c, ss[|ls|], l) && OnTime(c, Next(c, ss[|ls|], l))
    ensures t == Next(c, ss[|ls|], l)
    ensures TimedBehaviour(c, ss', ls') && ss'[|ls'|] == t
  {
    t := Next(c, ss[|ls|], l);
    ss', ls' := ss + [t], ls + [l];
  }

  /** Some execution requests the leg at once and puts two copies of its event on the bus. */
  lemma {:induction false} LegRequestedTwoEvents(c: Config) returns (ss: seq<State>, ls: seq<Label>, s: State)
    ensures TimedBehaviour(c, ss, ls) && ss[|ls|] == s
    ensures s.now == 0 && s.bus == 2 && s.workers == map[] && s.row.bboxAttempts == 0
    ensures s.row.status == Succeeded && s.row.bbox == BboxPending && s.row.result == Some(FromPipeline(0))
    ensures s.log.reclaims == 0
  {
    s := State(0, FreshRow(None, 0), map[], 0, 0, Log([], 0, 0, {}, 0, 0, None));
    ss, ls := [s], [];
    ss, ls, s := Extend(c, ss, ls, Main(MarkRunning(0, 0)));
    ss, ls, s := Extend(c, ss, ls, Main(MarkSucceeded(0, FromPipeline(0), true)));
    ss, ls, s := Extend(c, ss, ls, Publish);
    ss, ls, s := Extend(c, ss, ls, DuplicateEvent);
  }

  /** An event for a leg that can be claimed, delivered and claimed at once. */
  lemma NextClaim(c: Config, ss: seq<State>, ls: seq<Label>, s: State)
    returns (ss': seq<State>, ls': seq<Label>, t: State)
    requires TimedBehaviour(c, ss, ls) && ss[|ls|] == s && s.bus > 0 && s.workers == map[]
    requires Where(ClaimBbox(s.now, c.lease), s.row)
    ensures TimedBehaviour(c, ss', ls') && ss'[|ls'|] == t && t.bus == s.bus && t.now == s.now
    ensures t.workers == map[1 := Working(Claim(s.row.bboxAttempts + 1, s.row.result, s.now, s.now))]
    ensures t.row == Set(ClaimBbox(s.now, c.lease), s.row)
    ensures t.log.reclaims == s.log.reclaims + Indicator(s.row.bbox == BboxRunning)
  {
    ss', ls', t := Extend(c, ss, ls, DuplicateEvent);
    ss', ls', t := Extend(c, ss', ls', Deliver(1, t.now));
    ss', ls', t := Extend(c, ss', ls', TryClaim(1));
  }

  /** Its work fails for the time being. */
  lemma NextFailure(c: Config, ss: seq<State>, ls: seq<Label>, s: State)
    returns (ss': seq<State>, ls': seq<Label>, t: State)
    requires TimedBehaviour(c, ss, ls) && ss[|ls|] == s && s.workers.Keys == {1} && s.workers[1].Working?
    requires s.workers[1].claim.committedAt == s.now && s.workers[1].claim.attempt < c.maxAttempts
    requires s.row.status == Succeeded && s.row.bbox == BboxRunning
    ensures TimedBehaviour(c, ss', ls') && ss'[|ls'|] == t && t.bus == s.bus && t.workers == map[]
    ensures t.row == Set(RequeueBbox, s.row) && t.log.reclaims == s.log.reclaims
  {
    ss', ls', t := Extend(c, ss, ls, WorkFails(1, false));
    ss', ls', t := Extend(c, ss', ls', TryFailOrRequeue(1, t.now, Error("", "")));
  }

  /** A claim and its failure: the leg is pending again, one attempt later. */
  lemma FailedAttempt(c: Config, ss: seq<State>, ls: seq<Label>, s: State)
    returns (ss': seq<State>, ls': seq<Label>, t: State)
    requires TimedBehaviour(c, ss, ls) && ss[|ls|] == s && s.bus > 0 && s.workers == map[]
    requires s.row.status == Succeeded && s.row.bbox == BboxPending && s.row.bboxAttempts + 1 < c.maxAttempts
    ensures TimedBehaviour(c, ss', ls') && ss'[|ls'|] == t && t.bus > 0 && t.workers == map[]
    ensures t.row.status == Succeeded && t.row.bbox == BboxPending && t.row.bboxAttempts == s.row.bboxAttempts + 1
    ensures t.log.reclaims == s.log.reclaims
  {
    ss', ls', t := NextClaim(c, ss, ls, s);
    ss', ls', t := NextFailure(c, ss', ls', t);
  }

  /** The whole requeue budget spent. */
  lemma {:induction false} BudgetSpent(c: Config, k: nat) returns (ss: seq<State>, ls: seq<Label>, s: State)
    requires k == 0 || k < c.maxAttempts
    ensures TimedBehaviour(c, ss, ls) && ss[|ls|] == s && s.bus > 0 && s.workers == map[]
    ensures s.row.status == Succeeded && s.row.bbox == BboxPending && s.row.bboxAttempts == k
    ensures s.log.reclaims == 0
  {
    ss, ls, s := LegRequestedTwoEvents(c);
    for i := 0 to k
      invariant TimedBehaviour(c, ss, ls) && ss[|ls|] == s && s.bus > 0 && s.workers == map[]
      invariant s.row.status == Succeeded && s.row.bbox == BboxPending && s.row.bboxAttempts == i
      invariant s.log.reclaims == 0
    {
      ss, ls, s := FailedAttempt(c, ss, ls, s);
    }
  }

  /** And the claim after it. */
  lemma LastBudgetedClaim(c: Config) returns (ss: seq<State>, ls: seq<Label>, s: State)
    ensures TimedBehaviour(c, ss, ls) && ss[|ls|] == s && s.bus > 0 && s.workers.Keys == {1}
    ensures s.row.status == Succeeded && s.row.bbox == BboxRunning && OlderThan(s.row.bboxStartedAt, s.now + 1)
    ensures s.row.bboxAttempts == Max(1, c.maxAttempts) && s.log.reclaims == 0
  {
    ss, ls, s := BudgetSpent(c, Max(0, c.maxAttempts - 1));
    ss, ls, s := NextClaim(c, ss, ls, s);
  }

  /** The claimant crashes, its lease runs out, and another takes the leg over. */
  lemma Takeover(c: Config, ss: seq<State>, ls: seq<Label>, s: State)
    returns (ss': seq<State>, ls': seq<Label>, t: State)
    requires TimedBehaviour(c, ss, ls) && ss[|ls|] == s && s.bus > 0 && s.workers.Keys == {1}
    requires s.row.status == Succeeded && s.row.bbox == BboxRunning && OlderThan(s.row.bboxStartedAt, s.now + 1)
    ensures TimedBehaviour(c, ss', ls') && ss'[|ls'|] == t && t.bus > 0 && t.workers.Keys == {1}
    ensures t.row.status == Succeeded && t.row.bbox == BboxRunning && OlderThan(t.row.bboxStartedAt, t.now + 1)
    ensures t.row.bboxAttempts == s.row.bboxAttempts + 1 && t.log.reclaims == s.log.reclaims + 1
  {
    ss', ls', t := Extend(c, ss, ls, Crash(1));
    ss', ls', t := Extend(c, ss', ls', Tick(c.lease + 1));
    ss', ls', t := NextClaim(c, ss', ls', t);
  }

  /** The ledger's bound is reached for every number of takeovers, and with everybody on time: after
      the requeue budget is spent, each takeover adds one more attempt. */
  lemma {:induction false} TakeoversAreUnbounded(c: Config, takeovers: nat) returns (ss: seq<State>, ls: seq<Label>)
    ensures TimedBehaviour(c, ss, ls)
    ensures ss[|ls|].log.reclaims == takeovers
    ensures |ss[|ls|].log.claims| == ss[|ls|].row.bboxAttempts == Max(1, c.maxAttempts) + takeovers
  {
    var s;
    ss, ls, s := LastBudgetedClaim(c);
    for i := 0 to takeovers
      invariant TimedBehaviour(c, ss, ls) && ss[|ls|] == s && s.bus > 0 && s.workers.Keys == {1}
      invariant s.row.status == Succeeded && s.row.bbox == BboxRunning && OlderThan(s.row.bboxStartedAt, s.now + 1)
      invariant s.row.bboxAttempts == Max(1, c.maxAttempts) + i && s.log.reclaims == i
    {
      ss, ls, s := Takeover(c, ss, ls, s);
    }
    BehaviourKeepsInv(c, ss, ls, |ls|);
  }

  /** And one brings the first claimant to the end of its time, on a lease that by its slow
      clock began `skew` before the event arrived. */
  lemma {:induction false} FirstClaimantAtItsLimit(c: Config) returns (ss: seq<State>, ls: seq<Label>, s: State)
    ensures TimedBehaviour(c, ss, ls) && ss[|ls|] == s
    ensures s.now == c.latency + c.work + c.commit && s.bus == 1
    ensures s.workers == map[1 := Working(Claim(1, Some(FromPipeline(0)), 0 - c.skew as int, c.latency))]
    ensures s.row.status == Succeeded && s.row.bbox == BboxRunning && s.row.bboxStartedAt == Some(0 - c.skew as int)
  {
    var early: int := 0 - c.skew as int;
    ss, ls, s := LegRequestedTwoEvents(c);
    ss, ls, s := Extend(c, ss, ls, Deliver(1, early));
    ss, ls, s := Extend(c, ss, ls, Tick(c.latency));
    ss, ls, s := Extend(c, ss, ls, TryClaim(1));
    ss, ls, s := Extend(c, ss, ls, Tick(c.work + c.commit));
  }

  /** If the window is longer than the lease, two clocks can disagree about one claim: the first
      worker, on time, is still refining when the second takes the leg over. */
  lemma {:induction false} ShortLeaseIsBroken(c: Config) returns (ss: seq<State>, ls: seq<Label>)
    requires c.lease < Window(c)
    ensures TimedBehaviour(c, ss, ls) && !LeaseHolds(c, ss, ls)
  {
    var s;
    ss, ls, s := FirstClaimantAtItsLimit(c);
    ss, ls, s := Extend(c, ss, ls, Deliver(2, s.now + c.skew));
    ss, ls, s := Extend(c, ss, ls, TryClaim(2));
    assert Claimed(s.workers[1]) && Claimed(s.workers[2]);
    assert !AtMostOneClaimant(ss[|ls|]);
  }

  /** The lease is a lock exactly when it covers claim latency, work, commit and both clocks'
      skew: then every on-time execution has at most one live claimant, no takeover while one
      is live, and every effective outcome made by the current holder; otherwise some on-time
      execution breaks this. */
  lemma LeaseIsALockIffWindowFits(c: Config)
    ensures Window(c) <= c.lease <==>
            forall ss, ls :: TimedBehaviour(c, ss, ls) ==> LeaseHolds(c, ss, ls)
  {
    if Window(c) <= c.lease {
      forall ss, ls | TimedBehaviour(c, ss, ls) ensures LeaseHolds(c, ss, ls) {
        forall i | 0 <= i < |ss| ensures AtMostOneClaimant(ss[i]) {
          TimedBehaviourKeepsLease(c, ss, ls, i);
        }
        forall i | 0 <= i < |ls| ensures GuardedStep(c, ss[i], ls[i]) {
          TimedBehaviourKeepsLease(c, ss, ls, i);
        }
      }
    } else {
      var ss, ls := ShortLeaseIsBroken(c);
      assert TimedBehaviour(c, ss, ls) && !LeaseHolds(c, ss, ls);
    }
  }

  /** The shipped settings (600 s of work under a 660 s lease) leave sixty seconds for claim
      latency, commit (the lag of the claim's response included) and twice the clock skew, and
      not one more. */
  lemma ShippedLeaseLeavesSixtySeconds(latency: nat, commit: nat, skew: nat)
    ensures var c := Config(660, latency, 600, commit, skew, 3, 1320);
      latency + commit + 2 * skew <= 60 <==>
      forall ss, ls :: TimedBehaviour(c, ss, ls) ==> LeaseHolds(c, ss, ls)
  {
    LeaseIsALockIffWindowFits(Config(660, latency, 600, commit, skew, 3, 1320));
  }
}
