/** The grounding leg of one extraction under any number of worker replicas.

    A state is the table row, the clock, the `_process` calls in flight, the events on the bus
    and the publications still held in some process's memory; a label is one atomic step of one
    party. Crashes, lost and duplicated events, late claimants, webhook failures and UPDATEs
    whose commit outlives the connection are steps like any other. The main leg is an arbitrary
    client of the repository. The log is what an observer could have written down. */
module LeaseProtocol {
  import opened Wrappers
  import opened ExtractionRows

  /** `latency` bounds clock reading to claim commit, `work` the refinement from the moment its
      timer starts, `commit` the lag of the claim's response before that and the outcome UPDATE
      after it, `skew` the distance of any clock from real time. */
  datatype Config = Config(
    lease: nat, latency: nat, work: nat, commit: nat, skew: nat, maxAttempts: int, pendingThreshold: nat)

  /** What a claimant carries out of its claim: the row counter it set and the result it read. */
  datatype Claim = Claim(attempt: nat, base: Option<Payload>, reading: int, committedAt: int)

  datatype Phase =
    | Reading(reading: int, readAt: int)                               // clock read, claim in flight
    | Working(claim: Claim)                                            // refining
    | Raising(claim: Claim, permanent: bool, afterWebhook: bool)       // in the `except` branch
    | Delivering(claim: Claim)                                         // inside the webhook call

  datatype Log = Log(
    claims: seq<nat>,            // attempt number of every successful claim, in order
    reclaims: nat,               // claims that took over a running leg
    requeues: nat, requeuers: set<nat>,  // requeues, and the attempts that made them
    outcomes: nat,               // completes and fails that matched
    webhooks: nat,               // entries into the completion webhook
    main: Option<Payload>)       // what the main leg's success wrote

  datatype State = State(now: int, row: Row, workers: map<nat, Phase>, outbox: nat, bus: nat, log: Log)

  datatype Label =
    | Tick(d: nat)
    | Main(t: Transition)
    | Publish | DropPublication
    | DuplicateEvent | LoseEvent
    | Sweep(reading: int)
    | Deliver(w: nat, reading: int)
    | TryClaim(w: nat)
    | WorkFails(w: nat, permanent: bool)
    | TryComplete(w: nat, reply: nat, reading: int)
    | CompleteRaises(w: nat, reply: nat, reading: int, committed: bool, permanent: bool)
    | WebhookReturns(w: nat)
    | WebhookRaises(w: nat, permanent: bool)
    | TryFailOrRequeue(w: nat, reading: int, error: Error)
    | Crash(w: nat)

  predicate Near(c: Config, now: int, reading: int) {
    now - c.skew <= reading <= now + c.skew
  }

  predicate Claimed(p: Phase) { !p.Reading? }

  /** Before its outcome UPDATE a claimant is still inside the timed part of its work. */
  predicate Busy(p: Phase) { p.Working? || (p.Raising? && !p.afterWebhook) }

  predicate MainStep(c: Config, now: int, t: Transition) {
    match t
    case MarkRunning(r, _) => Near(c, now, r)
    case MarkSucceeded(r, _, _) => Near(c, now, r)
    case MarkFailed(r, _) => Near(c, now, r)
    case MarkCancelled(r) => Near(c, now, r)
    case RequeueForRetry => true
    case _ => false
  }

  function ClaimOf(c: Config, s: State, w: nat): Transition
    requires w in s.workers && s.workers[w].Reading?
  {
    ClaimBbox(s.workers[w].reading, c.lease)
  }

  predicate Exhausted(c: Config, p: Phase)
    requires p.Raising?
  {
    p.permanent || p.claim.attempt >= c.maxAttempts
  }

  /** Only a claimed row with a result can be refined; without one the worker raises. */
  predicate Refines(s: State, w: nat) {
    w in s.workers && s.workers[w].Working? && s.workers[w].claim.base.Some?
  }

  predicate Enabled(c: Config, s: State, l: Label) {
    match l
    case Tick(_) => true
    case Main(t) => MainStep(c, s.now, t)
    case Publish => s.outbox > 0
    case DropPublication => s.outbox > 0
    case DuplicateEvent => s.bus > 0
    case LoseEvent => s.bus > 0
    case Sweep(r) => Near(c, s.now, r) &&
      (StaleBboxRefining(s.row, r, c.lease) || PendingBboxRevive(s.row, r, c.pendingThreshold, c.lease))
    case Deliver(w, r) => w !in s.workers && s.bus > 0 && Near(c, s.now, r)
    case TryClaim(w) => w in s.workers && s.workers[w].Reading?
    case WorkFails(w, _) => w in s.workers && s.workers[w].Working?
    case TryComplete(w, _, r) => Refines(s, w) && Near(c, s.now, r)
    case CompleteRaises(w, _, r, _, _) => Refines(s, w) && Near(c, s.now, r)
    case WebhookReturns(w) => w in s.workers && s.workers[w].Delivering?
    case WebhookRaises(w, _) => w in s.workers && s.workers[w].Delivering?
    case TryFailOrRequeue(w, r, _) => w in s.workers && s.workers[w].Raising? && Near(c, s.now, r)
    case Crash(w) => w in s.workers
  }

  function Gone(s: State, w: nat): State {
    s.(workers := s.workers - {w})
  }

  /** The complete UPDATE of a refinement computed from the claimed row. */
  function CompleteOf(claim: Claim, reply: nat, reading: int): Transition
    requires claim.base.Some?
  {
    CompleteBbox(reading, Grounded(claim.base.value, reply))
  }

  function Finished(s: State, t: Transition): State
    requires Where(t, s.row)
  {
    s.(row := Set(t, s.row), log := s.log.(outcomes := s.log.outcomes + 1))
  }

  function Next(c: Config, s: State, l: Label): State
    requires Enabled(c, s, l)
  {
    match l
    case Tick(d) => s.(now := s.now + d)
    case Main(t) =>
      if !Where(t, s.row) then s
      else
        var moved := s.(row := Set(t, s.row));
        if t.MarkSucceeded? then
          moved.(outbox := if t.requestBbox then s.outbox + 1 else s.outbox,
                 log := s.log.(main := Some(t.result)))
        else moved
    case Publish => s.(outbox := s.outbox - 1, bus := s.bus + 1)
    case DropPublication => s.(outbox := s.outbox - 1)
    case DuplicateEvent => s.(bus := s.bus + 1)
    case LoseEvent => s.(bus := s.bus - 1)
    case Sweep(_) => s.(bus := s.bus + 1)
    case Deliver(w, r) => s.(bus := s.bus - 1, workers := s.workers[w := Reading(r, s.now)])
    case TryClaim(w) =>
      var t := ClaimOf(c, s, w);
      if !Where(t, s.row) then Gone(s, w)
      else
        var row := Set(t, s.row);
        var claim := Claim(row.bboxAttempts, s.row.result, t.now, s.now);
        s.(row := row,
           workers := s.workers[w := Working(claim)],
           log := s.log.(claims := s.log.claims + [row.bboxAttempts],
                         reclaims := s.log.reclaims + if s.row.bbox == BboxRunning then 1 else 0))
    case WorkFails(w, permanent) =>
      s.(workers := s.workers[w := Raising(s.workers[w].claim, permanent, false)])
    case TryComplete(w, reply, r) =>
      var t := CompleteOf(s.workers[w].claim, reply, r);
      if !Where(t, s.row) then Gone(s, w)
      else
        var done := Finished(s, t);
        done.(workers := s.workers[w := Delivering(s.workers[w].claim)],
              log := done.log.(webhooks := s.log.webhooks + 1))
    case CompleteRaises(w, reply, r, committed, permanent) =>
      var t := CompleteOf(s.workers[w].claim, reply, r);
      var done := if committed && Where(t, s.row) then Finished(s, t) else s;
      done.(workers := s.workers[w := Raising(s.workers[w].claim, permanent, false)])
    case WebhookReturns(w) => Gone(s, w)
    case WebhookRaises(w, permanent) =>
      s.(workers := s.workers[w := Raising(s.workers[w].claim, permanent, true)])
    case TryFailOrRequeue(w, r, error) =>
      if Exhausted(c, s.workers[w]) then
        var t := FailBbox(r, error);
        Gone(if Where(t, s.row) then Finished(s, t) else s, w)
      else if !Where(RequeueBbox, s.row) then Gone(s, w)
      else
        Gone(s.(row := Set(RequeueBbox, s.row), outbox := s.outbox + 1,
                log := s.log.(requeues := s.log.requeues + 1,
                              requeuers := s.log.requeuers + {s.workers[w].claim.attempt})), w)
    case Crash(w) => Gone(s, w)
  }

  predicate Initial(c: Config, s: State) {
    && Near(c, s.now, s.row.submittedAt)
    && s.row == FreshRow(s.row.key, s.row.submittedAt)
    && s == State(s.now, s.row, map[], 0, 0, Log([], 0, 0, {}, 0, 0, None))
  }

  /** A finite execution: the states passed through, and the step taken between each two. */
  ghost predicate Behaviour(c: Config, ss: seq<State>, ls: seq<Label>) {
    && |ss| == |ls| + 1
    && Initial(c, ss[0])
    && forall i :: 0 <= i < |ls| ==> Enabled(c, ss[i], ls[i]) && ss[i + 1] == Next(c, ss[i], ls[i])
  }

  // ---- What holds with no assumption about time ---------------------------

  function Indicator(b: bool): nat { if b then 1 else 0 }

  /** The retry ledger: every claim is accounted for by the request, a requeue or a takeover. */
  ghost predicate Ledger(c: Config, s: State) {
    && |s.log.claims| == s.row.bboxAttempts
    && (forall i :: 0 <= i < |s.log.claims| ==> s.log.claims[i] == i + 1)
    && |s.log.claims| + Indicator(s.row.bbox == BboxPending) ==
         Indicator(s.row.bbox != NoLeg) + s.log.requeues + s.log.reclaims
    && (s.row.bbox == NoLeg ==> s.log.requeues == s.log.reclaims == 0)
    && s.log.requeues == |s.log.requeuers|
    && (forall a :: a in s.log.requeuers ==> 1 <= a < c.maxAttempts && a <= s.row.bboxAttempts)
  }

  /** The outcome: one at most, and the stored result is the main one or grounded from it. */
  ghost predicate Outcome(s: State) {
    && s.log.outcomes == Indicator(BboxTerminal(s.row.bbox))
    && s.log.webhooks <= Indicator(s.row.bbox == BboxSucceeded)
    && (s.log.main.Some? <==> s.row.status == Succeeded)
    && (s.row.status == Succeeded && s.row.bbox != BboxSucceeded ==> s.row.result == s.log.main)
    && (s.row.bbox == BboxSucceeded ==>
          s.row.result.Some? && s.row.result.value.Grounded? && Some(s.row.result.value.base) == s.log.main)
  }

  ghost predicate Phases(c: Config, s: State) {
    forall w :: w in s.workers ==> PhaseInv(c, s, s.workers[w])
  }

  ghost predicate PhaseInv(c: Config, s: State, p: Phase) {
    if p.Reading? then
      p.readAt <= s.now && Near(c, p.readAt, p.reading)
    else
      && 1 <= p.claim.attempt <= s.row.bboxAttempts
      && p.claim.attempt !in s.log.requeuers
      && s.log.main.Some? && p.claim.base == s.log.main
      && s.row.bbox != NoLeg
      && (Busy(p) || s.row.bbox == BboxSucceeded)
  }

  /** Two claimants never carry the same attempt number. */
  ghost predicate DistinctAttempts(s: State) {
    forall v, w :: (v in s.workers && w in s.workers && Claimed(s.workers[v]) && Claimed(s.workers[w]) &&
                    s.workers[v].claim.attempt == s.workers[w].claim.attempt) ==> v == w
  }

  ghost predicate Inv(c: Config, s: State) {
    && WellFormed(s.row)
    && StampsAtMost(s.row, s.now + c.skew)
    && Ledger(c, s)
    && Outcome(s)
    && Phases(c, s)
    && DistinctAttempts(s)
  }

  lemma MainKeepsInv(c: Config, s: State, t: Transition)
    requires Inv(c, s) && Enabled(c, s, Main(t))
    ensures Inv(c, Next(c, s, Main(t)))
  {
  }

  lemma ClaimKeepsInv(c: Config, s: State, w: nat)
    requires Inv(c, s) && Enabled(c, s, TryClaim(w))
    ensures Inv(c, Next(c, s, TryClaim(w)))
  {
    assert PhaseInv(c, s, s.workers[w]);
    ClaimKeepsLedger(c, s, w);
    ClaimKeepsPhases(c, s, w);
  }

  lemma ClaimKeepsLedger(c: Config, s: State, w: nat)
    requires Enabled(c, s, TryClaim(w)) && Ledger(c, s) && Outcome(s)
    ensures Ledger(c, Next(c, s, TryClaim(w))) && Outcome(Next(c, s, TryClaim(w)))
  {
  }

  /** The new claimant's attempt number is the row's next one, so nobody else carries it. */
  lemma ClaimKeepsPhases(c: Config, s: State, w: nat)
    requires Inv(c, s) && Enabled(c, s, TryClaim(w))
    ensures Phases(c, Next(c, s, TryClaim(w))) && DistinctAttempts(Next(c, s, TryClaim(w)))
  {
    var t := Next(c, s, TryClaim(w));
    forall v | v in t.workers ensures PhaseInv(c, t, t.workers[v]) {
      assert PhaseInv(c, s, s.workers[v]);
    }
  }

  lemma CompleteKeepsInv(c: Config, s: State, w: nat, reply: nat, r: int)
    requires Inv(c, s) && Enabled(c, s, TryComplete(w, reply, r))
    ensures Inv(c, Next(c, s, TryComplete(w, reply, r)))
  {
  }

  lemma CompleteRaisesKeepsInv(c: Config, s: State, w: nat, reply: nat, r: int, committed: bool, permanent: bool)
    requires Inv(c, s) && Enabled(c, s, CompleteRaises(w, reply, r, committed, permanent))
    ensures Inv(c, Next(c, s, CompleteRaises(w, reply, r, committed, permanent)))
  {
  }

  lemma FailKeepsInv(c: Config, s: State, w: nat, r: int, error: Error)
    requires Inv(c, s) && Enabled(c, s, TryFailOrRequeue(w, r, error)) && Exhausted(c, s.workers[w])
    ensures Inv(c, Next(c, s, TryFailOrRequeue(w, r, error)))
  {
  }

  /** The requeuer leaves with its attempt number, so no attempt is ever counted twice. */
  lemma RequeueKeepsInv(c: Config, s: State, w: nat, r: int, error: Error)
    requires Inv(c, s) && Enabled(c, s, TryFailOrRequeue(w, r, error)) && !Exhausted(c, s.workers[w])
    ensures Inv(c, Next(c, s, TryFailOrRequeue(w, r, error)))
  {
    var t := Next(c, s, TryFailOrRequeue(w, r, error));
    assert PhaseInv(c, s, s.workers[w]);
    forall v | v in t.workers ensures PhaseInv(c, t, t.workers[v]) {
      assert PhaseInv(c, s, s.workers[v]);
    }
    assert Ledger(c, t);
  }

  lemma StepKeepsInv(c: Config, s: State, l: Label)
    requires Inv(c, s) && Enabled(c, s, l)
    ensures Inv(c, Next(c, s, l))
  {
    match l
    case Main(t) => MainKeepsInv(c, s, t);
    case TryClaim(w) => ClaimKeepsInv(c, s, w);
    case TryComplete(w, reply, r) => CompleteKeepsInv(c, s, w, reply, r);
    case CompleteRaises(w, reply, r, committed, permanent) =>
      CompleteRaisesKeepsInv(c, s, w, reply, r, committed, permanent);
    case TryFailOrRequeue(w, r, error) =>
      if Exhausted(c, s.workers[w]) {
        FailKeepsInv(c, s, w, r, error);
      } else {
        RequeueKeepsInv(c, s, w, r, error);
      }
    case Deliver(w, _) => CallStepKeepsInv(c, s, l);
    case WorkFails(_, _) => CallStepKeepsInv(c, s, l);
    case WebhookReturns(_) => CallStepKeepsInv(c, s, l);
    case WebhookRaises(_, _) => CallStepKeepsInv(c, s, l);
    case Crash(_) => CallStepKeepsInv(c, s, l);
    case _ => EventStepKeepsInv(c, s, l);
  }

  /** Steps of one `_process` call between its UPDATEs. */
  lemma CallStepKeepsInv(c: Config, s: State, l: Label)
    requires l.Deliver? || l.WorkFails? || l.WebhookReturns? || l.WebhookRaises? || l.Crash?
    requires Inv(c, s) && Enabled(c, s, l)
    ensures Inv(c, Next(c, s, l))
  {
    var t := Next(c, s, l);
    assert t.row == s.row && t.log == s.log && t.now == s.now;
  }

  /** Steps of the clock, the bus and the reaper. */
  lemma EventStepKeepsInv(c: Config, s: State, l: Label)
    requires l.Tick? || l.Publish? || l.DropPublication? || l.DuplicateEvent? || l.LoseEvent? || l.Sweep?
    requires Inv(c, s) && Enabled(c, s, l)
    ensures Inv(c, Next(c, s, l))
  {
  }

  lemma {:induction false} BehaviourKeepsInv(c: Config, ss: seq<State>, ls: seq<Label>, i: nat)
    requires Behaviour(c, ss, ls) && i < |ss|
    ensures Inv(c, ss[i])
  {
    if i == 0 {
      FreshRowIsWellFormed(ss[0].row.key, ss[0].row.submittedAt);
    } else {
      BehaviourKeepsInv(c, ss, ls, i - 1);
      StepKeepsInv(c, ss[i - 1], ls[i - 1]);
    }
  }
}
