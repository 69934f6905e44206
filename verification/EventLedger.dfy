/** Where the publications of a grounding leg come from and where they go, in every execution. */
module EventLedger {
  import opened Collections
  import opened ExtractionRows
  import opened LeaseProtocol
  import opened LeaseTheorems

  /** How many of these steps are of a kind. */
  function Taken(ls: seq<Label>, kind: Label -> bool): nat {
    if |ls| == 0 then 0 else Taken(ls[..|ls| - 1], kind) + Indicator(kind(ls[|ls| - 1]))
  }

  lemma OneMoreTaken(ls: seq<Label>, n: nat, kind: Label -> bool)
    requires n < |ls|
    ensures Taken(ls[..n + 1], kind) == Taken(ls[..n], kind) + Indicator(kind(ls[n]))
  {
    TakeFront(ls, n);
  }

  function HandsOver(l: Label): bool { l.Publish? }

  function GivesUp(l: Label): bool { l.DropPublication? }

  function Repeats(l: Label): bool { l.DuplicateEvent? || l.Sweep? }

  function Uses(l: Label): bool { l.LoseEvent? || l.Deliver? }

  /** Publications: one for the request of the leg and one per requeue; each is still held, was handed to
      the bus or was dropped. Events: those handed over, repeated by the bus and sent by the reaper; each is
      still on the bus, was lost or was delivered. */
  ghost predicate Balanced(s: State, ls: seq<Label>) {
    && s.outbox + Taken(ls, HandsOver) + Taken(ls, GivesUp) ==
         Indicator(s.row.bbox != NoLeg) + s.log.requeues
    && s.bus + Taken(ls, Uses) == Taken(ls, HandsOver) + Taken(ls, Repeats)
  }

  ghost predicate StepBalanced(s: State, l: Label, t: State) {
    && t.outbox + Indicator(HandsOver(l)) + Indicator(GivesUp(l)) - s.outbox ==
         Indicator(t.row.bbox != NoLeg) - Indicator(s.row.bbox != NoLeg) + t.log.requeues - s.log.requeues
    && t.bus + Indicator(Uses(l)) - s.bus == Indicator(HandsOver(l)) + Indicator(Repeats(l))
  }

  lemma OneStepBalanced(c: Config, s: State, l: Label)
    requires Inv(c, s) && Enabled(c, s, l)
    ensures StepBalanced(s, l, Next(c, s, l))
  {
    match l
    case Main(t) => MainIsBalanced(c, s, t);
    case TryClaim(w) => CallIsBalanced(c, s, l);
    case TryComplete(w, _, _) => CallIsBalanced(c, s, l);
    case CompleteRaises(w, _, _, _, _) => CallIsBalanced(c, s, l);
    case TryFailOrRequeue(w, _, _) => CallIsBalanced(c, s, l);
    case _ => OtherIsBalanced(c, s, l);
  }

  lemma MainIsBalanced(c: Config, s: State, t: Transition)
    requires Inv(c, s) && Enabled(c, s, Main(t))
    ensures StepBalanced(s, Main(t), Next(c, s, Main(t)))
  {
  }

  lemma CallIsBalanced(c: Config, s: State, l: Label)
    requires l.TryClaim? || l.TryComplete? || l.CompleteRaises? || l.TryFailOrRequeue?
    requires Enabled(c, s, l)
    ensures StepBalanced(s, l, Next(c, s, l))
  {
  }

  lemma OtherIsBalanced(c: Config, s: State, l: Label)
    requires !l.Main? && !l.TryClaim? && !l.TryComplete? && !l.CompleteRaises? && !l.TryFailOrRequeue?
    requires Enabled(c, s, l)
    ensures StepBalanced(s, l, Next(c, s, l))
  {
  }

  /** No publication and no event comes from nowhere or disappears unaccounted for. */
  lemma PublicationsAreAccountedFor(c: Config, ss: seq<State>, ls: seq<Label>, i: nat)
    requires Behaviour(c, ss, ls) && i < |ss|
    ensures Balanced(ss[i], ls[..i])
  {
    for n := 0 to i
      invariant Balanced(ss[n], ls[..n])
    {
      BehaviourKeepsInv(c, ss, ls, n);
      OneStepBalanced(c, ss[n], ls[n]);
      OneMoreTaken(ls, n, HandsOver);
      OneMoreTaken(ls, n, GivesUp);
      OneMoreTaken(ls, n, Repeats);
      OneMoreTaken(ls, n, Uses);
    }
  }

  /** An outcome whose answer is lost still stands: the claimant's `except` branch leaves the grounded row
      as it is, and its webhook is never entered. */
  lemma LostAnswerStands(c: Config, s: State, w: nat, reply: nat, reading: int, permanent: bool, error: Error)
    returns (t: State)
    requires Refines(s, w) && Near(c, s.now, reading) && s.row.status == Succeeded && s.row.bbox == BboxRunning
    ensures Reaches(c, s,
              [CompleteRaises(w, reply, reading, true, permanent)] + ([TryFailOrRequeue(w, reading, error)] + []), t)
    ensures t.row == Set(CompleteOf(s.workers[w].claim, reply, reading), s.row)
    ensures t.log.outcomes == s.log.outcomes + 1 && t.log.webhooks == s.log.webhooks
    ensures t.outbox == s.outbox && t.workers == s.workers - {w}
  {
    var between := Next(c, s, CompleteRaises(w, reply, reading, true, permanent));
    t := Next(c, between, TryFailOrRequeue(w, reading, error));
    ReachesFirst(c, between, TryFailOrRequeue(w, reading, error), [], t);
    ReachesFirst(c, s, CompleteRaises(w, reply, reading, true, permanent),
      [TryFailOrRequeue(w, reading, error)] + [], t);
  }
}
