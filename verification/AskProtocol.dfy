/** Concurrent asks over one approval store: `DecisionService.ask`, step by step.

    A store operation holds the lock from start to end and so is one step. What an ask
    does between two of them is interleaved in every way with the steps of other asks, of
    people answering and of sweeping. The decision authority is its
    three append outcomes and nothing more. An ask may also stop at any point without
    taking another step, which covers a raise the service lets through and a best-effort
    call that was refused.

    References are minted fresh: the identifier factory never repeats one. */
module AskProtocol {
  import opened Outcomes
  import opened StoreKeys
  import opened ApprovalRecord
  import opened WaitRules

  datatype Outcome = Allow | Deny | Suspend

  datatype Reason = PolicyAllows | PolicyDenies | PolicyAbsent | PolicyRequiresReview
                  | ApprovalGranted | ApprovalRejected

  /** The answer an ask settles on once its question has been looked up among the approvals. */
  datatype Consulted = Consulted(outcome: Outcome, reason: Reason, k: Key, spend: bool, own: bool)

  /** What an ask is about to record: a policy verdict of its own, or what was consulted. */
  datatype Settled = ByPolicy(outcome: Outcome, reason: Reason) | ByApproval(c: Consulted)

  datatype Append = Committed | Indeterminate | RefusedBeforeTheFirstByte

  /** Where one ask stands. */
  datatype Ask =
    | Looking(opening: Approval, attempt: nat)
    | Claiming(opening: Approval, attempt: nat, k: Key)
    | Providing(opening: Approval)
    | Dropping(k: Key)
    | Deciding(settled: Settled)
    | Publishing(settled: Settled)
    | Spending(settled: Settled)
    | Releasing(settled: Settled)
    | Withdrawing(settled: Settled)
    | Over

  /** One decision the authority committed, or may have, and the ask it was taken for. */
  datatype Recorded = Recorded(id: nat, outcome: Outcome, reason: Reason, k: Option<Key>, grant: bool)

  datatype Forgotten = Forgotten(record: Approval, at: int)

  /** Besides the store and the asks, what a proof has to remember: the decisions recorded,
      which ask minted each reference, the wait each suspended ask began with, which one last
      claimed each execution, every reference the store ever kept, and what the sweep dropped
      and when. */
  datatype System = System(
    waits: Waits,
    asks: map<nat, Ask>,
    log: seq<Recorded>,
    minter: map<Key, nat>,
    openings: map<nat, Approval>,
    claimant: map<Key, nat>,
    everKept: set<Key>,
    forgotten: map<Key, Forgotten>)

  const CLAIM_TRIES := 5

  const START := System(NOTHING_KEPT, map[], [], map[], map[], map[], {}, map[])

  datatype Action =
    | BeginsByPolicy(id: nat, outcome: Outcome, reason: Reason)
    | BeginsSuspended(id: nat, opening: Approval)
    | Looks(id: nat, now: int)
    | TakesClaim(id: nat)
    | PutsToProvider(id: nat, takenUp: bool)
    | DropsUnprovided(id: nat)
    | Appends(id: nat, append: Append, reserved: bool)
    | PublishesOpened(id: nat)
    | SpendsClaimed(id: nat, now: int)
    | GivesBack(id: nat)
    | TakesBack(id: nat)
    | Stops(id: nat)
    | PersonActs(k: Key, person: string, verdict: Verdict, text: Option<string>, now: int)
    | SweepEnds(now: int)
    | SweepForgets(now: int)

  ghost predicate Enabled(s: System, a: Action) {
    match a
    case BeginsByPolicy(id, outcome, reason) =>
      id !in s.asks && (outcome, reason) in
        {(Allow, PolicyAllows), (Deny, PolicyDenies), (Deny, PolicyAbsent)}
    case BeginsSuspended(id, opening) =>
      id !in s.asks && KeyOf(opening) !in s.minter && opening.state == Pending && !opening.published
    case Looks(id, _) => id in s.asks && s.asks[id].Looking? && Consistent(s.waits)
    case TakesClaim(id) => id in s.asks && s.asks[id].Claiming?
    case PutsToProvider(id, _) => id in s.asks && s.asks[id].Providing?
    case DropsUnprovided(id) => id in s.asks && s.asks[id].Dropping?
    case Appends(id, _, _) => id in s.asks && s.asks[id].Deciding?
    case PublishesOpened(id) => id in s.asks && s.asks[id].Publishing?
    case SpendsClaimed(id, _) => id in s.asks && s.asks[id].Spending?
    case GivesBack(id) => id in s.asks && s.asks[id].Releasing?
    case TakesBack(id) => id in s.asks && s.asks[id].Withdrawing?
    case Stops(id) => id in s.asks
    case _ => true
  }

  function With(s: System, id: nat, ask: Ask): System { s.(asks := s.asks[id := ask]) }

  /** Retry the look while tries remain; give up when they are used. */
  function Again(opening: Approval, attempt: nat): Ask {
    if attempt + 1 < CLAIM_TRIES then Looking(opening, attempt + 1) else Over
  }

  function Suspends(k: Key, own: bool): Ask {
    Deciding(ByApproval(Consulted(Suspend, PolicyRequiresReview, k, false, own)))
  }

  /** Where a look leads: to the provider with a record of its own, or by the state of another's. */
  function AfterLook(opening: Approval, attempt: nat, answer: Result<Approval, Refusal>): Ask {
    match answer
    case Err(_) => Over
    case Ok(found) =>
      if found.approvalRef == opening.approvalRef then Providing(opening)
      else match found.state
        case Pending => if found.published then Suspends(KeyOf(found), false) else Again(opening, attempt)
        case Rejected => Deciding(ByApproval(Consulted(Deny, ApprovalRejected, KeyOf(found), false, false)))
        case Approved => if found.claimed then Again(opening, attempt) else Claiming(opening, attempt, KeyOf(found))
        case Expired => Over
  }

  function AfterClaim(opening: Approval, attempt: nat, k: Key, answer: Result<Approval, Refusal>): Ask {
    match answer
    case Ok(_) => Deciding(ByApproval(Consulted(Allow, ApprovalGranted, k, true, false)))
    case Err(AlreadyClaimed) => Again(opening, attempt)
    case Err(NotKept) => Again(opening, attempt)
    case Err(_) => Over
  }

  /** The decision an append writes. A grant goes only with an allow that spends no approval. */
  function RecordOf(id: nat, settled: Settled, reserved: bool): Recorded {
    match settled
    case ByPolicy(outcome, reason) => Recorded(id, outcome, reason, None, reserved && outcome == Allow)
    case ByApproval(c) => Recorded(id, c.outcome, c.reason, Some(c.k), reserved && c.outcome == Allow && !c.spend)
  }

  function Spends(settled: Settled): bool { settled.ByApproval? && settled.c.spend }
  function Opened(settled: Settled): bool { settled.ByApproval? && settled.c.own }

  ghost function Next(s: System, a: Action): System
    requires Enabled(s, a)
  {
    match a
    case BeginsByPolicy(id, outcome, reason) => With(s, id, Deciding(ByPolicy(outcome, reason)))
    case BeginsSuspended(id, opening) =>
      With(s, id, Looking(opening, 0)).(minter := s.minter[KeyOf(opening) := id], openings := s.openings[id := opening])
    case Looks(id, now) =>
      var Looking(opening, attempt) := s.asks[id];
      var did := OpenIfAbsent(s.waits, opening, now);
      With(s, id, AfterLook(opening, attempt, did.answer))
        .(waits := did.waits, everKept := s.everKept + (did.waits.byRef.Keys - s.waits.byRef.Keys))
    case TakesClaim(id) =>
      var Claiming(opening, attempt, k) := s.asks[id];
      var did := Claim(s.waits, k);
      With(s, id, AfterClaim(opening, attempt, k, did.answer))
        .(waits := did.waits, claimant := if did.answer.Ok? then s.claimant[k := id] else s.claimant)
    case PutsToProvider(id, takenUp) =>
      var k := KeyOf(s.asks[id].opening);
      With(s, id, if takenUp then Suspends(k, true) else Dropping(k))
    case DropsUnprovided(id) =>
      With(s, id, Over).(waits := Abandon(s.waits, s.asks[id].k).waits)
    case Appends(id, append, reserved) =>
      var settled := s.asks[id].settled;
      if append == RefusedBeforeTheFirstByte then With(s, id, Releasing(settled))
      else With(s, id, Publishing(settled)).(log := s.log + [RecordOf(id, settled, reserved)])
    case PublishesOpened(id) =>
      var settled := s.asks[id].settled;
      With(s, id, Spending(settled))
        .(waits := if Opened(settled) then Publish(s.waits, settled.c.k).waits else s.waits)
    case SpendsClaimed(id, now) =>
      var settled := s.asks[id].settled;
      With(s, id, Over)
        .(waits := if Spends(settled) then Consume(s.waits, settled.c.k, now).waits else s.waits)
    case GivesBack(id) =>
      var settled := s.asks[id].settled;
      With(s, id, Withdrawing(settled))
        .(waits := if Spends(settled) then ReleaseClaim(s.waits, settled.c.k).waits else s.waits)
    case TakesBack(id) =>
      var settled := s.asks[id].settled;
      With(s, id, Over)
        .(waits := if Opened(settled) then Abandon(s.waits, settled.c.k).waits else s.waits)
    case Stops(id) => With(s, id, Over)
    case PersonActs(k, person, verdict, text, now) =>
      s.(waits := Resolve(s.waits, k, person, verdict, text, now).waits)
    case SweepEnds(now) => s.(waits := ExpirePast(s.waits, now))
    case SweepForgets(now) =>
      s.(waits := ForgetLapsed(s.waits, now),
         forgotten := s.forgotten + map k | k in OfNoUseAt(s.waits, now) :: Forgotten(s.waits.byRef[k], now))
  }
}
