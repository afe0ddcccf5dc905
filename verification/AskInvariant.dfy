/** What every step of the protocol keeps, one reference at a time.

    A reference is minted by one ask, kept once, claimed by one ask at a time. The proof
    never looks at two references or at the whole store at once: `Local` is everything
    the system holds about one reference, `Changed` lists the ways one step can change
    it, and each invariant is shown to survive each of those ways. */
module AskInvariant {
  import opened Outcomes
  import opened StoreKeys
  import opened ApprovalRecord
  import opened WaitRules
  import opened AskProtocol

  // -- what every step keeps ------------------------------------------------------

  /** The reference an ask has minted and not opened yet. */
  function Offers(p: Ask): Option<Key> {
    if p.Looking? || p.Claiming? then Some(KeyOf(p.opening)) else None
  }

  /** The wait an ask opened and may still withdraw. */
  function MayDrop(p: Ask): Option<Key> {
    match p
    case Providing(opening) => Some(KeyOf(opening))
    case Dropping(k) => Some(k)
    case Deciding(settled) => if Opened(settled) then Some(settled.c.k) else None
    case Releasing(settled) => if Opened(settled) then Some(settled.c.k) else None
    case Withdrawing(settled) => if Opened(settled) then Some(settled.c.k) else None
    case _ => None
  }

  /** The execution an ask claimed and has neither recorded nor given back. */
  function Holds(p: Ask): Option<Key> {
    match p
    case Deciding(settled) => if Spends(settled) then Some(settled.c.k) else None
    case Releasing(settled) => if Spends(settled) then Some(settled.c.k) else None
    case _ => None
  }

  /** The execution an ask recorded and is about to spend. */
  function MustSpend(p: Ask): Option<Key> {
    match p
    case Publishing(settled) => if Spends(settled) then Some(settled.c.k) else None
    case Spending(settled) => if Spends(settled) then Some(settled.c.k) else None
    case _ => None
  }

  /** The wait another ask opened, which this ask is about to suspend on. */
  function Told(p: Ask): Option<Key> {
    if p.Deciding? && p.settled.ByApproval? && p.settled.c.outcome == Suspend && !p.settled.c.own
    then Some(p.settled.c.k) else None
  }

  function SettledOf(p: Ask): Option<Settled> {
    if p.Deciding? || p.Publishing? || p.Spending? || p.Releasing? || p.Withdrawing?
    then Some(p.settled) else None
  }

  predicate WellFormed(settled: Settled) {
    match settled
    case ByPolicy(outcome, reason) => outcome != Suspend && reason !in {ApprovalGranted, ApprovalRejected}
    case ByApproval(c) =>
      && (c.spend <==> c.outcome == Allow)
      && (c.spend <==> c.reason == ApprovalGranted)
      && (c.own ==> c.outcome == Suspend)
  }

  /** An allow recorded on a person's act. */
  predicate Granted(r: Recorded) { r.reason == ApprovalGranted && r.k.Some? }

  /** A suspension recorded over a wait. */
  predicate Suspending(r: Recorded) { r.outcome == Suspend && r.k.Some? }

  ghost function AllowedKeys(log: seq<Recorded>): set<Key> {
    set r | r in log && Granted(r) :: r.k.value
  }

  ghost function ToldKeys(log: seq<Recorded>): set<Key> {
    set r | r in log && Suspending(r) :: r.k.value
  }

  /** What of a kept record the protocol turns on. */
  datatype StandingRaw = Standing(state: State, claimed: bool, consumed: bool, published: bool)

  type Standing = r: StandingRaw | (r.claimed ==> r.state == Approved) && (r.consumed ==> r.claimed)
    witness StandingRaw.Standing(Pending, false, false, false)

  function StandingOf(a: Approval): Standing {
    StandingRaw.Standing(a.state, a.claimed, a.consumed, a.published)
  }

  /** Everything the protocol turns on about one reference. */
  datatype Local = Local(
    record: Option<Standing>,
    forgotten: bool,
    lapsed: bool,
    kept: bool,
    allowed: bool,
    told: bool,
    minter: Option<nat>,
    claimant: Option<nat>)

  ghost function At(s: System, k: Key): Local {
    Local(
      if k in s.waits.byRef then Some(StandingOf(s.waits.byRef[k])) else None,
      k in s.forgotten,
      k in s.forgotten && OfNoFurtherUse(s.forgotten[k].record, s.forgotten[k].at),
      k in s.everKept,
      k in AllowedKeys(s.log),
      k in ToldKeys(s.log),
      if k in s.minter then Some(s.minter[k]) else None,
      if k in s.claimant then Some(s.claimant[k]) else None)
  }

  /** What one ask may rely on about one reference: whose it is, and how it stands. */
  predicate AskHolds(p: Ask, id: nat, k: Key, l: Local) {
    && (Offers(p) == Some(k) ==> l.minter == Some(id) && !l.kept)
    && (MayDrop(p) == Some(k) ==> l.minter == Some(id) && l.kept && (l.record.Some? || l.forgotten))
    && (Holds(p) == Some(k) ==>
          && l.record.Some? && l.record.value.claimed && !l.record.value.consumed
          && !l.allowed && l.claimant == Some(id))
    && (MustSpend(p) == Some(k) ==> l.allowed)
    && (Told(p) == Some(k) ==> (l.record.Some? && l.record.value.published) || l.forgotten)
  }

  /** What holds of one reference; `droppable` says whether its minter may still withdraw it. */
  predicate KeyHolds(l: Local, droppable: bool) {
    && (l.record.Some? ==> l.kept && !l.forgotten)
    && (l.kept ==> l.minter.Some?)
    && (l.forgotten ==> l.kept && l.lapsed)
    && (l.allowed ==> l.kept && (l.record.Some? ==> l.record.value.claimed))
    && (l.record.Some? && l.record.value.consumed ==> l.allowed)
    && (l.told ==>
          && l.kept
          && (l.record.Some? || l.forgotten)
          && (l.record.Some? && !l.record.value.published ==> !droppable))
  }

  ghost predicate Droppable(s: System, k: Key) {
    k in s.minter && s.minter[k] in s.asks && MayDrop(s.asks[s.minter[k]]) == Some(k)
  }

  predicate WellFormedAsk(p: Ask) {
    && (SettledOf(p).Some? ==> WellFormed(SettledOf(p).value))
    && (p.Looking? || p.Claiming? ==> p.opening.state == Pending && !p.opening.published)
  }

  /** What holds of the decisions recorded. */
  ghost predicate LogHolds(log: seq<Recorded>) {
    && (forall i, j :: 0 <= i < j < |log| && Granted(log[i]) && Granted(log[j]) ==> log[i].k != log[j].k)
    && (forall r :: r in log && r.reason == ApprovalGranted ==> r.outcome == Allow && r.k.Some? && !r.grant)
  }

  ghost predicate Inv(s: System) {
    && Consistent(s.waits)
    && (forall id :: id in s.asks ==> WellFormedAsk(s.asks[id]))
    && (forall id, k :: id in s.asks ==> AskHolds(s.asks[id], id, k, At(s, k)))
    && (forall k :: KeyHolds(At(s, k), Droppable(s, k)))
    && LogHolds(s.log)
  }

  function Actor(a: Action): Option<nat> {
    match a
    case PersonActs(_, _, _, _, _) => None
    case SweepEnds(_) => None
    case SweepForgets(_) => None
    case _ => Some(a.id)
  }

  /** What one look finds, for an ask whose own reference the store never kept. */
  lemma LookFinds(w: Waits, opening: Approval, now: int)
    requires Consistent(w) && KeyOf(opening) !in w.byRef && opening.state == Pending && !opening.published
    ensures var did := OpenIfAbsent(w, opening, now);
      did.answer.Ok? &&
      var found := did.answer.value;
      if found.approvalRef == opening.approvalRef
      then found == opening && did.waits.byRef == w.byRef[KeyOf(opening) := opening]
      else did.waits == w && KeyOf(found) in w.byRef && w.byRef[KeyOf(found)] == found && found.state != Expired
  {
    NewestIsLastOpened(w.byRef, References(w, opening.question), now, true);
  }

  lemma LogGrows(log: seq<Recorded>, r: Recorded)
    ensures AllowedKeys(log + [r]) == AllowedKeys(log) + (if Granted(r) then {r.k.value} else {})
    ensures ToldKeys(log + [r]) == ToldKeys(log) + (if Suspending(r) then {r.k.value} else {})
  {
    forall x ensures x in log + [r] <==> x in log || x == r {
    }
  }

  // -- the ways one reference can change in one step --------------------------------

  /** The record of one reference rewritten by nobody's role in particular: a publication,
      a person's act, or a lapse. */
  predicate Ripened(a: Standing, b: Standing) {
    && (a.published ==> b.published)
    && (a.state == Pending || (b.state == a.state && b.claimed == a.claimed && b.consumed == a.consumed))
    && (a.state == Pending ==> !b.claimed && !b.consumed)
  }

  predicate IsMinted(l: Local, m: Local, id: nat) {
    l.minter == None && m == l.(minter := Some(id))
  }

  predicate IsKept(l: Local, m: Local, p: Ask, k: Key) {
    && Offers(p) == Some(k) && l.record == None
    && m.record.Some? && !m.record.value.claimed && !m.record.value.consumed
    && m == l.(record := m.record, kept := true)
  }

  predicate IsRipened(l: Local, m: Local) {
    && l.record.Some? && m.record.Some? && Ripened(l.record.value, m.record.value)
    && m == l.(record := m.record)
  }

  predicate IsClaimed(l: Local, m: Local, p: Ask, id: nat) {
    && p.Claiming?
    && l.record.Some? && !l.record.value.claimed && l.record.value.state == Approved
    && m.record.Some? && m.record.value.claimed && !m.record.value.consumed
    && m.record.value.published == l.record.value.published
    && m == l.(record := m.record, claimant := Some(id))
  }

  predicate IsReleased(l: Local, m: Local, p: Ask, k: Key) {
    && Holds(p) == Some(k)
    && l.record.Some? && m.record.Some? && !m.record.value.claimed && !m.record.value.consumed
    && m.record.value.published == l.record.value.published && m.record.value.state == l.record.value.state
    && m == l.(record := m.record)
  }

  predicate IsSpent(l: Local, m: Local, p: Ask, k: Key) {
    && MustSpend(p) == Some(k)
    && l.record.Some? && m.record.Some?
    && m.record.value.claimed && m.record.value.consumed && m.record.value.published == l.record.value.published
    && m == l.(record := m.record)
  }

  predicate IsWithdrawn(l: Local, m: Local, p: Ask, k: Key) {
    && MayDrop(p) == Some(k)
    && l.record.Some? && l.record.value.state == Pending && !l.record.value.published
    && m == l.(record := None)
  }

  predicate IsAllowed(l: Local, m: Local, p: Ask, k: Key) {
    p.Deciding? && Holds(p) == Some(k) && m == l.(allowed := true)
  }

  predicate IsTold(l: Local, m: Local, p: Ask, k: Key) {
    p.Deciding? && (MayDrop(p) == Some(k) || Told(p) == Some(k)) && m == l.(told := true)
  }

  predicate IsForgotten(l: Local, m: Local) {
    && l.record.Some? && (l.record.value.state == Approved ==> l.record.value.consumed)
    && m == l.(record := None, forgotten := true, lapsed := true)
  }

  predicate Changed(l: Local, m: Local, p: Ask, id: nat, k: Key) {
    || m == l
    || IsMinted(l, m, id)
    || IsKept(l, m, p, k)
    || IsRipened(l, m)
    || IsClaimed(l, m, p, id)
    || IsReleased(l, m, p, k)
    || IsSpent(l, m, p, k)
    || IsWithdrawn(l, m, p, k)
    || IsAllowed(l, m, p, k)
    || IsTold(l, m, p, k)
    || IsForgotten(l, m)
  }

  ghost function ActorBefore(s: System, a: Action): Ask
  {
    if Actor(a).Some? && Actor(a).value in s.asks then s.asks[Actor(a).value] else Over
  }

  ghost function ActorId(a: Action): nat { if Actor(a).Some? then Actor(a).value else 0 }

  ghost predicate Ready(s: System, a: Action) {
    && Enabled(s, a)
    && WellFormedAsk(ActorBefore(s, a))
    && (a.Looks? ==> KeyOf(s.asks[a.id].opening) !in s.waits.byRef)
  }

  ghost predicate ChangesAt(s: System, a: Action, k: Key)
    requires Enabled(s, a)
  {
    Changed(At(s, k), At(Next(s, a), k), ActorBefore(s, a), ActorId(a), k)
  }

  ghost function StandingAt(w: Waits, k: Key): Option<Standing> {
    if k in w.byRef then Some(StandingOf(w.byRef[k])) else None
  }

  /** A store operation on one key leaves how every other reference stands. */
  lemma ClaimStanding(w: Waits, j: Key, k: Key)
    ensures var a, b := StandingAt(w, k), StandingAt(Claim(w, j).waits, k);
      if Claim(w, j).answer.Ok? && j == k
      then a.Some? && a.value.state == Approved && !a.value.claimed
           && b.Some? && b.value.claimed && !b.value.consumed && b.value.published == a.value.published
      else b == a
  {
  }

  lemma ConsumeStanding(w: Waits, j: Key, now: int, k: Key)
    ensures var a, b := StandingAt(w, k), StandingAt(Consume(w, j, now).waits, k);
      b == a || (j == k && a.Some? && b.Some? && b.value.claimed && b.value.consumed
                 && b.value.published == a.value.published)
  {
  }

  lemma ResolveStanding(w: Waits, j: Key, person: string, v: Verdict, text: Option<string>, now: int, k: Key)
    ensures var a, b := StandingAt(w, k), StandingAt(Resolve(w, j, person, v, text, now).waits, k);
      b == a || (a.Some? && b.Some? && Ripened(a.value, b.value))
  {
  }

  /** All an operation on the store alone can change about one reference. */
  lemma OnlyTheRecordMoves(s: System, t: System, k: Key)
    requires t.log == s.log && t.minter == s.minter && t.claimant == s.claimant
    requires t.everKept == s.everKept && t.forgotten == s.forgotten
    ensures At(t, k) == At(s, k).(record := StandingAt(t.waits, k))
  {
  }

  /** And all one more decision can change. */
  lemma OnlyTheLogMoves(s: System, t: System, r: Recorded, k: Key)
    requires t.log == s.log + [r] && t.waits == s.waits && t.minter == s.minter && t.claimant == s.claimant
    requires t.everKept == s.everKept && t.forgotten == s.forgotten
    ensures var l := At(s, k);
      At(t, k) == l.(allowed := l.allowed || (Granted(r) && r.k == Some(k)), told := l.told || (Suspending(r) && r.k == Some(k)))
  {
    LogGrows(s.log, r);
  }

  lemma LooksChanges(s: System, a: Action, k: Key)
    requires a.Looks? && Ready(s, a)
    ensures var l, m, p := At(s, k), At(Next(s, a), k), s.asks[a.id];
      m == l || IsKept(l, m, p, k)
  {
    LookFinds(s.waits, s.asks[a.id].opening, a.now);
  }

  lemma TakesClaimChanges(s: System, a: Action, k: Key)
    requires a.TakesClaim? && Ready(s, a)
    ensures var l, m, p := At(s, k), At(Next(s, a), k), s.asks[a.id];
      m == l || IsClaimed(l, m, p, a.id)
  {
    ClaimStanding(s.waits, s.asks[a.id].k, k);
  }

  lemma DropsUnprovidedChanges(s: System, a: Action, k: Key)
    requires a.DropsUnprovided? && Ready(s, a)
    ensures var l, m, p := At(s, k), At(Next(s, a), k), s.asks[a.id];
      m == l || IsWithdrawn(l, m, p, k)
  {
    OnlyTheRecordMoves(s, Next(s, a), k);
  }

  lemma AppendsChanges(s: System, a: Action, k: Key)
    requires a.Appends? && Ready(s, a)
    ensures var l, m, p := At(s, k), At(Next(s, a), k), s.asks[a.id];
      m == l || IsAllowed(l, m, p, k) || IsTold(l, m, p, k)
  {
    if a.append != RefusedBeforeTheFirstByte {
      OnlyTheLogMoves(s, Next(s, a), RecordOf(a.id, s.asks[a.id].settled, a.reserved), k);
    }
  }

  lemma PublishesOpenedChanges(s: System, a: Action, k: Key)
    requires a.PublishesOpened? && Ready(s, a)
    ensures var l, m := At(s, k), At(Next(s, a), k);
      m == l || IsRipened(l, m)
  {
    OnlyTheRecordMoves(s, Next(s, a), k);
  }

  lemma SpendsClaimedChanges(s: System, a: Action, k: Key)
    requires a.SpendsClaimed? && Ready(s, a)
    ensures var l, m, p := At(s, k), At(Next(s, a), k), s.asks[a.id];
      m == l || IsSpent(l, m, p, k)
  {
    OnlyTheRecordMoves(s, Next(s, a), k);
    var settled := s.asks[a.id].settled;
    if Spends(settled) {
      ConsumeStanding(s.waits, settled.c.k, a.now, k);
    }
  }

  lemma GivesBackChanges(s: System, a: Action, k: Key)
    requires a.GivesBack? && Ready(s, a)
    ensures var l, m, p := At(s, k), At(Next(s, a), k), s.asks[a.id];
      m == l || IsReleased(l, m, p, k)
  {
    OnlyTheRecordMoves(s, Next(s, a), k);
  }

  lemma TakesBackChanges(s: System, a: Action, k: Key)
    requires a.TakesBack? && Ready(s, a)
    ensures var l, m, p := At(s, k), At(Next(s, a), k), s.asks[a.id];
      m == l || IsWithdrawn(l, m, p, k)
  {
    OnlyTheRecordMoves(s, Next(s, a), k);
  }

  lemma PersonActsChanges(s: System, a: Action, k: Key)
    requires a.PersonActs? && Ready(s, a)
    ensures var l, m := At(s, k), At(Next(s, a), k);
      m == l || IsRipened(l, m)
  {
    OnlyTheRecordMoves(s, Next(s, a), k);
    ResolveStanding(s.waits, a.k, a.person, a.verdict, a.text, a.now, k);
  }

  lemma SweepEndsChanges(s: System, a: Action, k: Key)
    requires a.SweepEnds? && Ready(s, a)
    ensures var l, m := At(s, k), At(Next(s, a), k);
      m == l || IsRipened(l, m)
  {
    OnlyTheRecordMoves(s, Next(s, a), k);
  }

  lemma SweepForgetsChanges(s: System, a: Action, k: Key)
    requires a.SweepForgets? && Ready(s, a)
    ensures var l, m := At(s, k), At(Next(s, a), k);
      m == l || IsForgotten(l, m)
  {
  }

  lemma BeginsSuspendedChanges(s: System, a: Action, k: Key)
    requires a.BeginsSuspended? && Ready(s, a)
    ensures var l, m := At(s, k), At(Next(s, a), k);
      m == l || IsMinted(l, m, a.id)
  {
  }

  lemma OtherChanges(s: System, a: Action, k: Key)
    requires Ready(s, a)
    requires a.BeginsByPolicy? || a.PutsToProvider? || a.Stops?
    ensures At(Next(s, a), k) == At(s, k)
  {
  }

  /** Whatever the step, each reference changes in one of the ways `Changed` lists. */
  lemma EveryStepChanges(s: System, a: Action, k: Key)
    requires Ready(s, a)
    ensures ChangesAt(s, a, k)
  {
    match a {
      case Looks(_, _) => LooksChanges(s, a, k);
      case TakesClaim(_) => TakesClaimChanges(s, a, k);
      case DropsUnprovided(_) => DropsUnprovidedChanges(s, a, k);
      case Appends(_, _, _) => AppendsChanges(s, a, k);
      case PublishesOpened(_) => PublishesOpenedChanges(s, a, k);
      case SpendsClaimed(_, _) => SpendsClaimedChanges(s, a, k);
      case GivesBack(_) => GivesBackChanges(s, a, k);
      case TakesBack(_) => TakesBackChanges(s, a, k);
      case PersonActs(_, _, _, _, _) => PersonActsChanges(s, a, k);
      case SweepEnds(_) => SweepEndsChanges(s, a, k);
      case SweepForgets(_) => SweepForgetsChanges(s, a, k);
      case BeginsSuspended(_, _) => BeginsSuspendedChanges(s, a, k);
      case _ => OtherChanges(s, a, k);
    }
  }

  // -- what the changes keep ---------------------------------------------------------

  lemma OthersKeep(l: Local, m: Local, p: Ask, id: nat, q: Ask, other: nat, k: Key, droppable: bool)
    requires p != Over ==> other != id
    requires AskHolds(q, other, k, l) && AskHolds(p, id, k, l) && KeyHolds(l, droppable)
    requires Changed(l, m, p, id, k)
    ensures AskHolds(q, other, k, m)
  {
  }

  lemma KeyKeeps(l: Local, m: Local, p: Ask, id: nat, k: Key, before: bool, after: bool)
    requires KeyHolds(l, before) && AskHolds(p, id, k, l)
    requires Changed(l, m, p, id, k)
    requires MayDrop(p) == Some(k) ==> before
    requires after ==> before || Offers(p) == Some(k)
    requires MayDrop(p) == Some(k) && m.told && !l.told ==> !after
    ensures KeyHolds(m, after)
  {
  }

  /** The acting ask itself, after its step. */
  ghost predicate ActorKeeps(s: System, a: Action, k: Key)
    requires Enabled(s, a) && Actor(a).Some?
  {
    var q := Next(s, a).asks[ActorId(a)];
    AskHolds(q, ActorId(a), k, At(Next(s, a), k)) && WellFormedAsk(q)
  }

  ghost predicate Holding(s: System, a: Action, k: Key) {
    && Ready(s, a)
    && KeyHolds(At(s, k), Droppable(s, k))
    && AskHolds(ActorBefore(s, a), ActorId(a), k, At(s, k))
  }

  /** Where a look can lead: this ask's own wait, now kept; a published one; or a new try. */
  lemma LookLeadsTo(s: System, a: Action)
    requires a.Looks? && Ready(s, a)
    ensures var q, opening := Next(s, a).asks[a.id], s.asks[a.id].opening;
      || (q == Providing(opening) && KeyOf(opening) in Next(s, a).waits.byRef
          && KeyOf(opening) in Next(s, a).everKept)
      || (Next(s, a).waits == s.waits && Next(s, a).everKept == s.everKept
          && (|| q == Over
              || (q.Looking? && q.opening == opening)
              || (q.Claiming? && q.opening == opening)
              || (q.Deciding? && WellFormedAsk(q) && Told(q) == None && Holds(q) == None && MayDrop(q) == None)
              || (q.Deciding? && WellFormedAsk(q) && Told(q).Some? && Holds(q) == None && MayDrop(q) == None
                  && Told(q).value in s.waits.byRef && s.waits.byRef[Told(q).value].published)))
  {
    LookFinds(s.waits, s.asks[a.id].opening, a.now);
  }

  lemma ActorAfterLook(s: System, a: Action, k: Key)
    requires a.Looks? && Holding(s, a, k)
    ensures ActorKeeps(s, a, k)
  {
    LookLeadsTo(s, a);
  }

  /** A claim that fails leads to a new try or to no answer, and changes nothing. */
  lemma ClaimLeadsTo(s: System, a: Action)
    requires a.TakesClaim? && Ready(s, a)
    ensures var p, q := s.asks[a.id], Next(s, a).asks[a.id];
      || q == Over
      || (q.Looking? && q.opening == p.opening)
      || (q.Deciding? && WellFormedAsk(q) && Holds(q) == Some(p.k) && Told(q) == None && MayDrop(q) == None
          && IsClaimed(At(s, p.k), At(Next(s, a), p.k), p, a.id))
  {
  }

  lemma ActorAfterClaim(s: System, a: Action, k: Key)
    requires a.TakesClaim? && Holding(s, a, k)
    ensures ActorKeeps(s, a, k)
  {
    ClaimLeadsTo(s, a);
    TakesClaimChanges(s, a, k);
  }

  lemma ActorAfterRefusedAppend(s: System, a: Action, k: Key)
    requires a.Appends? && a.append == RefusedBeforeTheFirstByte && Holding(s, a, k)
    ensures ActorKeeps(s, a, k)
  {
  }

  lemma ActorAfterAppend(s: System, a: Action, k: Key)
    requires a.Appends? && a.append != RefusedBeforeTheFirstByte && Holding(s, a, k)
    ensures ActorKeeps(s, a, k)
  {
    var settled := s.asks[a.id].settled;
    LogGrows(s.log, RecordOf(a.id, settled, a.reserved));
    assert Next(s, a).asks[a.id] == Publishing(settled);
    assert Spends(settled) ==> Granted(RecordOf(a.id, settled, a.reserved));
  }

  lemma ActorAfterBeginning(s: System, a: Action, k: Key)
    requires (a.BeginsByPolicy? || a.BeginsSuspended?) && Holding(s, a, k)
    ensures ActorKeeps(s, a, k)
  {
  }

  lemma ActorAfterStopping(s: System, a: Action, k: Key)
    requires a.Stops? && Holding(s, a, k)
    ensures ActorKeeps(s, a, k)
  {
  }

  lemma ActorAfterProvider(s: System, a: Action, k: Key)
    requires (a.PutsToProvider? || a.DropsUnprovided?) && Holding(s, a, k)
    ensures ActorKeeps(s, a, k)
  {
  }

  lemma ActorAfterRecord(s: System, a: Action, k: Key)
    requires (a.PublishesOpened? || a.SpendsClaimed?) && Holding(s, a, k)
    ensures ActorKeeps(s, a, k)
  {
  }

  lemma ActorAfterRefusal(s: System, a: Action, k: Key)
    requires (a.GivesBack? || a.TakesBack?) && Holding(s, a, k)
    ensures ActorKeeps(s, a, k)
  {
  }

  lemma ActorAlwaysKeeps(s: System, a: Action, k: Key)
    requires Actor(a).Some? && Holding(s, a, k)
    ensures ActorKeeps(s, a, k)
  {
    match a {
      case Looks(_, _) => ActorAfterLook(s, a, k);
      case TakesClaim(_) => ActorAfterClaim(s, a, k);
      case Appends(_, append, _) =>
        if append == RefusedBeforeTheFirstByte {
          ActorAfterRefusedAppend(s, a, k);
        } else {
          ActorAfterAppend(s, a, k);
        }
      case PutsToProvider(_, _) => ActorAfterProvider(s, a, k);
      case DropsUnprovided(_) => ActorAfterProvider(s, a, k);
      case PublishesOpened(_) => ActorAfterRecord(s, a, k);
      case SpendsClaimed(_, _) => ActorAfterRecord(s, a, k);
      case GivesBack(_) => ActorAfterRefusal(s, a, k);
      case TakesBack(_) => ActorAfterRefusal(s, a, k);
      case Stops(_) => ActorAfterStopping(s, a, k);
      case _ => ActorAfterBeginning(s, a, k);
    }
  }

  lemma LogAlwaysHolds(s: System, a: Action)
    requires Ready(s, a) && LogHolds(s.log)
    requires Holds(ActorBefore(s, a)).Some? ==> Holds(ActorBefore(s, a)).value !in AllowedKeys(s.log)
    ensures LogHolds(Next(s, a).log)
  {
    if a.Appends? {
      var r := RecordOf(a.id, s.asks[a.id].settled, a.reserved);
      if Granted(r) {
        assert Holds(ActorBefore(s, a)) == Some(r.k.value);
        forall q | q in s.log && Granted(q) ensures q.k != r.k {
          assert q.k.value in AllowedKeys(s.log);
        }
      }
    }
  }

  lemma ActorMayDrop(s: System, a: Action, k: Key)
    requires Ready(s, a) && Actor(a).Some?
    ensures MayDrop(Next(s, a).asks[ActorId(a)]) == Some(k)
      ==> MayDrop(ActorBefore(s, a)) == Some(k) || Offers(ActorBefore(s, a)) == Some(k)
    ensures MayDrop(ActorBefore(s, a)) == Some(k) && Next(s, a).log != s.log
      ==> MayDrop(Next(s, a).asks[ActorId(a)]) != Some(k)
  {
    if a.Looks? {
      LookLeadsTo(s, a);
    }
  }

  /** A step touches no ask but the actor's. */
  lemma OnlyTheActorMoves(s: System, a: Action)
    requires Enabled(s, a)
    ensures Actor(a).Some? ==>
      ActorId(a) in Next(s, a).asks && Next(s, a).asks == s.asks[ActorId(a) := Next(s, a).asks[ActorId(a)]]
    ensures Actor(a) == None ==> Next(s, a).asks == s.asks && Next(s, a).log == s.log
    ensures Next(s, a).minter == s.minter || (a.BeginsSuspended?
      && KeyOf(a.opening) !in s.minter && Next(s, a).minter == s.minter[KeyOf(a.opening) := a.id])
  {
  }

  lemma DroppableAfter(s: System, a: Action, k: Key)
    requires Ready(s, a) && AskHolds(ActorBefore(s, a), ActorId(a), k, At(s, k))
    ensures Droppable(Next(s, a), k) ==> Droppable(s, k) || Offers(ActorBefore(s, a)) == Some(k)
    ensures MayDrop(ActorBefore(s, a)) == Some(k) && Next(s, a).log != s.log ==> !Droppable(Next(s, a), k)
    ensures MayDrop(ActorBefore(s, a)) == Some(k) ==> Droppable(s, k)
  {
    OnlyTheActorMoves(s, a);
    if Actor(a).Some? {
      ActorMayDrop(s, a, k);
    }
  }
}
