/** May a grant in hand be acted on, and if it may not, why. */
module GrantFreshness {
  import opened Outcomes

  datatype Conditions = Conditions(scope: string, capability: string, principal: string, argumentsDigest: Option<string>)

  datatype Ask = Ask(scope: string, capability: string, argumentsDigest: Option<string>)

  /** Instants and the lifetime are counted in the same unit. */
  datatype Grant = Grant(grantId: string, issuedAt: int, lifetime: int, expiresAt: int, conditions: Conditions)

  datatype EndReason = PolicyVersionChanged | LifetimeSpent | DaemonStopping

  datatype Heard = Heard(lastHeardAt: int, connectionLive: bool, endedBy: Option<EndReason>)

  datatype Use = Hit | UseConnectionLost | UseExpired | UseArgumentsChanged | UseConditionsDiffer

  datatype Ending = Live | ConnectionLost | Expired | Silent | VersionChanged | ConditionsDiffer | ArgumentsChanged

  function GrantUse(grant: Grant, ask: Ask, principal: string, now: int, connectionLive: bool): Use {
    if !connectionLive then UseConnectionLost
    else if now >= grant.expiresAt then UseExpired
    else if grant.conditions.scope != ask.scope || grant.conditions.capability != ask.capability
            || grant.conditions.principal != principal then UseConditionsDiffer
    else if grant.conditions.argumentsDigest != ask.argumentsDigest then UseArgumentsChanged
    else Hit
  }

  function BySignal(reason: EndReason): Ending {
    match reason
    case PolicyVersionChanged => VersionChanged
    case LifetimeSpent => Expired
    case DaemonStopping => ConnectionLost
  }

  function ByUse(use: Use): Ending {
    match use
    case Hit => Live
    case UseConnectionLost => ConnectionLost
    case UseExpired => Expired
    case UseArgumentsChanged => ArgumentsChanged
    case UseConditionsDiffer => ConditionsDiffer
  }

  /** The verdict on using a grant for an ask; a spent lifetime is reported ahead of silence. */
  function EndingOf(grant: Grant, heard: Heard, ask: Ask, principal: string, now: int): Ending {
    if !heard.connectionLive then ConnectionLost
    else if heard.endedBy.Some? then BySignal(heard.endedBy.value)
    else
      var use := GrantUse(grant, ask, principal, now, true);
      if use == UseConnectionLost || use == UseExpired then ByUse(use)
      else if now - heard.lastHeardAt >= grant.lifetime then Silent
      else ByUse(use)
  }

  /** The conditions an ask is asked under. */
  function Question(ask: Ask, principal: string): Conditions {
    Conditions(ask.scope, ask.capability, principal, ask.argumentsDigest)
  }

  /** Neither closed nor ended by a signal. */
  predicate Usable(heard: Heard) { heard.connectionLive && heard.endedBy == None }

  /** A grant permits acting exactly when its channel is live and has not ended it, its lifetime
      runs, it was heard from within that lifetime, and it was minted for this very question. */
  lemma LiveExactly(grant: Grant, heard: Heard, ask: Ask, principal: string, now: int)
    ensures EndingOf(grant, heard, ask, principal, now) == Live <==>
      Usable(heard) && now < grant.expiresAt && now - heard.lastHeardAt < grant.lifetime
      && grant.conditions == Question(ask, principal)
  {
    if heard.endedBy.Some? {
      match heard.endedBy.value {
        case PolicyVersionChanged =>
        case LifetimeSpent =>
        case DaemonStopping =>
      }
    }
  }

  /** Expiry is never reported as silence: a spent lifetime is named as such. */
  lemma SilenceIsNeverExpiry(grant: Grant, heard: Heard, ask: Ask, principal: string, now: int)
    requires EndingOf(grant, heard, ask, principal, now) == Silent
    ensures Usable(heard) && now < grant.expiresAt && now - heard.lastHeardAt >= grant.lifetime
  {
    LiveExactly(grant, heard, ask, principal, now);
  }

  /** Each way a grant stops permitting, exactly: by the channel, by its age, by its silence, or because
      it answers another question. */
  lemma EndingIsExact(grant: Grant, heard: Heard, ask: Ask, principal: string, now: int)
    ensures var e := EndingOf(grant, heard, ask, principal, now);
      var recent := now - heard.lastHeardAt < grant.lifetime;
      var asked := grant.conditions.(argumentsDigest := ask.argumentsDigest) == Question(ask, principal);
      && (e == ConnectionLost <==> !heard.connectionLive || heard.endedBy == Some(DaemonStopping))
      && (e == VersionChanged <==> heard.connectionLive && heard.endedBy == Some(PolicyVersionChanged))
      && (e == Expired <==>
        heard.connectionLive && (heard.endedBy == Some(LifetimeSpent) || (heard.endedBy == None && now >= grant.expiresAt)))
      && (e == Silent <==> Usable(heard) && now < grant.expiresAt && !recent)
      && (e == ConditionsDiffer <==> Usable(heard) && now < grant.expiresAt && recent && !asked)
      && (e == ArgumentsChanged <==>
        Usable(heard) && now < grant.expiresAt && recent && asked && grant.conditions.argumentsDigest != ask.argumentsDigest)
  {
    LiveExactly(grant, heard, ask, principal, now);
  }

  // -- what a channel says --------------------------------------------------------------------

  /** A signal: whether it is an ending, its instant, and the reason it gives, which may be absent. */
  datatype Signal = Signal(grantEnded: bool, at: int, reason: Option<EndReason>)

  /** An ending is final; any other signal is news, and an ending's reason is taken as it is. */
  function Signalled(heard: Heard, signal: Signal): Heard {
    if heard.endedBy.Some? then heard
    else Heard(signal.at, heard.connectionLive, if signal.grantEnded then signal.reason else heard.endedBy)
  }

  function Disconnected(heard: Heard): Heard { heard.(connectionLive := false) }

  /** A signal ends a usable grant exactly when it is an ending that carries a reason. */
  lemma SignalEndsExactly(heard: Heard, signal: Signal)
    ensures Usable(Signalled(heard, signal)) <==> Usable(heard) && !(signal.grantEnded && signal.reason.Some?)
  {
  }

  /** Any other signal is news: from its instant on, a usable grant that is unexpired and answers this
      question may be acted on until, and not after, its lifetime has passed in silence. */
  lemma SignalIsHeard(grant: Grant, heard: Heard, signal: Signal, ask: Ask, principal: string, now: int)
    requires Usable(heard) && !(signal.grantEnded && signal.reason.Some?)
    requires now < grant.expiresAt && grant.conditions == Question(ask, principal)
    ensures EndingOf(grant, Signalled(heard, signal), ask, principal, now) == Live <==> now < signal.at + grant.lifetime
  {
    LiveExactly(grant, Signalled(heard, signal), ask, principal, now);
  }

  /** And what ends a grant is told as it was given, whatever is signalled after it. */
  lemma EndingIsTold(heard: Heard, signal: Signal, later: Signal)
    requires heard.endedBy == None
    ensures Signalled(heard, signal).endedBy == if signal.grantEnded then signal.reason else None
    ensures Signalled(heard, signal).endedBy.Some? ==> Signalled(Signalled(heard, signal), later) == Signalled(heard, signal)
    ensures Signalled(heard, signal).connectionLive == heard.connectionLive
  {
  }

  /** So an ending without a reason leaves the grant usable, and freshly heard from. */
  lemma ReasonlessEndingKeepsTheGrant(grant: Grant, heard: Heard, at: int, ask: Ask, principal: string, now: int)
    requires EndingOf(grant, heard, ask, principal, now) == Live && now - at < grant.lifetime
    ensures EndingOf(grant, Signalled(heard, Signal(true, at, None)), ask, principal, now) == Live
  {
    LiveExactly(grant, heard, ask, principal, now);
    LiveExactly(grant, Signalled(heard, Signal(true, at, None)), ask, principal, now);
  }

  /** Nothing a channel says or does makes an unusable grant usable again. */
  lemma NothingRevives(heard: Heard, signal: Signal)
    requires !Usable(heard)
    ensures !Usable(Signalled(heard, signal)) && !Usable(Disconnected(heard))
  {
  }
}
