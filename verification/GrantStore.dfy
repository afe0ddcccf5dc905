/** The readers in hand, keyed by what their grants cover, and the readers themselves. */
module GrantStore {
  import opened Outcomes
  import opened GrantFreshness

  class SignalReader {
    const grant: Grant
    var lastHeardAt: int
    var connectionLive: bool
    var endedBy: Option<EndReason>
    /** Whether the channel itself has been given up. */
    var channelClosed: bool

    constructor (grant: Grant)
      ensures this.grant == grant && !channelClosed
      ensures Held() == Heard(grant.issuedAt, true, None)
    {
      this.grant := grant;
      lastHeardAt := grant.issuedAt;
      connectionLive := true;
      endedBy := None;
      channelClosed := false;
    }

    function Held(): Heard
      reads this
    {
      Heard(lastHeardAt, connectionLive, endedBy)
    }

    method Apply(signal: Signal)
      modifies this
      ensures Held() == Signalled(old(Held()), signal) && channelClosed == old(channelClosed)
    {
      if endedBy != None { return; }
      lastHeardAt := signal.at;
      if signal.grantEnded {
        endedBy := signal.reason;
      }
    }

    /** The step of the reading thread when it stops, for whatever reason it does. */
    method ChannelEnds()
      modifies this
      ensures Held() == Disconnected(old(Held())) && channelClosed == old(channelClosed)
    {
      connectionLive := false;
    }

    method Close()
      modifies this
      ensures Held() == Disconnected(old(Held())) && channelClosed
    {
      connectionLive := false;
      channelClosed := true;
    }
  }

  class GrantStore {
    var held: map<Conditions, SignalReader>

    /** Every reader is held under the question its own grant answers. */
    ghost predicate Valid()
      reads this
    {
      forall k :: k in held ==> held[k].grant.conditions == k
    }

    constructor ()
      ensures Valid() && held == map[]
    {
      held := map[];
    }

    ghost function Under(k: Conditions): set<SignalReader>
      reads this
    {
      if k in held then {held[k]} else {}
    }

    method Put(reader: SignalReader)
      requires Valid()
      modifies this, Under(reader.grant.conditions)
      ensures Valid() && held == old(held)[reader.grant.conditions := reader]
      ensures forall r :: r in old(Under(reader.grant.conditions)) && r != reader ==>
        r.channelClosed && r.Held() == Disconnected(old(r.Held()))
      ensures old(reader.Held()) == reader.Held() && old(reader.channelClosed) == reader.channelClosed
    {
      var conditions := reader.grant.conditions;
      if conditions in held && held[conditions] != reader {
        held[conditions].Close();
      }
      held := held[conditions := reader];
    }

    method Take(ask: Ask, principal: string, now: int) returns (taken: SignalReader?)
      requires Valid()
      modifies this, Under(Question(ask, principal))
      ensures Valid()
      ensures var key := Question(ask, principal);
        taken != null <==> key in old(held)
                           && old(EndingOf(held[key].grant, held[key].Held(), ask, principal, now)) == Live
      ensures taken != null ==>
        taken.grant.conditions == Question(ask, principal) && now < taken.grant.expiresAt && Usable(taken.Held())
        && now - taken.lastHeardAt < taken.grant.lifetime && held == old(held) && taken == held[Question(ask, principal)]
        && taken.Held() == old(taken.Held())
      ensures taken == null ==> held == old(held) - {Question(ask, principal)}
      ensures taken == null ==>
        forall r :: r in old(Under(Question(ask, principal))) ==>
          r.channelClosed && r.Held() == Disconnected(old(r.Held()))
    {
      var key := Question(ask, principal);
      if key !in held { return null; }
      var reader := held[key];
      LiveExactly(reader.grant, reader.Held(), ask, principal, now);
      if EndingOf(reader.grant, reader.Held(), ask, principal, now) == Live { return reader; }
      held := held - {key};
      reader.Close();
      taken := null;
    }

    method Close()
      modifies this, held.Values
      ensures Valid() && held == map[]
      ensures forall r :: r in old(held.Values) ==> r.channelClosed && r.Held() == Disconnected(old(r.Held()))
    {
      var readers := held.Values;
      held := map[];
      var left := readers;
      while left != {}
        invariant left <= readers && held == map[]
        invariant forall r :: r in readers - left ==> r.channelClosed && r.Held() == Disconnected(old(r.Held()))
        invariant forall r :: r in left ==> r.Held() == old(r.Held())
        decreases |left|
      {
        var reader :| reader in left;
        reader.Close();
        left := left - {reader};
      }
    }
  }
}
