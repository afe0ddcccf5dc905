/** The store and its readers' threads, interleaved: one store operation at a time holds the
    store's lock, while signals arrive, channels end and a closing store works through the
    readers it gave up. */
module GrantProtocol {
  import opened Outcomes
  import opened GrantFreshness

  type Reader = nat

  datatype ReaderState = ReaderState(grant: Grant, heard: Heard, channelClosed: bool)

  /** A `take` that has read its reader and still holds the lock. */
  datatype Look = Look(reader: Reader, heard: Heard, ask: Ask, principal: string, now: int)

  datatype System = System(
    readers: map<Reader, ReaderState>,
    held: map<Conditions, Reader>,
    closing: set<Reader>,
    taking: Option<Look>,
    everPut: set<Reader>,
    returned: seq<Look>)

  datatype Action =
    | Starts(reader: Reader, grant: Grant)
    | Hears(reader: Reader, signal: Signal)
    | ChannelEnds(reader: Reader)
    | Abandons(reader: Reader)
    | Puts(reader: Reader)
    | TakeLooks(ask: Ask, principal: string, now: int)
    | TakeAnswers
    | CloseEmpties
    | CloseCloses(reader: Reader)

  function Empty(): System { System(map[], map[], {}, None, {}, []) }

  function Closed(r: ReaderState): ReaderState { r.(heard := Disconnected(r.heard), channelClosed := true) }

  function Updated(s: System, reader: Reader, state: ReaderState): System { s.(readers := s.readers[reader := state]) }

  function CloseReader(s: System, reader: Reader): System {
    if reader in s.readers then Updated(s, reader, Closed(s.readers[reader])) else s
  }

  /** Whether an action can happen: store operations wait for the lock. */
  predicate Enabled(s: System, a: Action) {
    match a
    case Starts(r, _) => r !in s.readers
    case Hears(r, _) => r in s.readers
    case ChannelEnds(r) => r in s.readers
    case Abandons(r) => r in s.readers
    case Puts(r) => r in s.readers && s.taking == None
    case TakeLooks(_, _, _) => s.taking == None
    case TakeAnswers => s.taking.Some?
    case CloseEmpties => s.taking == None
    case CloseCloses(r) => r in s.closing
  }

  function AfterPut(s: System, r: Reader): System
    requires r in s.readers
  {
    var conditions := s.readers[r].grant.conditions;
    var displaced := if conditions in s.held && s.held[conditions] != r then CloseReader(s, s.held[conditions]) else s;
    displaced.(held := s.held[conditions := r], everPut := s.everPut + {r})
  }

  function AfterLook(s: System, ask: Ask, principal: string, now: int): System {
    var key := Question(ask, principal);
    if key in s.held && s.held[key] in s.readers
    then s.(taking := Some(Look(s.held[key], s.readers[s.held[key]].heard, ask, principal, now)))
    else s
  }

  function AfterAnswer(s: System): System
    requires s.taking.Some?
  {
    var look := s.taking.value;
    if look.reader !in s.readers then s
    else if EndingOf(s.readers[look.reader].grant, look.heard, look.ask, look.principal, look.now) == Live
    then s.(taking := None, returned := s.returned + [look])
    else CloseReader(s, look.reader).(taking := None, held := s.held - {Question(look.ask, look.principal)})
  }

  function Next(s: System, a: Action): System
    requires Enabled(s, a)
  {
    match a
    case Starts(r, grant) =>
      s.(readers := s.readers[r := ReaderState(grant, Heard(grant.issuedAt, true, None), false)])
    case Hears(r, signal) => Updated(s, r, s.readers[r].(heard := Signalled(s.readers[r].heard, signal)))
    case ChannelEnds(r) => Updated(s, r, s.readers[r].(heard := Disconnected(s.readers[r].heard)))
    case Abandons(r) => CloseReader(s, r)
    case Puts(r) => AfterPut(s, r)
    case TakeLooks(ask, principal, now) => AfterLook(s, ask, principal, now)
    case TakeAnswers => AfterAnswer(s)
    case CloseEmpties => s.(held := map[], closing := s.closing + s.held.Values)
    case CloseCloses(r) => CloseReader(s, r).(closing := s.closing - {r})
  }

  ghost predicate IsRun(s: System, actions: seq<Action>, last: System)
    decreases |actions|
  {
    if actions == [] then last == s else Enabled(s, actions[0]) && IsRun(Next(s, actions[0]), actions[1..], last)
  }

  // -- no orphan ----------------------------------------------------------------------------------

  ghost predicate HeldUnderItsQuestion(s: System) {
    forall k :: k in s.held ==> s.held[k] in s.readers && s.readers[s.held[k]].grant.conditions == k
  }

  predicate IsHeld(s: System, r: Reader)
    requires r in s.readers
  {
    var k := s.readers[r].grant.conditions;
    k in s.held && s.held[k] == r
  }

  predicate GivenUp(r: ReaderState) { r.channelClosed && !r.heard.connectionLive }

  ghost predicate NoOrphan(s: System) {
    forall r :: r in s.everPut ==> r in s.readers && (IsHeld(s, r) || GivenUp(s.readers[r]) || r in s.closing)
  }

  /** The lock keeps what a `take` looked at in place until it answers. */
  ghost predicate LookStands(s: System) {
    s.taking.Some? ==>
      var look := s.taking.value;
      Question(look.ask, look.principal) in s.held && s.held[Question(look.ask, look.principal)] == look.reader
  }

  ghost predicate AnswersWereLive(s: System) {
    forall i :: 0 <= i < |s.returned| ==>
      s.returned[i].reader in s.readers
      && EndingOf(s.readers[s.returned[i].reader].grant, s.returned[i].heard, s.returned[i].ask,
                  s.returned[i].principal, s.returned[i].now) == Live
  }

  ghost predicate Inv(s: System) {
    && HeldUnderItsQuestion(s) && NoOrphan(s) && LookStands(s) && AnswersWereLive(s)
    && (forall r :: r in s.closing ==> r in s.readers)
  }

  lemma UpdateKeepsInv(s: System, r: Reader, state: ReaderState)
    requires Inv(s) && r in s.readers
    requires state.grant == s.readers[r].grant && (GivenUp(s.readers[r]) ==> GivenUp(state))
    ensures Inv(Updated(s, r, state))
  {
    var t := Updated(s, r, state);
    forall q | q in t.everPut ensures q in t.readers && (IsHeld(t, q) || GivenUp(t.readers[q]) || q in t.closing) {
      assert q in s.readers;
    }
  }

  lemma CloseKeepsInv(s: System, r: Reader)
    requires Inv(s)
    ensures Inv(CloseReader(s, r))
  {
    if r in s.readers { UpdateKeepsInv(s, r, Closed(s.readers[r])); }
  }

  lemma StartKeepsInv(s: System, r: Reader, grant: Grant)
    requires Inv(s) && r !in s.readers
    ensures Inv(Next(s, Starts(r, grant)))
  {
    var t := Next(s, Starts(r, grant));
    forall q | q in t.everPut ensures q in t.readers && (IsHeld(t, q) || GivenUp(t.readers[q]) || q in t.closing) {
      assert q in s.readers && q != r;
    }
  }

  lemma PutKeepsInv(s: System, r: Reader)
    requires Inv(s) && r in s.readers && s.taking == None
    ensures Inv(AfterPut(s, r))
  {
    var k := s.readers[r].grant.conditions;
    var t := AfterPut(s, r);
    if k in s.held && s.held[k] != r { CloseKeepsInv(s, s.held[k]); }
    forall q | q in t.everPut ensures q in t.readers && (IsHeld(t, q) || GivenUp(t.readers[q]) || q in t.closing) {
      if q != r {
        assert q in s.everPut;
        if IsHeld(s, q) && s.readers[q].grant.conditions == k {
          assert GivenUp(t.readers[q]);
        }
      }
    }
  }

  lemma AnswerKeepsInv(s: System)
    requires Inv(s) && s.taking.Some?
    ensures Inv(AfterAnswer(s))
  {
    var look := s.taking.value;
    var t := AfterAnswer(s);
    CloseKeepsInv(s, look.reader);
    if t.returned == s.returned {
      forall q | q in t.everPut ensures q in t.readers && (IsHeld(t, q) || GivenUp(t.readers[q]) || q in t.closing) {
        assert q in s.everPut;
        if q != look.reader && IsHeld(s, q) {
          assert s.readers[q].grant.conditions != Question(look.ask, look.principal);
        }
      }
    }
  }

  lemma CloseEmptiesKeepsInv(s: System)
    requires Inv(s) && s.taking == None
    ensures Inv(Next(s, CloseEmpties))
  {
    var t := Next(s, CloseEmpties);
    forall q | q in t.everPut ensures q in t.readers && (IsHeld(t, q) || GivenUp(t.readers[q]) || q in t.closing) {
      assert q in s.everPut;
      if IsHeld(s, q) {
        assert s.held[s.readers[q].grant.conditions] in s.held.Values;
      }
    }
    forall q | q in t.closing ensures q in t.readers {
      if q !in s.closing {
        var k :| k in s.held && s.held[k] == q;
      }
    }
  }

  lemma StepKeepsInv(s: System, a: Action)
    requires Inv(s) && Enabled(s, a)
    ensures Inv(Next(s, a))
  {
    match a
    case Starts(r, grant) => StartKeepsInv(s, r, grant);
    case Hears(r, signal) => UpdateKeepsInv(s, r, s.readers[r].(heard := Signalled(s.readers[r].heard, signal)));
    case ChannelEnds(r) => UpdateKeepsInv(s, r, s.readers[r].(heard := Disconnected(s.readers[r].heard)));
    case Abandons(r) => CloseKeepsInv(s, r);
    case Puts(r) => PutKeepsInv(s, r);
    case TakeLooks(_, _, _) =>
    case TakeAnswers => AnswerKeepsInv(s);
    case CloseEmpties => CloseEmptiesKeepsInv(s);
    case CloseCloses(r) =>
      CloseKeepsInv(s, r);
      CloseClosesKeepsInv(s, r);
  }

  lemma CloseClosesKeepsInv(s: System, r: Reader)
    requires Inv(s) && r in s.closing && Inv(CloseReader(s, r))
    ensures Inv(Next(s, CloseCloses(r)))
  {
    var t := Next(s, CloseCloses(r));
    forall q | q in t.everPut ensures q in t.readers && (IsHeld(t, q) || GivenUp(t.readers[q]) || q in t.closing) {
      if q == r {
        assert GivenUp(t.readers[q]);
      } else {
        assert q in s.everPut;
      }
    }
  }

  lemma {:induction false} RunKeepsInv(s: System, actions: seq<Action>, last: System)
    requires Inv(s) && IsRun(s, actions, last)
    ensures Inv(last)
    decreases |actions|
  {
    if actions != [] {
      StepKeepsInv(s, actions[0]);
      RunKeepsInv(Next(s, actions[0]), actions[1..], last);
    }
  }

  /** Whatever the interleaving, no two questions share a held reader, and one that was put and
      is held no longer has been given up, unless a `close` under way still has it to close. */
  lemma NoReaderIsOrphaned(actions: seq<Action>, last: System, r: Reader)
    requires IsRun(Empty(), actions, last) && r in last.everPut
    ensures r in last.readers
    ensures (forall k :: k in last.held && last.held[k] == r ==> k == last.readers[r].grant.conditions)
    ensures r !in last.held.Values ==> GivenUp(last.readers[r]) || r in last.closing
  {
    RunKeepsInv(Empty(), actions, last);
    if IsHeld(last, r) {
      assert last.held[last.readers[r].grant.conditions] in last.held.Values;
    }
  }

  /** Once no `close` is under way, every reader is either held or given up. */
  lemma SettledReadersAreHeldOrGivenUp(actions: seq<Action>, last: System, r: Reader)
    requires IsRun(Empty(), actions, last) && r in last.everPut && last.closing == {}
    ensures r in last.readers && (IsHeld(last, r) || GivenUp(last.readers[r]))
  {
    RunKeepsInv(Empty(), actions, last);
  }

  // -- what a take answers --------------------------------------------------------------------------

  /** Whatever `take` returned was, as it looked, a usable grant minted for this very question,
      unexpired, and heard from within its lifetime. */
  lemma TakenGrantsCoverTheirQuestion(actions: seq<Action>, last: System, look: Look)
    requires IsRun(Empty(), actions, last) && look in last.returned
    ensures look.reader in last.readers
    ensures var grant := last.readers[look.reader].grant;
      grant.conditions == Question(look.ask, look.principal) && Usable(look.heard)
      && look.now < grant.expiresAt && look.now - look.heard.lastHeardAt < grant.lifetime
  {
    RunKeepsInv(Empty(), actions, last);
    var i :| 0 <= i < |last.returned| && last.returned[i] == look;
    assert last.returned[i].reader in last.readers;
    LiveExactly(last.readers[look.reader].grant, look.heard, look.ask, look.principal, look.now);
  }

  // -- no revival -------------------------------------------------------------------------------------

  /** The reader cannot be used, and no `take` has seen it while it could. */
  ghost predicate Spent(s: System, r: Reader) {
    r in s.readers && !Usable(s.readers[r].heard)
    && (s.taking.Some? && s.taking.value.reader == r ==> !Usable(s.taking.value.heard))
  }

  /** How often `take` has returned this reader. */
  function TimesReturned(returned: seq<Look>, r: Reader): nat {
    if returned == [] then 0
    else TimesReturned(returned[..|returned| - 1], r) + if returned[|returned| - 1].reader == r then 1 else 0
  }

  lemma StepKeepsSpent(s: System, a: Action, r: Reader)
    requires Enabled(s, a) && Spent(s, r)
    ensures Spent(Next(s, a), r)
    ensures TimesReturned(Next(s, a).returned, r) == TimesReturned(s.returned, r)
  {
    match a
    case TakeAnswers =>
      var look := s.taking.value;
      if look.reader in s.readers {
        LiveExactly(s.readers[look.reader].grant, look.heard, look.ask, look.principal, look.now);
        assert (s.returned + [look])[..|s.returned|] == s.returned;
      }
    case Hears(q, signal) => NothingRevives(s.readers[r].heard, signal);
    case _ =>
  }

  /** Once a reader has been closed or ended, no later signal, store or question makes `take`
      return it; only a `take` that had already looked may. */
  lemma {:induction false} SpentReadersAreNeverReturned(s: System, actions: seq<Action>, last: System, r: Reader)
    requires IsRun(s, actions, last) && Spent(s, r)
    ensures Spent(last, r)
    ensures TimesReturned(last.returned, r) == TimesReturned(s.returned, r)
    decreases |actions|
  {
    if actions != [] {
      StepKeepsSpent(s, actions[0], r);
      SpentReadersAreNeverReturned(Next(s, actions[0]), actions[1..], last, r);
    }
  }
}
