/** The approval store as an object: two indexes and two lazy due-time heaps, updated in
    place. One lock covers each method, so each is a single step to everybody else.

    An entry of `due` or `lapsing` may be out of date in every way: its record gone or
    changed, the entry doubled, its instant that of a predecessor under the same key. All
    the store relies on is `Covered`: a record that will need attention has some entry at
    or before the instant it will need it. */
module ApprovalStore {
  import opened Outcomes
  import opened StoreKeys
  import opened ApprovalRecord
  import opened WaitRules
  import opened DueTimes
  import opened SweepOrder

  /** Some entry of the index surfaces this key no later than `at`. */
  ghost predicate Surfaces(h: seq<Entry>, k: Key, at: int) {
    exists e :: e in h && e.key == k && e.at <= at
  }

  ghost predicate CoveredAt(a: Approval, k: Key, due: seq<Entry>, lapsing: seq<Entry>) {
    && (a.state == Pending ==> Surfaces(due, k, a.deadline))
    && (LapseInstant(a).Some? ==> Surfaces(lapsing, k, LapseInstant(a).value))
  }

  ghost predicate Covered(byRef: map<Key, Approval>, but: set<Key>, due: seq<Entry>, lapsing: seq<Entry>) {
    forall k :: k in byRef && k !in but ==> CoveredAt(byRef[k], k, due, lapsing)
  }

  lemma PushSurfaces(h: seq<Entry>, e: Entry, now: int)
    requires Ascending(h)
    ensures Ascending(Push(h, e))
    ensures Ripe(Push(h, e), now) == Ripe(h, now) + (if e.at <= now then 1 else 0)
    ensures Surfaces(Push(h, e), e.key, e.at)
    ensures forall k, at :: Surfaces(h, k, at) ==> Surfaces(Push(h, e), k, at)
  {
    PushFacts(h, e, now);
    assert e in Push(h, e);
    forall k, at | Surfaces(h, k, at) ensures Surfaces(Push(h, e), k, at) {
      var x :| x in h && x.key == k && x.at <= at;
      assert x in Push(h, e);
    }
  }

  /** Taking out the smallest entry uncovers nothing but the key it named. */
  lemma PopSurfaces(h: seq<Entry>)
    requires h != []
    ensures forall k, at :: k != h[0].key && Surfaces(h, k, at) ==> Surfaces(h[1..], k, at)
  {
    forall k, at | k != h[0].key && Surfaces(h, k, at) ensures Surfaces(h[1..], k, at) {
      var x :| x in h && x.key == k && x.at <= at;
      assert x in h[1..];
    }
  }

  /** A sweep's answer: these records, each once, in store-key order. */
  ghost predicate AnswersExactly(answer: seq<Approval>, records: map<Key, Approval>) {
    InStoreKeyOrder(answer) && Holds(answer, records)
  }

  ghost predicate Holds(collected: seq<Approval>, records: map<Key, Approval>) {
    forall a :: a in collected <==> KeyOf(a) in records && records[KeyOf(a)] == a
  }

  /** What a sweep has collected part of the way through. */
  ghost predicate Collected(collected: seq<Approval>, records: map<Key, Approval>) {
    DistinctKeys(collected) && Holds(collected, records)
  }

  lemma MergeOneMore<K, V>(m: map<K, V>, done: map<K, V>, k: K, v: V)
    ensures (m + done)[k := v] == m + done[k := v]
  {
  }

  lemma CollectOneMore(collected: seq<Approval>, records: map<Key, Approval>, a: Approval)
    requires Collected(collected, records) && KeyOf(a) !in records
    ensures Collected(collected + [a], records[KeyOf(a) := a])
  {
    forall i | 0 <= i < |collected| ensures KeyOf(collected[i]) != KeyOf(a) {
      assert collected[i] in collected;
    }
  }

  ghost function EndedBy(w: Waits, now: int): map<Key, Approval> {
    map k | k in w.byRef && RanOut(w.byRef[k], now) :: Lapsed(w.byRef[k])
  }

  ghost function ForgottenBy(w: Waits, now: int): map<Key, Approval> {
    map k | k in w.byRef && OfNoFurtherUse(w.byRef[k], now) :: w.byRef[k]
  }

  /** Part of one answer's records: `part` is `whole` restricted to fewer keys. */
  ghost predicate PartOf(part: map<Key, Approval>, whole: map<Key, Approval>) {
    forall k :: k in part ==> k in whole && part[k] == whole[k]
  }

  lemma PartOneMore(part: map<Key, Approval>, whole: map<Key, Approval>, k: Key)
    requires PartOf(part, whole) && k in whole
    ensures PartOf(part[k := whole[k]], whole)
    ensures part[k := whole[k]].Keys == part.Keys + {k}
  {
  }

  lemma AnswerInOrder(collected: seq<Approval>, records: map<Key, Approval>)
    requires Collected(collected, records)
    ensures AnswersExactly(SortedByKey(collected), records)
  {
    SortingIsExact(collected);
  }

  /** A deadline index with nothing left at or before `now` has surfaced every wait that ran out. */
  lemma EveryWaitSurfaced(before: Waits, done: map<Key, Approval>, due: seq<Entry>, lapsing: seq<Entry>, now: int)
    requires PartOf(done, EndedBy(before, now))
    requires Covered(before.byRef + done, {}, due, lapsing)
    requires forall e :: e in due ==> e.at > now
    ensures done == EndedBy(before, now)
    ensures before.byRef + done == ExpirePast(before, now).byRef
  {
    forall k | k in before.byRef && k !in done ensures !RanOut(before.byRef[k], now) {
      assert CoveredAt((before.byRef + done)[k], k, due, lapsing);
    }
  }

  /** The same for the lapse index and the records of no further use. */
  lemma EveryLapseSurfaced(before: Waits, gone: map<Key, Approval>, due: seq<Entry>, lapsing: seq<Entry>, now: int)
    requires PartOf(gone, ForgottenBy(before, now))
    requires Covered(before.byRef - gone.Keys, {}, due, lapsing)
    requires forall e :: e in lapsing ==> e.at > now
    ensures gone == ForgottenBy(before, now)
    ensures gone.Keys == OfNoUseAt(before, now)
  {
    forall k | k in before.byRef && k !in gone ensures !OfNoFurtherUse(before.byRef[k], now) {
      assert CoveredAt((before.byRef - gone.Keys)[k], k, due, lapsing);
    }
  }

  function WithLapse(lapsing: seq<Entry>, k: Key, a: Approval): seq<Entry> {
    match LapseInstant(a) case Some(at) => Push(lapsing, Entry(at, k)) case None => lapsing
  }

  /** A record that is no longer pending needs its lapse indexed and nothing else. */
  lemma RewriteCovers(byRef: map<Key, Approval>, k: Key, a: Approval, due: seq<Entry>, lapsing: seq<Entry>)
    requires Ascending(lapsing) && Covered(byRef, {k}, due, lapsing) && a.state != Pending
    ensures Covered(byRef[k := a], {}, due, WithLapse(lapsing, k, a))
  {
    if LapseInstant(a).Some? {
      PushSurfaces(lapsing, Entry(LapseInstant(a).value, k), 0);
    }
    var rewritten := byRef[k := a];
    forall j | j in rewritten ensures CoveredAt(rewritten[j], j, due, WithLapse(lapsing, k, a)) {
      if j != k {
        assert CoveredAt(byRef[j], j, due, lapsing);
      }
    }
  }

  lemma NewestOfLast(byRef: map<Key, Approval>, keys: seq<Key>, now: int, inFlight: bool)
    requires keys != [] && forall k :: k in keys ==> k in byRef
    ensures var last := byRef[keys[|keys| - 1]];
      NewestOf(byRef, keys, now, inFlight)
      == if Answers(last, now, inFlight) then Some(last) else NewestOf(byRef, keys[..|keys| - 1], now, inFlight)
  {
  }

  /** The backwards walk over the references of one question. */
  method NewestAmong(records: map<Key, Approval>, keys: seq<Key>, now: int, inFlight: bool) returns (found: Option<Approval>)
    requires forall k :: k in keys ==> k in records
    ensures found == NewestOf(records, keys, now, inFlight)
  {
    var i := |keys|;
    assert keys[..i] == keys;
    while i > 0
      invariant 0 <= i <= |keys|
      invariant NewestOf(records, keys, now, inFlight) == NewestOf(records, keys[..i], now, inFlight)
    {
      NewestOfLast(records, keys[..i], now, inFlight);
      i := i - 1;
      var kept := records[keys[i]];
      assert keys[..i + 1][..i] == keys[..i];
      if kept.consumed { continue; }
      if (kept.claimed || !kept.published) && !inFlight { continue; }
      if StateAt(kept, now) == Expired { continue; }
      if kept.state == Rejected && now >= kept.deadline { continue; }
      return Some(kept);
    }
    return None;
  }

  class ApprovalStore {
    var byReference: map<Key, Approval>
    var byQuestion: map<Question, seq<Key>>
    var due: seq<Entry>
    var lapsing: seq<Entry>

    ghost function View(): Waits
      reads this
    {
      Waits(byReference, byQuestion)
    }

    ghost predicate Valid()
      reads this
    {
      ValidBut({})
    }

    /** Valid, except that nothing surfaces the records of these keys. */
    ghost predicate ValidBut(but: set<Key>)
      reads this
    {
      && Consistent(View())
      && Ascending(due)
      && Ascending(lapsing)
      && Covered(byReference, but, due, lapsing)
    }

    constructor ()
      ensures Valid() && View() == NOTHING_KEPT
    {
      byReference, byQuestion, due, lapsing := map[], map[], [], [];
    }

    method IndexLapse(k: Key, kept: Approval)
      requires Ascending(lapsing)
      modifies this`lapsing
      ensures Ascending(lapsing)
      ensures lapsing == WithLapse(old(lapsing), k, kept)
    {
      match LapseInstant(kept) {
        case Some(at) =>
          PushSurfaces(lapsing, Entry(at, k), 0);
          lapsing := Push(lapsing, Entry(at, k));
        case None =>
      }
    }

    method Open(a: Approval) returns (answer: Result<Approval, Refusal>)
      requires Valid()
      modifies this
      ensures Valid()
      ensures Did(View(), answer) == WaitRules.Open(old(View()), a)
    {
      if a.published || a.state != Pending { return Err(InvalidValue); }
      var k := KeyOf(a);
      if k in byReference { return Err(AlreadyExists); }
      KeptConsistent(View(), a);
      byReference := byReference[k := a];
      byQuestion := byQuestion[a.question := (if a.question in byQuestion then byQuestion[a.question] else []) + [k]];
      PushSurfaces(due, Entry(a.deadline, k), 0);
      due := Push(due, Entry(a.deadline, k));
      return Ok(a);
    }

    method Read(k: Key) returns (answer: Result<Approval, Refusal>)
      ensures answer == WaitRules.Read(View(), k)
    {
      if k in byReference { return Ok(byReference[k]); }
      return Err(NotKept);
    }

    /** The newest record this question still has: one backwards walk for both callers. */
    method NewestLive(q: Question, now: int, inFlight: bool) returns (found: Option<Approval>)
      requires Valid()
      ensures found == WaitRules.NewestLive(View(), q, now, inFlight)
    {
      found := NewestAmong(byReference, if q in byQuestion then byQuestion[q] else [], now, inFlight);
    }

    method FindForQuestion(q: Question, now: int) returns (found: Option<Approval>)
      requires Valid()
      ensures found == WaitRules.NewestLive(View(), q, now, false)
    {
      found := NewestLive(q, now, false);
    }

    method OpenIfAbsent(a: Approval, now: int) returns (answer: Result<Approval, Refusal>)
      requires Valid()
      modifies this
      ensures Valid()
      ensures Did(View(), answer) == WaitRules.OpenIfAbsent(old(View()), a, now)
    {
      var found := NewestLive(a.question, now, true);
      match found {
        case Some(kept) => answer := Ok(kept);
        case None => answer := Open(a);
      }
    }

    method Publish(k: Key) returns (answer: Result<Approval, Refusal>)
      requires Valid()
      modifies this`byReference
      ensures Valid()
      ensures Did(View(), answer) == WaitRules.Publish(old(View()), k)
    {
      if k !in byReference { return Err(NotKept); }
      var kept := byReference[k];
      if kept.state != Pending { return Err(InvalidValue); }
      if kept.published { return Ok(kept); }
      var published := kept.(published := true);
      byReference := byReference[k := published];
      return Ok(published);
    }

    /** Take one record out of both indexes. */
    method Drop(k: Key)
      requires Consistent(View()) && k in byReference
      modifies this`byReference, this`byQuestion
      ensures View() == Dropped(old(View()), k, old(byReference[k].question))
    {
      var q := byReference[k].question;
      byReference := byReference - {k};
      if q in byQuestion {
        var rest := WithoutFirst(byQuestion[q], k);
        byQuestion := if rest == [] then byQuestion - {q} else byQuestion[q := rest];
      }
    }

    method Abandon(k: Key) returns (answer: Result<Approval, Refusal>)
      requires Valid()
      modifies this
      ensures Valid()
      ensures Did(View(), answer) == WaitRules.Abandon(old(View()), k)
    {
      if k !in byReference { return Err(NotKept); }
      var kept := byReference[k];
      if kept.state != Pending || kept.claimed || kept.published { return Err(InvalidValue); }
      DroppedIsAllDropped(View(), k);
      AllDroppedConsistent(View(), {k});
      Drop(k);
      return Ok(kept);
    }

    method Resolve(k: Key, person: string, verdict: Verdict, reason: Option<string>, now: int)
      returns (answer: Result<Approval, Refusal>)
      requires Valid()
      modifies this
      ensures Valid()
      ensures Did(View(), answer) == WaitRules.Resolve(old(View()), k, person, verdict, reason, now)
    {
      if k !in byReference { return Err(NotKept); }
      var kept := byReference[k];
      if kept.state != Pending { return Err(AlreadyResolved); }
      if now >= kept.deadline {
        Rewrite(k, kept.(state := Expired, resolvedAt := Some(kept.deadline)));
        return Err(AlreadyResolved);
      }
      var resolved: Record := kept.(state := StateOf(verdict), resolvedAt := Some(now),
                                    person := Some(person), resolutionReason := reason, published := true);
      if !Constructible(resolved) { return Err(InvalidValue); }
      Rewrite(k, resolved);
      return Ok(resolved);
    }

    /** Replace one kept record and index the instant it lapses at, if it now has one. */
    method Rewrite(k: Key, a: Approval)
      requires ValidBut({k}) && k in byReference && KeyOf(a) == k && a.question == byReference[k].question
      requires a.state != Pending
      modifies this`byReference, this`lapsing
      ensures Valid()
      ensures View() == Rewritten(old(View()), k, a)
    {
      RewrittenConsistent(View(), k, a);
      RewriteCovers(byReference, k, a, due, lapsing);
      byReference := byReference[k := a];
      IndexLapse(k, a);
    }

    method Claim(k: Key) returns (answer: Result<Approval, Refusal>)
      requires Valid()
      modifies this`byReference
      ensures Valid()
      ensures Did(View(), answer) == WaitRules.Claim(old(View()), k)
    {
      if k !in byReference { return Err(NotKept); }
      var kept := byReference[k];
      if kept.state != Approved { return Err(InvalidValue); }
      if kept.consumed || kept.claimed { return Err(AlreadyClaimed); }
      byReference := byReference[k := kept.(claimed := true)];
      return Ok(kept.(claimed := true));
    }

    method ReleaseClaim(k: Key) returns (answer: Result<Approval, Refusal>)
      requires Valid()
      modifies this`byReference
      ensures Valid()
      ensures Did(View(), answer) == WaitRules.ReleaseClaim(old(View()), k)
    {
      if k !in byReference { return Err(NotKept); }
      var kept := byReference[k];
      if kept.consumed { return Err(InvalidValue); }
      if !kept.claimed { return Err(InvalidValue); }
      byReference := byReference[k := kept.(claimed := false)];
      return Ok(kept.(claimed := false));
    }

    method Consume(k: Key, now: int) returns (answer: Result<Approval, Refusal>)
      requires Valid()
      modifies this
      ensures Valid()
      ensures Did(View(), answer) == WaitRules.Consume(old(View()), k, now)
    {
      if k !in byReference { return Err(NotKept); }
      var kept := byReference[k];
      if kept.state != Approved { return Err(InvalidValue); }
      if kept.consumed { return Err(InvalidValue); }
      if !kept.claimed { return Err(InvalidValue); }
      var spent: Record := kept.(consumed := true, consumedAt := Some(now));
      if !Constructible(spent) { return Err(InvalidValue); }
      Rewrite(k, spent);
      return Ok(spent);
    }

    /** Pop the earliest entry of `due`: the key it names when that record is overdue, and
        otherwise nothing, with the entry pushed back under its present deadline if it has one. */
    method NextDue(now: int) returns (surfaced: Option<Key>)
      requires Valid() && due != [] && due[0].at <= now
      modifies this`due
      ensures Ripe(due, now) < old(Ripe(due, now))
      ensures match surfaced
        case None => Valid()
        case Some(k) => ValidBut({k}) && k in byReference && RanOut(byReference[k], now)
    {
      var k := due[0].key;
      PopSurfaces(due);
      due := due[1..];
      if k !in byReference { return None; }
      var kept := byReference[k];
      if kept.state != Pending { return None; }
      if now < kept.deadline {
        PushSurfaces(due, Entry(kept.deadline, k), now);
        due := Push(due, Entry(kept.deadline, k));
        return None;
      }
      return Some(k);
    }

    /** The same for the lapse index: the key of a record nothing can still need. */
    method NextLapsing(now: int) returns (surfaced: Option<Key>)
      requires Valid() && lapsing != [] && lapsing[0].at <= now
      modifies this`lapsing
      ensures Ripe(lapsing, now) < old(Ripe(lapsing, now))
      ensures match surfaced
        case None => Valid()
        case Some(k) => ValidBut({k}) && k in byReference && OfNoFurtherUse(byReference[k], now)
    {
      var k := lapsing[0].key;
      PopSurfaces(lapsing);
      lapsing := lapsing[1..];
      if k !in byReference { return None; }
      var kept := byReference[k];
      if !OfNoFurtherUse(kept, now) {
        if LapseInstant(kept).Some? {
          PushSurfaces(lapsing, Entry(LapseInstant(kept).value, k), now);
        }
        IndexLapse(k, kept);
        return None;
      }
      return Some(k);
    }

    /** One turn of `ExpirePast`: the wait it ended, if the front of the index named one. */
    method EndNext(now: int) returns (expired: Option<Approval>)
      requires Valid() && due != [] && due[0].at <= now
      modifies this`byReference, this`due, this`lapsing
      ensures Valid() && Ripe(due, now) < old(Ripe(due, now))
      ensures match expired
        case None => View() == old(View())
        case Some(a) =>
          var k := KeyOf(a);
          && k in old(byReference)
          && RanOut(old(byReference[k]), now)
          && a == Lapsed(old(byReference[k]))
          && View() == Rewritten(old(View()), k, a)
    {
      var surfaced := NextDue(now);
      if surfaced == None { return None; }
      var kept := byReference[surfaced.value];
      var ended := kept.(state := Expired, resolvedAt := Some(kept.deadline));
      Rewrite(surfaced.value, ended);
      return Some(ended);
    }

    /** One turn of `ForgetLapsed`: the record it dropped, if any. */
    method ForgetNext(now: int) returns (dropped: Option<Approval>)
      requires Valid() && lapsing != [] && lapsing[0].at <= now
      modifies this`byReference, this`byQuestion, this`lapsing
      ensures Valid() && Ripe(lapsing, now) < old(Ripe(lapsing, now))
      ensures match dropped
        case None => View() == old(View())
        case Some(a) =>
          && KeyOf(a) in old(byReference)
          && old(byReference)[KeyOf(a)] == a
          && OfNoFurtherUse(a, now)
          && View() == Dropped(old(View()), KeyOf(a), a.question)
    {
      var surfaced := NextLapsing(now);
      if surfaced == None { return None; }
      var kept := byReference[surfaced.value];
      DroppedIsAllDropped(View(), surfaced.value);
      AllDroppedConsistent(View(), {surfaced.value});
      Drop(surfaced.value);
      return Some(kept);
    }

    /** End every wait that ran out. From any valid state, whatever the index holds, this
        is the scan of every record, answered in store-key order. */
    method ExpirePast(now: int) returns (answer: seq<Approval>)
      requires Valid()
      modifies this
      ensures Valid()
      ensures View() == WaitRules.ExpirePast(old(View()), now)
      ensures AnswersExactly(answer, EndedBy(old(View()), now))
      ensures forall e :: e in due ==> e.at > now
    {
      ghost var before := View();
      ghost var whole := EndedBy(before, now);
      ghost var done: map<Key, Approval> := map[];
      var ended: seq<Approval> := [];
      while due != [] && due[0].at <= now
        invariant Valid()
        invariant PartOf(done, whole)
        invariant View() == before.(byRef := before.byRef + done)
        invariant Collected(ended, done)
        decreases Ripe(due, now)
      {
        var expired := EndNext(now);
        if expired.Some? {
          CollectOneMore(ended, done, expired.value);
          MergeOneMore(before.byRef, done, KeyOf(expired.value), expired.value);
          ended := ended + [expired.value];
          done := done[KeyOf(expired.value) := expired.value];
        }
      }
      NothingRipe(due, now);
      EveryWaitSurfaced(before, done, due, lapsing, now);
      AnswerInOrder(ended, done);
      answer := SortedByKey(ended);
    }

    /** Drop every record nothing can still need. From any valid state this is the scan
        of every record, answered in store-key order. */
    method ForgetLapsed(now: int) returns (answer: seq<Approval>)
      requires Valid()
      modifies this
      ensures Valid()
      ensures View() == WaitRules.ForgetLapsed(old(View()), now)
      ensures AnswersExactly(answer, ForgottenBy(old(View()), now))
      ensures forall e :: e in lapsing ==> e.at > now
    {
      ghost var before := View();
      ghost var whole := ForgottenBy(before, now);
      ghost var gone: map<Key, Approval> := map[];
      var forgotten: seq<Approval> := [];
      AllDroppedNone(before);
      assert gone.Keys == {};
      while lapsing != [] && lapsing[0].at <= now
        invariant Valid()
        invariant PartOf(gone, whole)
        invariant View() == AllDropped(before, gone.Keys)
        invariant Collected(forgotten, gone)
        decreases Ripe(lapsing, now)
      {
        var dropped := ForgetNext(now);
        if dropped.Some? {
          var kept := dropped.value;
          DropOneMore(before, gone.Keys, KeyOf(kept));
          PartOneMore(gone, whole, KeyOf(kept));
          CollectOneMore(forgotten, gone, kept);
          forgotten := forgotten + [kept];
          gone := gone[KeyOf(kept) := kept];
        }
      }
      NothingRipe(lapsing, now);
      EveryLapseSurfaced(before, gone, due, lapsing, now);
      AnswerInOrder(forgotten, gone);
      answer := SortedByKey(forgotten);
    }
  }
}
