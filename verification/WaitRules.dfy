/** What each operation of the approval store does to the two indexes a caller can
    observe: the records by reference, and the references of each question, oldest
    first. The store's two heaps are not here; the class in
    ApprovalStore.dfy shows that they never show through. */
module WaitRules {
  import opened Outcomes
  import opened StoreKeys
  import opened ApprovalRecord

  datatype Waits = Waits(byRef: map<Key, Approval>, byQuestion: map<Question, seq<Key>>)

  datatype Refusal = InvalidValue | AlreadyExists | AlreadyResolved | AlreadyClaimed | NotKept

  datatype Verdict = Approve | Reject

  /** The state an operation leaves, with its result or the exception it raises. */
  datatype Did = Did(waits: Waits, answer: Result<Approval, Refusal>)

  const NOTHING_KEPT := Waits(map[], map[])

  // -- the two indexes agree ------------------------------------------------

  predicate Distinct(keys: seq<Key>) {
    forall i, j :: 0 <= i < j < |keys| ==> keys[i] != keys[j]
  }

  /** Every record is listed exactly once, under its own question, and nothing else is. */
  ghost predicate Consistent(w: Waits) {
    && (forall k :: k in w.byRef ==>
          && KeyOf(w.byRef[k]) == k
          && w.byRef[k].question in w.byQuestion
          && k in w.byQuestion[w.byRef[k].question])
    && (forall q :: q in w.byQuestion ==>
          && w.byQuestion[q] != []
          && Distinct(w.byQuestion[q])
          && forall k :: k in w.byQuestion[q] ==> k in w.byRef && w.byRef[k].question == q)
  }

  function References(w: Waits, q: Question): seq<Key> {
    if q in w.byQuestion then w.byQuestion[q] else []
  }

  // -- looking ----------------------------------------------------------------

  /** Whether a record can still be the answer to its question. With `inFlight`, records that
      are claimed or not yet published qualify too. */
  predicate Answers(a: Approval, now: int, inFlight: bool) {
    && !a.consumed
    && (inFlight || (!a.claimed && a.published))
    && StateAt(a, now) != Expired
    && !(a.state == Rejected && now >= a.deadline)
  }

  predicate Live(a: Approval, now: int) { Answers(a, now, true) }

  function NewestOf(byRef: map<Key, Approval>, keys: seq<Key>, now: int, inFlight: bool): (r: Option<Approval>)
    requires forall k :: k in keys ==> k in byRef
  {
    if keys == [] then None
    else
      var last := keys[|keys| - 1];
      if Answers(byRef[last], now, inFlight) then Some(byRef[last])
      else NewestOf(byRef, keys[..|keys| - 1], now, inFlight)
  }

  function NewestLive(w: Waits, q: Question, now: int, inFlight: bool): Option<Approval>
    requires Consistent(w)
  {
    NewestOf(w.byRef, References(w, q), now, inFlight)
  }

  /** `NewestOf` is the last-opened record that answers, or nothing when none does. */
  lemma {:induction false} NewestIsLastOpened(byRef: map<Key, Approval>, keys: seq<Key>, now: int, inFlight: bool)
    requires forall k :: k in keys ==> k in byRef
    ensures var r := NewestOf(byRef, keys, now, inFlight);
      match r
      case None => forall k :: k in keys ==> !Answers(byRef[k], now, inFlight)
      case Some(a) =>
        exists i :: 0 <= i < |keys| && byRef[keys[i]] == a && Answers(a, now, inFlight)
          && forall j :: i < j < |keys| ==> !Answers(byRef[keys[j]], now, inFlight)
  {
    if keys != [] && !Answers(byRef[keys[|keys| - 1]], now, inFlight) {
      NewestIsLastOpened(byRef, keys[..|keys| - 1], now, inFlight);
      assert keys == keys[..|keys| - 1] + [keys[|keys| - 1]];
    }
  }

  // -- opening and publishing ----------------------------------------------------

  function Kept(w: Waits, a: Approval): Waits {
    Waits(w.byRef[KeyOf(a) := a], w.byQuestion[a.question := References(w, a.question) + [KeyOf(a)]])
  }

  function Open(w: Waits, a: Approval): Did {
    if a.published || a.state != Pending then Did(w, Err(InvalidValue))
    else if KeyOf(a) in w.byRef then Did(w, Err(AlreadyExists))
    else Did(Kept(w, a), Ok(a))
  }

  function OpenIfAbsent(w: Waits, a: Approval, now: int): Did
    requires Consistent(w)
  {
    match NewestLive(w, a.question, now, true)
    case Some(found) => Did(w, Ok(found))
    case None => Open(w, a)
  }

  function Read(w: Waits, k: Key): Result<Approval, Refusal> {
    if k in w.byRef then Ok(w.byRef[k]) else Err(NotKept)
  }

  function Rewritten(w: Waits, k: Key, a: Approval): Waits {
    w.(byRef := w.byRef[k := a])
  }

  function Publish(w: Waits, k: Key): Did {
    if k !in w.byRef then Did(w, Err(NotKept))
    else
      var kept := w.byRef[k];
      if kept.state != Pending then Did(w, Err(InvalidValue))
      else if kept.published then Did(w, Ok(kept))
      else Did(Rewritten(w, k, kept.(published := true)), Ok(kept.(published := true)))
  }

  /** A reference list without its first `k`, as `list.remove` leaves it. */
  function WithoutFirst(keys: seq<Key>, k: Key): seq<Key> {
    if keys == [] then [] else if keys[0] == k then keys[1..] else [keys[0]] + WithoutFirst(keys[1..], k)
  }

  /** One record dropped from both indexes; a question left with no reference is dropped too. */
  function Dropped(w: Waits, k: Key, q: Question): Waits {
    var byRef := w.byRef - {k};
    if q !in w.byQuestion then Waits(byRef, w.byQuestion)
    else
      var rest := WithoutFirst(w.byQuestion[q], k);
      Waits(byRef, if rest == [] then w.byQuestion - {q} else w.byQuestion[q := rest])
  }

  function Abandon(w: Waits, k: Key): Did {
    if k !in w.byRef then Did(w, Err(NotKept))
    else
      var kept := w.byRef[k];
      if kept.state != Pending || kept.claimed || kept.published then Did(w, Err(InvalidValue))
      else Did(Dropped(w, k, kept.question), Ok(kept))
  }

  // -- acting, claiming, spending ---------------------------------------------

  function StateOf(v: Verdict): State { if v == Approve then Approved else Rejected }

  function Lapsed(a: Approval): Approval
    requires a.state == Pending
  {
    a.(state := Expired, resolvedAt := Some(a.deadline))
  }

  function Resolve(w: Waits, k: Key, person: string, v: Verdict, reason: Option<string>, now: int): Did {
    if k !in w.byRef then Did(w, Err(NotKept))
    else
      var kept := w.byRef[k];
      if kept.state != Pending then Did(w, Err(AlreadyResolved))
      else if now >= kept.deadline then Did(Rewritten(w, k, Lapsed(kept)), Err(AlreadyResolved))
      else
        var resolved: Record := kept.(state := StateOf(v), resolvedAt := Some(now), person := Some(person),
                                      resolutionReason := reason, published := true);
        if !Constructible(resolved) then Did(w, Err(InvalidValue))
        else Did(Rewritten(w, k, resolved), Ok(resolved))
  }

  function Claim(w: Waits, k: Key): Did {
    if k !in w.byRef then Did(w, Err(NotKept))
    else
      var kept := w.byRef[k];
      if kept.state != Approved then Did(w, Err(InvalidValue))
      else if kept.consumed || kept.claimed then Did(w, Err(AlreadyClaimed))
      else Did(Rewritten(w, k, kept.(claimed := true)), Ok(kept.(claimed := true)))
  }

  function ReleaseClaim(w: Waits, k: Key): Did {
    if k !in w.byRef then Did(w, Err(NotKept))
    else
      var kept := w.byRef[k];
      if kept.consumed || !kept.claimed then Did(w, Err(InvalidValue))
      else Did(Rewritten(w, k, kept.(claimed := false)), Ok(kept.(claimed := false)))
  }

  function Consume(w: Waits, k: Key, now: int): Did {
    if k !in w.byRef then Did(w, Err(NotKept))
    else
      var kept := w.byRef[k];
      if kept.state != Approved || kept.consumed || !kept.claimed then Did(w, Err(InvalidValue))
      else
        var spent: Record := kept.(consumed := true, consumedAt := Some(now));
        if !Constructible(spent) then Did(w, Err(InvalidValue))
        else Did(Rewritten(w, k, spent), Ok(spent))
  }

  // -- the sweep, as naive scans ------------------------------------------------

  predicate RanOut(a: Approval, now: int) { a.state == Pending && a.deadline <= now }

  function ExpirePast(w: Waits, now: int): Waits {
    w.(byRef := map k | k in w.byRef :: if RanOut(w.byRef[k], now) then Lapsed(w.byRef[k]) else w.byRef[k])
  }

  /** From when a record may be forgotten: the length of its wait, counted from its spend, its
      rejection or its expiry. Open waits and unspent approvals have no such date. */
  function LapseInstant(a: Approval): Option<int> {
    if a.state == Pending || (a.state == Approved && !a.consumed) then None
    else if a.consumed then Some(a.consumedAt.value + (a.deadline - a.requestedAt))
    else Some(a.resolvedAt.value + (a.deadline - a.requestedAt))
  }

  predicate OfNoFurtherUse(a: Approval, now: int) {
    LapseInstant(a).Some? && now >= LapseInstant(a).value
  }

  function Without(keys: seq<Key>, gone: set<Key>): seq<Key> {
    if keys == [] then []
    else (if keys[0] in gone then [] else [keys[0]]) + Without(keys[1..], gone)
  }

  function ListsWithout(lists: map<Question, seq<Key>>, gone: set<Key>): map<Question, seq<Key>> {
    map q | q in lists && Without(lists[q], gone) != [] :: Without(lists[q], gone)
  }

  /** A whole set of records dropped at once from both indexes. */
  function AllDropped(w: Waits, gone: set<Key>): Waits {
    Waits(w.byRef - gone, ListsWithout(w.byQuestion, gone))
  }

  function OfNoUseAt(w: Waits, now: int): set<Key> {
    set k | k in w.byRef && OfNoFurtherUse(w.byRef[k], now)
  }

  function ForgetLapsed(w: Waits, now: int): Waits { AllDropped(w, OfNoUseAt(w, now)) }

  // -- every operation keeps the indexes in agreement --------------------------

  lemma {:induction false} WithoutMembers(keys: seq<Key>, gone: set<Key>)
    ensures forall k :: k in Without(keys, gone) <==> k in keys && k !in gone
  {
    if keys != [] {
      WithoutMembers(keys[1..], gone);
    }
  }

  lemma {:induction false} WithoutFirstIsWithout(keys: seq<Key>, k: Key)
    requires Distinct(keys)
    ensures WithoutFirst(keys, k) == Without(keys, {k})
  {
    if keys != [] {
      if keys[0] == k {
        WithoutAbsent(keys[1..], {k});
      } else {
        WithoutFirstIsWithout(keys[1..], k);
      }
    }
  }

  lemma {:induction false} WithoutAbsent(keys: seq<Key>, gone: set<Key>)
    requires forall k :: k in keys ==> k !in gone
    ensures Without(keys, gone) == keys
  {
    if keys != [] {
      WithoutAbsent(keys[1..], gone);
    }
  }

  lemma {:induction false} WithoutDistinct(keys: seq<Key>, gone: set<Key>)
    requires Distinct(keys)
    ensures Distinct(Without(keys, gone))
  {
    if keys != [] {
      WithoutDistinct(keys[1..], gone);
      WithoutMembers(keys[1..], gone);
    }
  }

  lemma {:induction false} WithoutTwice(keys: seq<Key>, gone: set<Key>, more: set<Key>)
    ensures Without(Without(keys, gone), more) == Without(keys, gone + more)
  {
    if keys != [] {
      var first, rest := keys[0], Without(keys[1..], gone);
      WithoutTwice(keys[1..], gone, more);
      if first in gone {
        assert Without(keys, gone) == rest;
      } else {
        assert Without(keys, gone) == [first] + rest;
        assert Without([first] + rest, more) == (if first in more then [] else [first]) + Without(rest, more);
      }
    }
  }

  lemma AllDroppedConsistent(w: Waits, gone: set<Key>)
    requires Consistent(w)
    ensures Consistent(AllDropped(w, gone))
  {
    forall q | q in w.byQuestion ensures Distinct(Without(w.byQuestion[q], gone)) {
      WithoutDistinct(w.byQuestion[q], gone);
    }
    forall q | q in w.byQuestion
      ensures forall k :: k in Without(w.byQuestion[q], gone) <==> k in w.byQuestion[q] && k !in gone
    {
      WithoutMembers(w.byQuestion[q], gone);
    }
  }

  lemma WithoutOneMore(w: Waits, gone: set<Key>, k: Key, q: Question)
    requires Consistent(w) && k in w.byRef && k !in gone && q in w.byQuestion
    ensures var v, u := Without(w.byQuestion[q], gone), Without(w.byQuestion[q], gone + {k});
      if q == w.byRef[k].question then k in v && WithoutFirst(v, k) == u else v == u
  {
    var v := Without(w.byQuestion[q], gone);
    WithoutMembers(w.byQuestion[q], gone);
    WithoutTwice(w.byQuestion[q], gone, {k});
    if q == w.byRef[k].question {
      WithoutDistinct(w.byQuestion[q], gone);
      WithoutFirstIsWithout(v, k);
    } else {
      WithoutAbsent(v, {k});
    }
  }

  lemma ListsWithoutOneMore(lists: map<Question, seq<Key>>, gone: set<Key>, k: Key, q: Question)
    requires q in lists && k in Without(lists[q], gone)
    requires WithoutFirst(Without(lists[q], gone), k) == Without(lists[q], gone + {k})
    requires forall p :: p in lists && p != q ==> Without(lists[p], gone) == Without(lists[p], gone + {k})
    ensures var rest := WithoutFirst(ListsWithout(lists, gone)[q], k);
      ListsWithout(lists, gone + {k})
      == if rest == [] then ListsWithout(lists, gone) - {q} else ListsWithout(lists, gone)[q := rest]
  {
    var v, u := ListsWithout(lists, gone), ListsWithout(lists, gone + {k});
    var rest := WithoutFirst(v[q], k);
    var t := if rest == [] then v - {q} else v[q := rest];
    assert rest == Without(lists[q], gone + {k});
    forall p ensures p in t <==> p in u {
      if p in lists && p != q {
        assert Without(lists[p], gone) == Without(lists[p], gone + {k});
      }
    }
    forall p | p in t ensures t[p] == u[p] {
    }
  }

  /** Dropping one more record is dropping a set that holds it too. */
  lemma DropOneMore(w: Waits, gone: set<Key>, k: Key)
    requires Consistent(w) && k in w.byRef && k !in gone
    ensures Dropped(AllDropped(w, gone), k, w.byRef[k].question) == AllDropped(w, gone + {k})
  {
    var q := w.byRef[k].question;
    forall p | p in w.byQuestion && p != q
      ensures Without(w.byQuestion[p], gone) == Without(w.byQuestion[p], gone + {k})
    {
      WithoutOneMore(w, gone, k, p);
    }
    WithoutOneMore(w, gone, k, q);
    ListsWithoutOneMore(w.byQuestion, gone, k, q);
    assert w.byRef - gone - {k} == w.byRef - (gone + {k});
  }

  lemma ListsWithoutNone(lists: map<Question, seq<Key>>)
    requires forall q :: q in lists ==> lists[q] != []
    ensures ListsWithout(lists, {}) == lists
  {
    forall q | q in lists ensures Without(lists[q], {}) == lists[q] {
      WithoutAbsent(lists[q], {});
    }
  }

  lemma AllDroppedNone(w: Waits)
    requires Consistent(w)
    ensures AllDropped(w, {}) == w
  {
    ListsWithoutNone(w.byQuestion);
    assert w.byRef - {} == w.byRef;
  }

  lemma DroppedIsAllDropped(w: Waits, k: Key)
    requires Consistent(w) && k in w.byRef
    ensures Dropped(w, k, w.byRef[k].question) == AllDropped(w, {k})
  {
    AllDroppedNone(w);
    DropOneMore(w, {}, k);
    assert {} + {k} == {k};
  }

  lemma KeptConsistent(w: Waits, a: Approval)
    requires Consistent(w) && KeyOf(a) !in w.byRef
    ensures Consistent(Kept(w, a))
  {
    var w' := Kept(w, a);
    forall q | q in w'.byQuestion
      ensures w'.byQuestion[q] != [] && Distinct(w'.byQuestion[q])
      ensures forall k :: k in w'.byQuestion[q] ==> k in w'.byRef && w'.byRef[k].question == q
    {
      if q == a.question {
        assert KeyOf(a) !in References(w, q);
      } else {
        assert KeyOf(a) !in w.byQuestion[q];
      }
    }
  }

  lemma RewrittenConsistent(w: Waits, k: Key, a: Approval)
    requires Consistent(w) && k in w.byRef && KeyOf(a) == k && a.question == w.byRef[k].question
    ensures Consistent(Rewritten(w, k, a))
  {
  }

  lemma SweepConsistent(w: Waits, now: int)
    requires Consistent(w)
    ensures Consistent(ExpirePast(w, now)) && Consistent(ForgetLapsed(w, now))
  {
    AllDroppedConsistent(w, OfNoUseAt(w, now));
  }
}
