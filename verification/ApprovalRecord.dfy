/** The record of an approval: what was asked, when an answer is due, who answered and what
    became of the answer.

    Instants are integers, read off a single clock; calendars and offsets play no part. */
module ApprovalRecord {
  import opened Outcomes
  import opened StoreKeys

  datatype State = Pending | Approved | Rejected | Expired

  datatype Question = Question(
    scope: string,
    principalReference: string,
    capability: string,
    argumentsDigest: string)

  datatype Record = Record(
    approvalRef: string,
    decisionRef: string,
    question: Question,
    requestedAt: int,
    deadline: int,
    state: State,
    resolvedAt: Option<int>,
    person: Option<string>,
    resolutionReason: Option<string>,
    consumed: bool,
    consumedAt: Option<int>,
    claimed: bool,
    published: bool)

  predicate Acted(s: State) { s == Approved || s == Rejected }

  predicate CompleteQuestion(q: Question) {
    q.scope != "" && q.principalReference != "" && q.capability != "" && q.argumentsDigest != ""
  }

  /** A closed wait is dated: an act no later than its deadline, an expiry exactly at it. */
  predicate HoldsTheEndOfTheWait(a: Record) {
    if a.state == Pending then a.resolvedAt == None
    else
      && a.resolvedAt.Some?
      && a.requestedAt <= a.resolvedAt.value
      && (a.state == Expired ==> a.resolvedAt.value == a.deadline)
      && (Acted(a.state) ==> a.resolvedAt.value <= a.deadline)
  }

  /** An act is signed by a named person; nothing else carries a name. */
  predicate HoldsTheOnePerson(a: Record) {
    if Acted(a.state) then a.person.Some? && a.person.value != "" else a.person == None
  }

  /** A spend is dated if and only if there is one, and follows the act it spends. */
  predicate HoldsTheSpend(a: Record) {
    if !a.consumed then a.consumedAt == None
    else
      && a.consumedAt.Some?
      && (a.resolvedAt.Some? ==> a.resolvedAt.value <= a.consumedAt.value)
  }

  /** What construction accepts: a record that fails this raises `ValueError` instead. */
  predicate Constructible(a: Record) {
    && CompleteQuestion(a.question)
    && a.requestedAt < a.deadline
    && HoldsTheEndOfTheWait(a)
    && HoldsTheOnePerson(a)
    && (a.state in {Pending, Expired} ==> a.resolutionReason == None)
    && (a.consumed ==> a.state == Approved && a.claimed)
    && (a.claimed ==> a.state == Approved)
    && HoldsTheSpend(a)
  }

  type Approval = a: Record | Constructible(a) witness
    Record("r", "d", Question("s", "p", "c", "-"), 0, 1, Pending, None, None, None,
           false, None, false, false)

  function KeyOf(a: Record): Key { Key(a.question.scope, a.approvalRef) }

  /** The state a reader sees: only an unanswered record changes by the passing of time. */
  function StateAt(a: Record, now: int): State {
    if a.state == Pending && now >= a.deadline then Expired else a.state
  }
}
