/** The outcome log: a bounded queue that counts what it sheds and what its sink refuses. */
module OutcomeLog {
  import opened Outcomes

  datatype Outcome = Outcome(capability: string, decisionRef: string, digest: Option<string>, at: string)

  /** A record made and not yet emitted: it carries no marker, which is not known before it leaves. */
  datatype Pending = Pending(sequence: nat, outcome: Outcome)

  datatype Record = Emitted(sequence: nat, outcome: Outcome, droppedBefore: nat)

  datatype Held = Held(sequence: nat, dropped: nat, pending: seq<Pending>)

  /** What making one record leaves: the oldest is shed when there is no room. */
  function Made(h: Held, capacity: nat, outcome: Outcome): Held {
    var made := Pending(h.sequence + 1, outcome);
    if |h.pending| == capacity && capacity > 0 then Held(h.sequence + 1, h.dropped + 1, h.pending[1..] + [made])
    else Held(h.sequence + 1, h.dropped, h.pending + [made])
  }

  /** A record as it leaves, stamped with the losses counted by then. */
  function Stamp(p: Pending, dropped: nat): Record { Emitted(p.sequence, p.outcome, dropped) }

  function Popped(h: Held): Held
    requires h.pending != []
  {
    h.(pending := h.pending[1..])
  }

  function Lost(h: Held): Held { h.(dropped := h.dropped + 1) }

  /** One flush before a sink that accepts what `accepts` says: what is left, and what was handed over. */
  function Flushed(h: Held, accepts: Record -> bool): (Held, seq<Record>)
    decreases |h.pending|
  {
    if h.pending == [] then (h, [])
    else
      var entry := Stamp(h.pending[0], h.dropped);
      var rest := Flushed(if accepts(entry) then Popped(h) else Lost(Popped(h)), accepts);
      After(if accepts(entry) then [entry] else [], rest)
  }

  class OutcomeLog {
    const capacity: nat
    var pending: seq<Pending>
    var sequence: nat
    var dropped: nat

    ghost predicate Valid()
      reads this
    {
      |pending| <= capacity && capacity >= 1
    }

    ghost function Contents(): Held
      reads this
    {
      Held(sequence, dropped, pending)
    }

    constructor (capacity: nat)
      requires capacity >= 1
      ensures Valid() && this.capacity == capacity && Contents() == Held(0, 0, [])
    {
      this.capacity := capacity;
      pending := [];
      sequence := 0;
      dropped := 0;
    }

    method Record(outcome: Outcome)
      requires Valid()
      modifies this
      ensures Valid() && Contents() == Made(old(Contents()), capacity, outcome)
    {
      sequence := sequence + 1;
      if |pending| == capacity {
        pending := pending[1..];
        dropped := dropped + 1;
      }
      pending := pending + [Pending(sequence, outcome)];
    }

    /** Empty the log into the sink, oldest first; a record the sink will not take is one loss
        more for those behind it. */
    method Flush(accepts: Record -> bool) returns (delivered: seq<Record>)
      requires Valid()
      modifies this
      ensures Valid() && pending == []
      ensures (Contents(), delivered) == Flushed(old(Contents()), accepts)
    {
      delivered := [];
      AfterNothing(Flushed(Contents(), accepts));
      while pending != []
        invariant Valid()
        invariant Flushed(old(Contents()), accepts) == After(delivered, Flushed(Contents(), accepts))
        decreases |pending|
      {
        ghost var before := Contents();
        var held := pending[0];
        pending := pending[1..];
        var entry := Stamp(held, dropped);
        if !accepts(entry) { dropped := dropped + 1; }
        assert Contents() == if accepts(entry) then Popped(before) else Lost(Popped(before));
        var first := if accepts(entry) then [entry] else [];
        AfterOneMore(delivered, first, Flushed(Contents(), accepts));
        delivered := delivered + first;
      }
      assert delivered + [] == delivered;
    }
  }

  /** A flush's outcome with what was accepted before it. */
  function After(accepted: seq<Record>, rest: (Held, seq<Record>)): (Held, seq<Record>) { (rest.0, accepted + rest.1) }

  lemma AfterNothing(rest: (Held, seq<Record>))
    ensures After([], rest) == rest
  {
    assert [] + rest.1 == rest.1;
  }

  lemma AfterOneMore(accepted: seq<Record>, first: seq<Record>, rest: (Held, seq<Record>))
    ensures After(accepted, After(first, rest)) == After(accepted + first, rest)
  {
    assert accepted + (first + rest.1) == (accepted + first) + rest.1;
  }
}
