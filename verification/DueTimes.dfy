/** A due-time index: what `heapq` shows of a list of (instant, key) entries.

    The only things the store does with such a list are push an entry, look at its
    smallest and pop its smallest, so it is kept here in ascending order of instant. */
module DueTimes {
  import opened StoreKeys

  datatype Entry = Entry(at: int, key: Key)

  predicate Ascending(h: seq<Entry>) {
    forall i, j :: 0 <= i < j < |h| ==> h[i].at <= h[j].at
  }

  function Push(h: seq<Entry>, e: Entry): seq<Entry> {
    if h == [] || e.at <= h[0].at then [e] + h else [h[0]] + Push(h[1..], e)
  }

  /** How many entries a sweep at `now` has still to take out. */
  function Ripe(h: seq<Entry>, now: int): nat {
    if h == [] then 0 else (if h[0].at <= now then 1 else 0) + Ripe(h[1..], now)
  }

  lemma {:induction false} PushFacts(h: seq<Entry>, e: Entry, now: int)
    requires Ascending(h)
    ensures Ascending(Push(h, e))
    ensures forall x :: x in Push(h, e) <==> x == e || x in h
    ensures Ripe(Push(h, e), now) == Ripe(h, now) + (if e.at <= now then 1 else 0)
  {
    if h == [] || e.at <= h[0].at {
      assert ([e] + h)[1..] == h;
    } else {
      PushFacts(h[1..], e, now);
      var rest := Push(h[1..], e);
      assert h == [h[0]] + h[1..];
      assert ([h[0]] + rest)[1..] == rest;
      forall x ensures x in [h[0]] + rest <==> x == e || x in h {
        assert x in h <==> x == h[0] || x in h[1..];
      }
      forall i | 0 <= i < |rest| ensures h[0].at <= rest[i].at {
        assert rest[i] in rest;
      }
    }
  }

  /** Once the smallest entry is after `now`, so is every entry. */
  lemma NothingRipe(h: seq<Entry>, now: int)
    requires Ascending(h) && (h == [] || h[0].at > now)
    ensures forall e :: e in h ==> e.at > now
  {
  }
}
