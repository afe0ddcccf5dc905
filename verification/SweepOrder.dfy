/** Sorting the records of a sweep by key. */
module SweepOrder {
  import opened StoreKeys
  import opened ApprovalRecord

  ghost predicate InStoreKeyOrder(s: seq<Approval>) {
    forall i, j :: 0 <= i < j < |s| ==> KeyLt(KeyOf(s[i]), KeyOf(s[j]))
  }

  ghost predicate DistinctKeys(s: seq<Approval>) {
    forall i, j :: 0 <= i < j < |s| ==> KeyOf(s[i]) != KeyOf(s[j])
  }

  function Insert(s: seq<Approval>, a: Approval): seq<Approval> {
    if s == [] || KeyLt(KeyOf(a), KeyOf(s[0])) then [a] + s else [s[0]] + Insert(s[1..], a)
  }

  function SortedByKey(s: seq<Approval>): seq<Approval> {
    if s == [] then [] else Insert(SortedByKey(s[1..]), s[0])
  }

  lemma {:induction false} InsertKeepsOrder(s: seq<Approval>, a: Approval)
    requires InStoreKeyOrder(s) && forall x :: x in s ==> KeyOf(x) != KeyOf(a)
    ensures InStoreKeyOrder(Insert(s, a))
    ensures forall x :: x in Insert(s, a) <==> x == a || x in s
  {
    if s != [] {
      KeyOrder(KeyOf(a), KeyOf(s[0]), KeyOf(s[0]));
      if KeyLt(KeyOf(a), KeyOf(s[0])) {
        forall i | 1 <= i < |s| ensures KeyLt(KeyOf(a), KeyOf(s[i])) {
          KeyOrder(KeyOf(a), KeyOf(s[0]), KeyOf(s[i]));
        }
      } else {
        assert s == [s[0]] + s[1..];
        InsertKeepsOrder(s[1..], a);
        var rest := Insert(s[1..], a);
        forall i | 0 <= i < |rest| ensures KeyLt(KeyOf(s[0]), KeyOf(rest[i])) {
          assert rest[i] in rest;
        }
        forall x ensures x in Insert(s, a) <==> x == a || x in s {
          assert x in s <==> x == s[0] || x in s[1..];
        }
      }
    }
  }

  /** Sorting records of distinct keys keeps exactly those records, in strict key order. */
  lemma {:induction false} SortingIsExact(s: seq<Approval>)
    requires DistinctKeys(s)
    ensures InStoreKeyOrder(SortedByKey(s))
    ensures forall x :: x in SortedByKey(s) <==> x in s
  {
    if s != [] {
      SortingIsExact(s[1..]);
      assert s == [s[0]] + s[1..];
      forall x | x in SortedByKey(s[1..]) ensures KeyOf(x) != KeyOf(s[0]) {
        assert x in s[1..];
      }
      InsertKeepsOrder(SortedByKey(s[1..]), s[0]);
    }
  }
}
