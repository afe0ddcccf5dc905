/** Record keys, and their order.

    A key is the pair (scope, reference), compared as Python compares tuples of
    strings: member by member, each by code point. */
module StoreKeys {

  datatype Key = Key(scope: string, ref: string)

  predicate StrLt(a: string, b: string) {
    |b| > 0 && (|a| == 0 || a[0] < b[0] || (a[0] == b[0] && StrLt(a[1..], b[1..])))
  }

  predicate KeyLt(a: Key, b: Key) {
    StrLt(a.scope, b.scope) || (a.scope == b.scope && StrLt(a.ref, b.ref))
  }

  lemma {:induction false} StrLtIsStrict(a: string, b: string)
    ensures !(StrLt(a, b) && StrLt(b, a))
    ensures a == b ==> !StrLt(a, b)
  {
    if |a| > 0 && |b| > 0 {
      StrLtIsStrict(a[1..], b[1..]);
    }
  }

  lemma {:induction false} StrLtIsTotal(a: string, b: string)
    ensures StrLt(a, b) || a == b || StrLt(b, a)
  {
    if |a| > 0 && |b| > 0 && a[0] == b[0] {
      StrLtIsTotal(a[1..], b[1..]);
      assert a == [a[0]] + a[1..] && b == [b[0]] + b[1..];
    }
  }

  lemma {:induction false} StrLtIsTransitive(a: string, b: string, c: string)
    requires StrLt(a, b) && StrLt(b, c)
    ensures StrLt(a, c)
  {
    if |a| > 0 && a[0] == b[0] == c[0] {
      StrLtIsTransitive(a[1..], b[1..], c[1..]);
    }
  }

  /** The store-key order is a strict total order, so a sweep has one answer order. */
  lemma KeyOrder(a: Key, b: Key, c: Key)
    ensures !(KeyLt(a, b) && KeyLt(b, a))
    ensures KeyLt(a, b) || a == b || KeyLt(b, a)
    ensures KeyLt(a, b) && KeyLt(b, c) ==> KeyLt(a, c)
  {
    StrLtIsStrict(a.scope, b.scope);
    StrLtIsStrict(a.ref, b.ref);
    StrLtIsTotal(a.scope, b.scope);
    StrLtIsTotal(a.ref, b.ref);
    if KeyLt(a, b) && KeyLt(b, c) {
      if StrLt(a.scope, b.scope) && StrLt(b.scope, c.scope) {
        StrLtIsTransitive(a.scope, b.scope, c.scope);
      }
      if StrLt(a.ref, b.ref) && StrLt(b.ref, c.ref) {
        StrLtIsTransitive(a.ref, b.ref, c.ref);
      }
    }
  }
}
