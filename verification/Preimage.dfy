/** The length-prefixed encoding every entry hash is taken over.

    A string stands for its own encoding. Each component is written as its decimal
    length, a colon and its bytes, and an absent one as `-:`, so a concatenation of
    components can be read back in one way only. */
module Preimage {
  import opened Outcomes

  function Digit(n: nat): char
    requires n < 10
  {
    "0123456789"[n]
  }

  /** `str(n)` of a natural number. */
  function Decimal(n: nat): string {
    if n < 10 then [Digit(n)] else Decimal(n / 10) + [Digit(n % 10)]
  }

  predicate IsDigit(c: char) { '0' <= c <= '9' }

  predicate Digits(s: string) { forall i :: 0 <= i < |s| ==> IsDigit(s[i]) }

  function DigitValue(c: char): int { c as int - '0' as int }

  /** What a string of digits reads as. */
  function Number(s: string): int {
    if s == "" then 0 else 10 * Number(s[..|s| - 1]) + DigitValue(s[|s| - 1])
  }

  lemma {:induction false} DecimalReadsBack(n: nat)
    ensures Decimal(n) != "" && Digits(Decimal(n)) && Number(Decimal(n)) == n
  {
    if n < 10 {
      assert Decimal(n)[..0] == "";
    } else {
      DecimalReadsBack(n / 10);
      assert Decimal(n)[..|Decimal(n)| - 1] == Decimal(n / 10);
    }
  }

  lemma DecimalIsInjective(m: nat, n: nat)
    requires Decimal(m) == Decimal(n)
    ensures m == n
  {
    DecimalReadsBack(m);
    DecimalReadsBack(n);
  }

  function Component(raw: Option<string>): string {
    match raw
    case None => "-:"
    case Some(bytes) => Decimal(|bytes|) + ":" + bytes
  }

  function Join(components: seq<Option<string>>): string {
    if components == [] then "" else Component(components[0]) + Join(components[1..])
  }

  /** A run of digits ends where the colon stands, whatever follows it. */
  lemma ColonEndsTheLength(d: string, e: string, x: string, y: string)
    requires Digits(d) && Digits(e) && d + ":" + x == e + ":" + y
    ensures d == e && x == y
  {
    var s, t := d + ":" + x, e + ":" + y;
    assert s[|d|] == ':' && t[|e|] == ':';
    assert forall i :: 0 <= i < |d| ==> s[i] == d[i] && IsDigit(d[i]);
    assert forall i :: 0 <= i < |e| ==> t[i] == e[i] && IsDigit(e[i]);
    assert |d| == |e|;
    assert d == s[..|d|] && e == t[..|e|];
    assert x == s[|d| + 1..] && y == t[|e| + 1..];
  }

  lemma Reassociated(d: string, a: string, x: string)
    ensures (d + ":" + a) + x == d + ":" + (a + x)
  {
  }

  lemma PresentReadsBack(a: string, b: string, x: string, y: string)
    requires Component(Some(a)) + x == Component(Some(b)) + y
    ensures a == b && x == y
  {
    var d, e := Decimal(|a|), Decimal(|b|);
    DecimalReadsBack(|a|);
    DecimalReadsBack(|b|);
    assert d + ":" + (a + x) == e + ":" + (b + y) by {
      Reassociated(d, a, x);
      Reassociated(e, b, y);
    }
    ColonEndsTheLength(d, e, a + x, b + y);
    DecimalIsInjective(|a|, |b|);
    SameLengthsSplitAlike(a, b, x, y);
  }

  lemma SameLengthsSplitAlike(a: string, b: string, x: string, y: string)
    requires |a| == |b| && a + x == b + y
    ensures a == b && x == y
  {
    assert a == (a + x)[..|a|] && b == (b + y)[..|b|];
    assert x == (a + x)[|a|..] && y == (b + y)[|b|..];
  }

  lemma AbsentIsNotPresent(a: string, x: string, y: string)
    ensures Component(Some(a)) + x != Component(None) + y
  {
    DecimalReadsBack(|a|);
    assert (Component(Some(a)) + x)[0] == Decimal(|a|)[0] && IsDigit(Decimal(|a|)[0]);
    assert (Component(None) + y)[0] == '-';
  }

  /** One component, and what follows it, are both fixed by the bytes. */
  lemma ComponentReadsBack(a: Option<string>, b: Option<string>, x: string, y: string)
    requires Component(a) + x == Component(b) + y
    ensures a == b && x == y
  {
    match (a, b) {
      case (Some(r), Some(s)) => PresentReadsBack(r, s, x, y);
      case (Some(r), None) => AbsentIsNotPresent(r, x, y);
      case (None, Some(s)) => AbsentIsNotPresent(s, y, x);
      case (None, None) =>
        assert x == ("-:" + x)[2..] && y == ("-:" + y)[2..];
    }
  }

  /** The encoding decodes uniquely: equal bytes came from equal components. */
  lemma {:induction false} JoinReadsBack(a: seq<Option<string>>, b: seq<Option<string>>)
    requires |a| == |b| && Join(a) == Join(b)
    ensures a == b
  {
    if a != [] {
      ComponentReadsBack(a[0], b[0], Join(a[1..]), Join(b[1..]));
      JoinReadsBack(a[1..], b[1..]);
    }
  }
}
