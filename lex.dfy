/**
 * Python's ordering of `str` values and of `(str, Optional[int])` tuples, as used by
 * `FlowKey.normalized` and by the sorted group keys of pandas.
 */
module Lex {
  import opened Wrappers

  /** Python `a <= b` on strings: lexicographic by code point, a proper prefix is smaller. */
  predicate StrLe(a: string, b: string)
    decreases |a|
  {
    if a == [] then true
    else if b == [] then false
    else if a[0] != b[0] then a[0] < b[0]
    else StrLe(a[1..], b[1..])
  }

  /** Python `a < b` on strings. */
  predicate StrLt(a: string, b: string) {
    StrLe(a, b) && a != b
  }

  lemma {:induction false} StrLeReflexive(a: string)
    ensures StrLe(a, a)
  {
    if a != [] { StrLeReflexive(a[1..]); }
  }

  lemma {:induction false} StrLeAntisymmetric(a: string, b: string)
    requires StrLe(a, b) && StrLe(b, a)
    ensures a == b
    decreases |a|
  {
    if a != [] && b != [] {
      StrLeAntisymmetric(a[1..], b[1..]);
      assert a == [a[0]] + a[1..] && b == [b[0]] + b[1..];
    }
  }

  lemma {:induction false} StrLeTransitive(a: string, b: string, c: string)
    requires StrLe(a, b) && StrLe(b, c)
    ensures StrLe(a, c)
    decreases |a|
  {
    if a != [] && b != [] && c != [] && a[0] == b[0] && b[0] == c[0] {
      StrLeTransitive(a[1..], b[1..], c[1..]);
    }
  }

  lemma {:induction false} StrLeTotal(a: string, b: string)
    ensures StrLe(a, b) || StrLe(b, a)
    decreases |a|
  {
    if a != [] && b != [] && a[0] == b[0] {
      StrLeTotal(a[1..], b[1..]);
    }
  }

  lemma StrLtLeTransitive(a: string, b: string, c: string)
    requires StrLt(a, b) && StrLe(b, c)
    ensures StrLt(a, c)
  {
    StrLeTransitive(a, b, c);
    if a == c {
      StrLeAntisymmetric(a, b);
    }
  }

  /** Order on optional ports: `None` below every present port (the flow key rule). */
  predicate PortLe(a: Option<int>, b: Option<int>) {
    match a
    case None => true
    case Some(x) => b.Some? && x <= b.value
  }

  /** Python `(ip1, port1) <= (ip2, port2)`: first by address, then by port. */
  predicate EndpointLe(a: (string, Option<int>), b: (string, Option<int>)) {
    if a.0 != b.0 then StrLe(a.0, b.0) else PortLe(a.1, b.1)
  }

  lemma EndpointLeTotal(a: (string, Option<int>), b: (string, Option<int>))
    ensures EndpointLe(a, b) || EndpointLe(b, a)
  {
    StrLeTotal(a.0, b.0);
  }

  lemma EndpointLeAntisymmetric(a: (string, Option<int>), b: (string, Option<int>))
    requires EndpointLe(a, b) && EndpointLe(b, a)
    ensures a == b
  {
    if a.0 != b.0 { StrLeAntisymmetric(a.0, b.0); }
  }
}
