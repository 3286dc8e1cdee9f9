/** The order SQLite's default BINARY collation puts TEXT values in.
    SQLite compares the UTF-8 bytes of two strings with memcmp, a shorter string
    first when it is a prefix of the longer one. UTF-8 preserves the order of code
    points, so on Dafny strings (sequences of Unicode scalar values) the same order
    is the lexicographic order on characters. */
module Collation {

  /** a sorts before b or equals it under BINARY collation */
  predicate Le(a: string, b: string)
    decreases |a|
  {
    if a == [] then true
    else if b == [] then false
    else if a[0] != b[0] then a[0] < b[0]
    else Le(a[1..], b[1..])
  }

  /** a sorts strictly before b */
  predicate Lt(a: string, b: string) {
    Le(a, b) && a != b
  }

  lemma {:induction false} LeReflexive(a: string)
    ensures Le(a, a)
    decreases |a|
  {
    if a != [] {
      LeReflexive(a[1..]);
    }
  }

  lemma {:induction false} LeTotal(a: string, b: string)
    ensures Le(a, b) || Le(b, a)
    decreases |a|
  {
    if a != [] && b != [] && a[0] == b[0] {
      LeTotal(a[1..], b[1..]);
    }
  }

  lemma {:induction false} LeAntisymmetric(a: string, b: string)
    requires Le(a, b) && Le(b, a)
    ensures a == b
    decreases |a|
  {
    if a != [] && b != [] {
      LeAntisymmetric(a[1..], b[1..]);
      assert a == [a[0]] + a[1..] && b == [b[0]] + b[1..];
    }
  }

  lemma {:induction false} LeTransitive(a: string, b: string, c: string)
    requires Le(a, b) && Le(b, c)
    ensures Le(a, c)
    decreases |a|
  {
    if a != [] && b != [] && c != [] && a[0] == b[0] && b[0] == c[0] {
      LeTransitive(a[1..], b[1..], c[1..]);
    }
  }

  /** The facts the sorts need, for all strings at once. */
  lemma LeIsTotalOrder()
    ensures forall a :: Le(a, a)
    ensures forall a, b :: Le(a, b) || Le(b, a)
    ensures forall a, b, c :: Le(a, b) && Le(b, c) ==> Le(a, c)
    ensures forall a, b :: Le(a, b) && Le(b, a) ==> a == b
  {
    forall a ensures Le(a, a) {
      LeReflexive(a);
    }
    forall a, b ensures Le(a, b) || Le(b, a) {
      LeTotal(a, b);
    }
    forall a, b, c | Le(a, b) && Le(b, c) ensures Le(a, c) {
      LeTransitive(a, b, c);
    }
    forall a, b | Le(a, b) && Le(b, a) ensures a == b {
      LeAntisymmetric(a, b);
    }
  }
}
