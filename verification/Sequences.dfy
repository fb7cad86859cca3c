/** Sequences as queues: taking an element out, and having none twice. */
module Sequences {

  datatype Option<T> = None | Some(value: T)

  function Without<T(==)>(q: seq<T>, a: T): seq<T> {
    if q == [] then [] else if q[0] == a then Without(q[1..], a) else [q[0]] + Without(q[1..], a)
  }

  predicate NoDuplicates<T(==)>(q: seq<T>) {
    q == [] || (q[0] !in q[1..] && NoDuplicates(q[1..]))
  }

  lemma {:induction false} WithoutMembers<T>(q: seq<T>, a: T)
    ensures forall x :: x in Without(q, a) <==> x in q && x != a
    ensures |Without(q, a)| <= |q|
    ensures a in q ==> |Without(q, a)| < |q|
    ensures a !in q ==> Without(q, a) == q
  {
    if q != [] {
      WithoutMembers(q[1..], a);
      assert q == [q[0]] + q[1..];
    }
  }

  lemma {:induction false} WithoutDuplicates<T>(q: seq<T>, a: T)
    requires NoDuplicates(q)
    ensures NoDuplicates(Without(q, a))
    ensures a in q ==> |Without(q, a)| == |q| - 1
  {
    if q != [] {
      WithoutDuplicates(q[1..], a);
      WithoutMembers(q[1..], a);
      assert q[0] != a ==> ([q[0]] + Without(q[1..], a))[1..] == Without(q[1..], a);
    }
  }

  lemma {:induction false} AppendDuplicates<T>(q: seq<T>, a: T)
    requires NoDuplicates(q) && a !in q
    ensures NoDuplicates(q + [a]) && NoDuplicates([a] + q)
  {
    assert ([a] + q)[1..] == q;
    if q != [] {
      AppendDuplicates(q[1..], a);
      assert (q + [a])[1..] == q[1..] + [a];
    }
  }
}
