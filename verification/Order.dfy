/** Key orders.  LevelDB never looks inside a user key: every decision goes
    through a comparator object.  The models below do the same and take the
    comparator as a function, assumed only to be a total order. */
module Order {

  /** The sign of the result is the answer: negative, zero or positive. */
  type Comparator<!K> = (K, K) -> int

  /** What the documentation of Comparator asks of an implementation. */
  ghost predicate TotalOrder<K(!new)>(cmp: Comparator<K>) {
    forall a: K, b: K, c: K {:trigger Chain(a, b, c)} :: Chain(a, b, c) ==>
      && (cmp(a, b) == 0 <==> a == b)
      && (cmp(a, b) < 0 <==> cmp(b, a) > 0)
      && (cmp(a, b) < 0 && cmp(b, c) < 0 ==> cmp(a, c) < 0)
  }

  /** Always true.  Naming three keys is what makes the verifier apply the order
      laws to them; left alone it would try every triple in sight. */
  ghost predicate Chain<K>(a: K, b: K, c: K) { true }

  lemma Laws<K(!new)>(cmp: Comparator<K>)
    requires TotalOrder(cmp)
    ensures forall a: K, b: K :: cmp(a, b) == 0 <==> a == b
    ensures forall a: K, b: K :: cmp(a, b) < 0 <==> cmp(b, a) > 0
  {
    forall a: K, b: K ensures (cmp(a, b) == 0 <==> a == b) && (cmp(a, b) < 0 <==> cmp(b, a) > 0) {
      assert Chain(a, b, b);
    }
  }

  lemma Transitive<K(!new)>(cmp: Comparator<K>, a: K, b: K, c: K)
    requires TotalOrder(cmp) && cmp(a, b) <= 0 && cmp(b, c) <= 0
    ensures cmp(a, c) <= 0
    ensures cmp(a, b) < 0 || cmp(b, c) < 0 ==> cmp(a, c) < 0
  {
    assert Chain(a, b, c) && Chain(b, c, c) && Chain(a, c, c);
  }
}
