/** How short the keys are that util/comparator.cc and db/dbformat.cc make for index blocks. */
module ShortKeys {
  import opened Varints
  import opened Order
  import opened Separators
  import InternalKeys

  /** Keys in front of a key that has one of their prefixes are longer than the prefix or lie before all of it. */
  lemma {:induction false} BehindPrefix(a: Bytes, b: Bytes, c: Bytes, n: nat)
    requires n < |a| && n < |b| && a[..n] == b[..n] && Bytewise(a, c) <= 0 && Bytewise(c, b) < 0
    ensures |c| > n
  {
    if n > 0 {
      assert a[0] == a[..n][0] == b[0];
      assert a[1..][..n - 1] == a[..n][1..] == b[1..][..n - 1];
      BehindPrefix(a[1..], b[1..], c[1..], n - 1);
    }
  }

  /** A separator other than the start is the shortest key there is from the start up to, not at, the limit. */
  lemma SeparatorShortest(a: Bytes, b: Bytes, c: Bytes)
    requires Separator(a, b) != a && Bytewise(a, c) <= 0 && Bytewise(c, b) < 0
    ensures |Separator(a, b)| <= |c|
  {
    CommonPrefix(a, b);
    BehindPrefix(a, b, c, Common(a, b));
  }

  /** There is one just when the first bytes that differ leave room for another between them. */
  lemma SeparatorChanges(a: Bytes, b: Bytes)
    ensures Separator(a, b) != a <==> exists n: nat ::
        n < |a| && n < |b| && a[..n] == b[..n] && (a[n] as int) + 1 < b[n] as int
  {
    CommonPrefix(a, b);
    if n: nat :| n < |a| && n < |b| && a[..n] == b[..n] && (a[n] as int) + 1 < b[n] as int {
      CommonIs(a, b, n);
      assert Separator(a, b)[n] == a[n] + 1;
    }
    if Separator(a, b) != a {
      var n := Common(a, b);
      assert a[..n] == b[..n] && (a[n] as int) + 1 < b[n] as int;
    }
  }

  /** No key behind the given one is shorter than its successor. */
  lemma {:induction false} SuccessorShortest(a: Bytes, c: Bytes)
    requires Bytewise(a, c) < 0
    ensures |Successor(a)| <= |c|
  {
    if a != [] && a[0] == 0xff { SuccessorShortest(a[1..], c[1..]); }
  }

  /** The successor lies behind the key unless that is a run of 0xff. */
  lemma {:induction false} SuccessorBehind(a: Bytes)
    ensures if (forall i :: 0 <= i < |a| ==> a[i] == 0xff) then Successor(a) == a else Bytewise(a, Successor(a)) < 0
  {
    if a != [] && a[0] == 0xff {
      SuccessorBehind(a[1..]);
      assert a == [a[0]] + a[1..] && Successor(a)[1..] == Successor(a[1..]);
      if forall i :: 0 <= i < |a[1..]| ==> a[1..][i] == 0xff {
        assert forall i :: 0 < i < |a| ==> a[i] == a[1..][i - 1];
      }
    }
  }

  /** A shortened internal key comes before every internal key of its user key that a store can hold. */
  lemma EarliestOfItsUser(ucmp: Comparator<Bytes>, user: Bytes, c: Bytes)
    requires TotalOrder(ucmp) && |c| >= 8 && UserKey(c) == user
    requires Number(c) <= 256 * InternalKeys.MaxSequence + 1
    ensures InternalCompare(ucmp, user + EarliestNumber(), c) <= 0
  {
    Laws(ucmp);
    Parts(user, EarliestNumber());
    assert Pow256(4) == 0x1_0000_0000 && Pow256(8) == 0x1_0000_0000_0000_0000;
    FixedRoundTrip(256 * InternalKeys.MaxSequence + 1, 8);
  }

  /** An internal separator is the start, or shorter than it and first of all the keys of its user key. */
  lemma InternalSeparatorShortens(ucmp: Comparator<Bytes>, separator: (Bytes, Bytes) -> Bytes, a: Bytes, b: Bytes,
                                  c: Bytes)
    requires TotalOrder(ucmp) && |a| >= 8 && |b| >= 8 && |c| >= 8 && Number(c) <= 256 * InternalKeys.MaxSequence + 1
    ensures var s := InternalSeparator(ucmp, separator, a, b);
            s == a || (8 <= |s| < |a| && (UserKey(s) == UserKey(c) ==> InternalCompare(ucmp, s, c) <= 0))
    ensures var tmp := separator(UserKey(a), UserKey(b));
            InternalSeparator(ucmp, separator, a, b) != a <==> |tmp| < |UserKey(a)| && ucmp(UserKey(a), tmp) < 0
  {
    var tmp := separator(UserKey(a), UserKey(b));
    Parts(tmp, EarliestNumber());
    if tmp == UserKey(c) { EarliestOfItsUser(ucmp, tmp, c); }
  }
}
