/** Key comparators on bytes and the short keys they make for index blocks (util/comparator.cc,
    db/dbformat.cc). */
module Separators {
  import opened Coding
  import opened Varints
  import opened Order
  import InternalKeys

  type Bytes = seq<Byte>

  // ------------------------------------------------------------------- byte order

  /** Slice::compare: the first differing byte decides, then the length. */
  function Bytewise(a: Bytes, b: Bytes): int {
    if a == [] then (if b == [] then 0 else -1)
    else if b == [] then 1
    else if a[0] < b[0] then -1
    else if a[0] > b[0] then 1
    else Bytewise(a[1..], b[1..])
  }

  lemma {:induction false} BytewiseLaws(a: Bytes, b: Bytes)
    ensures Bytewise(a, b) == 0 <==> a == b
    ensures Bytewise(a, b) < 0 <==> Bytewise(b, a) > 0
  {
    if a != [] && b != [] {
      assert a == [a[0]] + a[1..] && b == [b[0]] + b[1..];
      BytewiseLaws(a[1..], b[1..]);
    }
  }

  lemma {:induction false} BytewiseTransitive(a: Bytes, b: Bytes, c: Bytes)
    requires Bytewise(a, b) < 0 && Bytewise(b, c) < 0
    ensures Bytewise(a, c) < 0
  {
    if a != [] && a[0] == b[0] == c[0] { BytewiseTransitive(a[1..], b[1..], c[1..]); }
  }

  lemma BytewiseIsTotal()
    ensures TotalOrder(Bytewise)
  {
    forall a: Bytes, b: Bytes, c: Bytes
      ensures (Bytewise(a, b) == 0 <==> a == b) && (Bytewise(a, b) < 0 <==> Bytewise(b, a) > 0)
      ensures Bytewise(a, b) < 0 && Bytewise(b, c) < 0 ==> Bytewise(a, c) < 0
    {
      BytewiseLaws(a, b);
      if Bytewise(a, b) < 0 && Bytewise(b, c) < 0 { BytewiseTransitive(a, b, c); }
    }
  }

  // -------------------------------------------------------------------- short keys

  /** What the documentation of Comparator asks of FindShortestSeparator and FindShortSuccessor. */
  ghost predicate Documented(cmp: Comparator<Bytes>, separator: (Bytes, Bytes) -> Bytes, successor: Bytes -> Bytes) {
    && (forall a: Bytes, b: Bytes :: cmp(a, b) < 0 ==> cmp(a, separator(a, b)) <= 0 && cmp(separator(a, b), b) < 0)
    && (forall a: Bytes :: cmp(a, successor(a)) <= 0)
  }

  /** What InternalKeyComparator needs, for equal keys too: a separator that is shorter than its start and behind it
      is before the limit. */
  ghost predicate Shortens(cmp: Comparator<Bytes>, separator: (Bytes, Bytes) -> Bytes) {
    forall a: Bytes, b: Bytes :: cmp(a, b) <= 0 && Replaces(cmp, a, separator(a, b)) ==> cmp(separator(a, b), b) < 0
  }

  /** The guard in the source: physically shorter, logically larger. */
  predicate Replaces(cmp: Comparator<Bytes>, key: Bytes, short: Bytes) {
    |short| < |key| && cmp(key, short) < 0
  }

  /** Length of the common prefix. */
  function Common(a: Bytes, b: Bytes): (n: nat)
    ensures n <= |a| && n <= |b|
  {
    if a == [] || b == [] || a[0] != b[0] then 0 else 1 + Common(a[1..], b[1..])
  }

  lemma {:induction false} CommonIs(a: Bytes, b: Bytes, n: nat)
    requires n <= |a| && n <= |b| && a[..n] == b[..n]
    requires n == |a| || n == |b| || a[n] != b[n]
    ensures Common(a, b) == n
  {
    if n > 0 {
      assert a[..n][0] == b[..n][0] && a[1..][..n - 1] == a[..n][1..] && b[1..][..n - 1] == b[..n][1..];
      CommonIs(a[1..], b[1..], n - 1);
    }
  }

  lemma {:induction false} CommonPrefix(a: Bytes, b: Bytes)
    ensures a[..Common(a, b)] == b[..Common(a, b)]
  {
    if Common(a, b) > 0 {
      CommonPrefix(a[1..], b[1..]);
      var n := Common(a, b);
      assert a[..n] == [a[0]] + a[1..][..n - 1] && b[..n] == [b[0]] + b[1..][..n - 1];
    }
  }

  /** Behind a common prefix only the rest decides. */
  lemma {:induction false} SkipCommon(a: Bytes, b: Bytes, n: nat)
    requires n <= |a| && n <= |b| && a[..n] == b[..n]
    ensures Bytewise(a, b) == Bytewise(a[n..], b[n..])
  {
    if n > 0 {
      assert a[..n][0] == b[..n][0] && a[1..][..n - 1] == a[..n][1..] && b[1..][..n - 1] == b[..n][1..];
      SkipCommon(a[1..], b[1..], n - 1);
      assert a[1..][n - 1..] == a[n..] && b[1..][n - 1..] == b[n..];
    } else {
      assert a[0..] == a && b[0..] == b;
    }
  }

  /** The separator of two byte strings: start cut after its first differing byte, that byte one larger, if there
      is room below the byte of limit. */
  function Separator(start: Bytes, limit: Bytes): Bytes {
    var n := Common(start, limit);
    if n == |start| || n == |limit| then start
    else if start[n] < 0xff && start[n] + 1 < limit[n] then start[..n] + [start[n] + 1]
    else start
  }

  /** The first byte that can be incremented is, and ends the key. */
  function Successor(key: Bytes): Bytes {
    if key == [] then []
    else if key[0] != 0xff then [key[0] + 1]
    else [key[0]] + Successor(key[1..])
  }

  lemma SeparatorBetween(a: Bytes, b: Bytes)
    requires Bytewise(a, b) < 0
    ensures Bytewise(a, Separator(a, b)) <= 0 && Bytewise(Separator(a, b), b) < 0
  {
    var n, s := Common(a, b), Separator(a, b);
    BytewiseLaws(a, a);
    if s != a {
      CommonPrefix(a, b);
      assert s[..n] == a[..n];
      SkipCommon(a, s, n);
      SkipCommon(s, b, n);
    }
  }

  lemma SeparatorOfSame(a: Bytes)
    ensures Separator(a, a) == a
  {
    CommonIs(a, a, |a|);
  }

  lemma {:induction false} SuccessorNotBefore(a: Bytes)
    ensures Bytewise(a, Successor(a)) <= 0
  {
    if a != [] && a[0] == 0xff {
      SuccessorNotBefore(a[1..]);
      assert Successor(a)[1..] == Successor(a[1..]);
    }
  }

  lemma BytewiseShortens()
    ensures Documented(Bytewise, Separator, Successor) && Shortens(Bytewise, Separator)
    ensures forall a: Bytes :: Separator(a, a) == a
  {
    forall a: Bytes, b: Bytes | Bytewise(a, b) < 0
      ensures Bytewise(a, Separator(a, b)) <= 0 && Bytewise(Separator(a, b), b) < 0
    {
      SeparatorBetween(a, b);
    }
    forall a: Bytes ensures Separator(a, a) == a { SeparatorOfSame(a); }
    forall a: Bytes, b: Bytes | Bytewise(a, b) <= 0 && Replaces(Bytewise, a, Separator(a, b))
      ensures Bytewise(Separator(a, b), b) < 0
    {
      BytewiseLaws(a, b);
    }
    forall a: Bytes ensures Bytewise(a, Successor(a)) <= 0 { SuccessorNotBefore(a); }
  }

  method FindShortestSeparator(start: Bytes, limit: Bytes) returns (r: Bytes)
    ensures r == Separator(start, limit)
  {
    // find the length of the common prefix
    var minLength := if |start| < |limit| then |start| else |limit|;
    var diffIndex := 0;
    while diffIndex < minLength && start[diffIndex] == limit[diffIndex]
      invariant diffIndex <= minLength && start[..diffIndex] == limit[..diffIndex]
    {
      diffIndex := diffIndex + 1;
    }
    CommonIs(start, limit, diffIndex);
    r := start;
    if diffIndex < minLength {
      var diffByte := start[diffIndex];
      if diffByte < 0xff && diffByte + 1 < limit[diffIndex] {
        r := start[..diffIndex] + [diffByte + 1];
      }
    }
  }

  lemma SuccessorFrom(key: Bytes, i: nat)
    requires i <= |key|
    ensures Successor(key[i..]) == if i == |key| then [] else if key[i] != 0xff then [key[i] + 1]
        else [key[i]] + Successor(key[i + 1..])
    ensures i < |key| ==> key[..i + 1] == key[..i] + [key[i]]
  {
    if i < |key| { assert key[i..][1..] == key[i + 1..]; }
  }

  method FindShortSuccessor(key: Bytes) returns (r: Bytes)
    ensures r == Successor(key)
  {
    hide Successor;
    var i := 0;
    assert key[0..] == key && key[..0] == [];
    while i < |key|
      invariant i <= |key| && Successor(key) == key[..i] + Successor(key[i..])
    {
      SuccessorFrom(key, i);
      if key[i] != 0xff {
        return key[..i] + [key[i] + 1];
      }
      i := i + 1;
    }
    SuccessorFrom(key, i);
    assert key[..i] == key;
    r := key;
  }

  // ----------------------------------------------------------------- internal keys

  function UserKey(s: Bytes): Bytes
    requires |s| >= 8
  {
    s[..|s| - 8]
  }

  function Number(s: Bytes): nat
    requires |s| >= 8
  {
    FixedValue(s[|s| - 8..])
  }

  /** InternalKeyComparator::Compare on encoded keys.  The source asserts that a key has its eight bytes of
      sequence number and type; shorter strings are put first here, so that the order is total. */
  function InternalCompare(ucmp: Comparator<Bytes>, a: Bytes, b: Bytes): int {
    if |a| < 8 || |b| < 8 then (if |a| >= 8 then 1 else if |b| >= 8 then -1 else Bytewise(a, b))
    else
      var r := ucmp(UserKey(a), UserKey(b));
      if r != 0 then r
      else if Number(a) > Number(b) then -1
      else if Number(a) < Number(b) then 1
      else 0
  }

  function InternalComparator(ucmp: Comparator<Bytes>): Comparator<Bytes> {
    (a: Bytes, b: Bytes) => InternalCompare(ucmp, a, b)
  }

  lemma {:induction false} FixedInjective(a: Bytes, b: Bytes)
    requires |a| == |b| && FixedValue(a) == FixedValue(b)
    ensures a == b
  {
    if a != [] {
      assert a[0] == b[0] && FixedValue(a[1..]) == FixedValue(b[1..]);
      FixedInjective(a[1..], b[1..]);
      assert a == [a[0]] + a[1..] && b == [b[0]] + b[1..];
    }
  }

  lemma SameParts(a: Bytes, b: Bytes)
    requires |a| >= 8 && |b| >= 8
    ensures UserKey(a) == UserKey(b) && Number(a) == Number(b) <==> a == b
  {
    if UserKey(a) == UserKey(b) && Number(a) == Number(b) {
      FixedInjective(a[|a| - 8..], b[|b| - 8..]);
      assert a == UserKey(a) + a[|a| - 8..] && b == UserKey(b) + b[|b| - 8..];
    }
  }

  lemma InternalIsTotal(ucmp: Comparator<Bytes>)
    requires TotalOrder(ucmp)
    ensures TotalOrder(InternalComparator(ucmp))
  {
    var cmp := InternalComparator(ucmp);
    forall a: Bytes, b: Bytes, c: Bytes
      ensures (cmp(a, b) == 0 <==> a == b) && (cmp(a, b) < 0 <==> cmp(b, a) > 0)
      ensures cmp(a, b) < 0 && cmp(b, c) < 0 ==> cmp(a, c) < 0
    {
      InternalLaws(ucmp, a, b);
      if cmp(a, b) < 0 && cmp(b, c) < 0 { InternalTransitive(ucmp, a, b, c); }
    }
  }

  lemma InternalLaws(ucmp: Comparator<Bytes>, a: Bytes, b: Bytes)
    requires TotalOrder(ucmp)
    ensures InternalCompare(ucmp, a, b) == 0 <==> a == b
    ensures InternalCompare(ucmp, a, b) < 0 <==> InternalCompare(ucmp, b, a) > 0
  {
    BytewiseLaws(a, b);
    if |a| >= 8 && |b| >= 8 {
      Laws(ucmp);
      SameParts(a, b);
    }
  }

  lemma InternalTransitive(ucmp: Comparator<Bytes>, a: Bytes, b: Bytes, c: Bytes)
    requires TotalOrder(ucmp) && InternalCompare(ucmp, a, b) < 0 && InternalCompare(ucmp, b, c) < 0
    ensures InternalCompare(ucmp, a, c) < 0
  {
    if |a| < 8 && |b| < 8 && |c| < 8 {
      BytewiseTransitive(a, b, c);
    } else if |a| >= 8 {
      Transitive(ucmp, UserKey(a), UserKey(b), UserKey(c));
      Laws(ucmp);
    }
  }

  /** The earliest number: the largest sequence with the type used for seeking. */
  function EarliestNumber(): Bytes { Fixed(256 * InternalKeys.MaxSequence + 1, 8) }

  /** InternalKeyComparator::FindShortestSeparator. */
  function InternalSeparator(ucmp: Comparator<Bytes>, separator: (Bytes, Bytes) -> Bytes, start: Bytes,
                             limit: Bytes): Bytes
  {
    if |start| < 8 || |limit| < 8 then start
    else
      var tmp := separator(UserKey(start), UserKey(limit));
      if Replaces(ucmp, UserKey(start), tmp) then tmp + EarliestNumber() else start
  }

  function InternalSuccessor(ucmp: Comparator<Bytes>, successor: Bytes -> Bytes, key: Bytes): Bytes {
    if |key| < 8 then key
    else
      var tmp := successor(UserKey(key));
      if Replaces(ucmp, UserKey(key), tmp) then tmp + EarliestNumber() else key
  }

  /** The separator is the start, or its user key lies strictly between the two user keys. */
  lemma InternalSeparatorIs(ucmp: Comparator<Bytes>, separator: (Bytes, Bytes) -> Bytes, a: Bytes, b: Bytes)
    requires TotalOrder(ucmp) && Shortens(ucmp, separator) && |a| >= 8 && |b| >= 8 && InternalCompare(ucmp, a, b) < 0
    ensures var s := InternalSeparator(ucmp, separator, a, b);
            && |s| >= 8 && InternalCompare(ucmp, a, s) <= 0 && InternalCompare(ucmp, s, b) < 0
            && (s == a || (ucmp(UserKey(a), UserKey(s)) < 0 && ucmp(UserKey(s), UserKey(b)) < 0))
  {
    Laws(ucmp);
    InternalLaws(ucmp, a, a);
    var tmp := separator(UserKey(a), UserKey(b));
    var s := tmp + EarliestNumber();
    assert UserKey(s) == tmp;
  }

  lemma InternalSuccessorIs(ucmp: Comparator<Bytes>, successor: Bytes -> Bytes, a: Bytes)
    requires TotalOrder(ucmp) && |a| >= 8
    ensures |InternalSuccessor(ucmp, successor, a)| >= 8
        && InternalCompare(ucmp, a, InternalSuccessor(ucmp, successor, a)) <= 0
  {
    InternalLaws(ucmp, a, a);
    var s := successor(UserKey(a)) + EarliestNumber();
    assert UserKey(s) == successor(UserKey(a));
  }

  // ------------------------------------------------------------- what a comparator must do

  /** Every separator of two internal keys lies from the first up to, not at, the second. */
  ghost predicate Separates(ucmp: Comparator<Bytes>, separator: (Bytes, Bytes) -> Bytes) {
    forall a: Bytes, b: Bytes :: |a| >= 8 && |b| >= 8 && InternalCompare(ucmp, a, b) < 0 ==>
        var s := InternalSeparator(ucmp, separator, a, b);
        InternalCompare(ucmp, a, s) <= 0 && InternalCompare(ucmp, s, b) < 0
  }

  /** Shortens is just what is needed. */
  lemma SeparatesIff(ucmp: Comparator<Bytes>, separator: (Bytes, Bytes) -> Bytes)
    requires TotalOrder(ucmp)
    ensures Separates(ucmp, separator) <==> Shortens(ucmp, separator)
  {
    hide InternalSeparator;
    hide InternalCompare;
    if Shortens(ucmp, separator) {
      forall a: Bytes, b: Bytes | |a| >= 8 && |b| >= 8 && InternalCompare(ucmp, a, b) < 0
        ensures var s := InternalSeparator(ucmp, separator, a, b);
                InternalCompare(ucmp, a, s) <= 0 && InternalCompare(ucmp, s, b) < 0
      {
        InternalSeparatorIs(ucmp, separator, a, b);
      }
    }
    if Separates(ucmp, separator) {
      forall u: Bytes, w: Bytes | ucmp(u, w) <= 0 && Replaces(ucmp, u, separator(u, w))
        ensures ucmp(separator(u, w), w) < 0
      {
        SeparatedUsers(ucmp, separator, u, w);
      }
    }
  }

  /** Seen from two user keys: the internal keys u with a small number, w with the earliest or a smaller one. */
  lemma SeparatedUsers(ucmp: Comparator<Bytes>, separator: (Bytes, Bytes) -> Bytes, u: Bytes, w: Bytes)
    requires TotalOrder(ucmp) && Separates(ucmp, separator)
    requires ucmp(u, w) <= 0 && Replaces(ucmp, u, separator(u, w))
    ensures ucmp(separator(u, w), w) < 0
  {
    hide Fixed;
    hide FixedValue;
    Laws(ucmp);
    var number := if u == w then Fixed(257, 8) else EarliestNumber();
    var a, b, s := u + Fixed(513, 8), w + number, separator(u, w) + EarliestNumber();
    Parts(u, Fixed(513, 8));
    Parts(w, number);
    Parts(separator(u, w), EarliestNumber());
    KeyNumber(u, 513);
    KeyNumber(w, 257);
    assert InternalCompare(ucmp, a, b) < 0;
    assert InternalSeparator(ucmp, separator, a, b) == s;
  }

  lemma Parts(user: Bytes, number: Bytes)
    requires |number| == 8
    ensures |user + number| >= 8 && UserKey(user + number) == user && Number(user + number) == FixedValue(number)
  {
    assert (user + number)[|user|..] == number;
  }

  lemma KeyNumber(u: Bytes, n: nat)
    requires n < 0x1_0000
    ensures Number(u + Fixed(n, 8)) == n
  {
    assert (u + Fixed(n, 8))[|u|..] == Fixed(n, 8);
    assert Pow256(2) == 0x1_0000 && Pow256(4) == 0x1_0000_0000 && Pow256(6) == 0x1_0000_0000_0000;
    FixedRoundTrip(n, 8);
  }

  /** A comparator as documented meets it exactly when no key gets a shorter and larger separator of its own. */
  lemma DocumentedSeparatesIff(ucmp: Comparator<Bytes>, separator: (Bytes, Bytes) -> Bytes, successor: Bytes -> Bytes)
    requires TotalOrder(ucmp) && Documented(ucmp, separator, successor)
    ensures Separates(ucmp, separator) <==> forall u: Bytes :: |separator(u, u)| < |u| ==> ucmp(u, separator(u, u)) >= 0
  {
    Laws(ucmp);
    SeparatesIff(ucmp, separator);
    hide Separates;
    if Shortens(ucmp, separator) {
      forall u: Bytes | |separator(u, u)| < |u| ensures ucmp(u, separator(u, u)) >= 0 {
        assert ucmp(u, u) <= 0;
      }
    }
  }

  /** Like Separator, but it makes one key larger when asked to separate it from itself. */
  function Careless(a: Bytes, b: Bytes): Bytes {
    if a == b == [1, 0] then [2] else Separator(a, b)
  }

  /** The documented promise alone is not enough: two versions of one user key can get a separator behind both. */
  lemma DocumentedIsNotEnough()
    ensures Documented(Bytewise, Careless, Successor)
    ensures var a, b := [1, 0] + Fixed(513, 8), [1, 0] + Fixed(257, 8);
            && InternalCompare(Bytewise, a, b) < 0
            && InternalCompare(Bytewise, InternalSeparator(Bytewise, Careless, a, b), b) > 0
  {
    BytewiseShortens();
    forall a: Bytes, b: Bytes | Bytewise(a, b) < 0
      ensures Bytewise(a, Careless(a, b)) <= 0 && Bytewise(Careless(a, b), b) < 0
    {
      BytewiseLaws(a, b);
    }
    var a, b, s := [1, 0] + Fixed(513, 8), [1, 0] + Fixed(257, 8), [2] + EarliestNumber();
    assert UserKey(a) == UserKey(b) == [1, 0] && UserKey(s) == [2];
    KeyNumber([1, 0], 513);
    KeyNumber([1, 0], 257);
    assert Bytewise([1, 0], [1, 0]) == 0 && Bytewise([1, 0], [2]) == -1 by { BytewiseLaws([1, 0], [1, 0]); }
    BytewiseLaws([2], [1, 0]);
  }
}
