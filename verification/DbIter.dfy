/** DBIter (db/db_iter.cc): turns the internal entries of the store into the user's
    view at one sequence number, in both directions. */
module DbIter {
  import opened Order
  import opened Cursors
  import opened InternalKeys
  import opened Options
  import opened Tables
  import opened Versions
  import M = Merger

  // ---------------------------------------------------------------- user view

  predicate Visible<U, V>(es: Entries<U, V>, s: nat, i: int)
    requires 0 <= i < |es|
  {
    es[i].0.sequence <= s
  }

  /** Some visible entry before i is for the same user key. */
  ghost predicate Shadowed<U, V>(es: Entries<U, V>, s: nat, i: int)
    requires 0 <= i < |es|
  {
    exists j :: 0 <= j < i && Visible(es, s, j) && es[j].0.user == es[i].0.user
  }

  /** Entry i is what a reader at sequence s sees for its user key. */
  ghost predicate Winner<U, V>(es: Entries<U, V>, s: nat, i: int) {
    0 <= i < |es| && Visible(es, s, i) && es[i].0.kind == Value && !Shadowed(es, s, i)
  }

  /** The winners among es[..n], in order. */
  ghost function Winners<U, V>(es: Entries<U, V>, s: nat, n: nat): (ws: seq<int>)
    requires n <= |es|
    ensures |ws| <= n
  {
    if n == 0 then []
    else if Winner(es, s, n - 1) then Winners(es, s, n - 1) + [n - 1]
    else Winners(es, s, n - 1)
  }

  /** How many winners precede entry n. */
  ghost function Rank<U, V>(es: Entries<U, V>, s: nat, n: nat): nat
    requires n <= |es|
  {
    |Winners(es, s, n)|
  }

  lemma {:induction false} WinnersAreWinners<U, V>(es: Entries<U, V>, s: nat, n: nat)
    requires n <= |es|
    ensures forall r :: 0 <= r < Rank(es, s, n) ==> Winner(es, s, Winners(es, s, n)[r]) && Winners(es, s, n)[r] < n
  {
    if n > 0 { WinnersAreWinners(es, s, n - 1); }
  }

  lemma {:induction false} WinnersGrow<U, V>(es: Entries<U, V>, s: nat, m: nat, n: nat)
    requires m <= n <= |es|
    ensures Rank(es, s, m) <= Rank(es, s, n) && Winners(es, s, n)[..Rank(es, s, m)] == Winners(es, s, m)
  {
    if m < n { WinnersGrow(es, s, m, n - 1); }
  }

  /** Stretches without a winner do not change the rank. */
  lemma {:induction false} NoWinnersBetween<U, V>(es: Entries<U, V>, s: nat, m: nat, n: nat)
    requires m <= n <= |es| && forall i :: m <= i < n ==> !Winner(es, s, i)
    ensures Winners(es, s, n) == Winners(es, s, m)
  {
    if m < n { NoWinnersBetween(es, s, m, n - 1); }
  }

  lemma WinnerAtRank<U, V>(es: Entries<U, V>, s: nat, w: nat)
    requires Winner(es, s, w)
    ensures Rank(es, s, w) < Rank(es, s, |es|) && Winners(es, s, |es|)[Rank(es, s, w)] == w
    ensures Rank(es, s, w + 1) == Rank(es, s, w) + 1
  {
    WinnersGrow(es, s, w + 1, |es|);
    assert Winners(es, s, w + 1)[Rank(es, s, w)] == w;
  }

  /** The user's view: for each user key with a value at s, in order, that value. */
  ghost function UserView<U, V>(es: Entries<U, V>, s: nat): seq<(U, V)> {
    WinnersAreWinners(es, s, |es|);
    var ws := Winners(es, s, |es|);
    seq(|ws|, r requires 0 <= r < |ws| => (es[ws[r]].0.user, es[ws[r]].1))
  }

  /** The view holds (k, v) exactly when the newest entry of k visible at s is the value v. */
  lemma ViewIsNewest<U, V>(es: Entries<U, V>, s: nat, k: U, v: V)
    ensures (k, v) in UserView(es, s) <==> exists i :: Winner(es, s, i) && es[i].0.user == k && es[i].1 == v
  {
    var ws := Winners(es, s, |es|);
    WinnersAreWinners(es, s, |es|);
    if (k, v) in UserView(es, s) {
      var r :| 0 <= r < |UserView(es, s)| && UserView(es, s)[r] == (k, v);
      assert Winner(es, s, ws[r]);
    }
    if i :| Winner(es, s, i) && es[i].0.user == k && es[i].1 == v {
      WinnerAtRank(es, s, i);
      assert UserView(es, s)[Rank(es, s, i)] == (k, v);
    }
  }

  // ---------------------------------------------------------------- order facts

  ghost predicate Scannable<U(!new), V>(ucmp: Comparator<U>, es: Entries<U, V>) {
    TotalOrder(ucmp) && Ordered(ucmp, es)
  }

  lemma ViewSorted<U(!new), V>(ucmp: Comparator<U>, es: Entries<U, V>, s: nat)
    requires Scannable(ucmp, es)
    ensures Sorted(ucmp, UserView(es, s))
  {
    var ws, view := Winners(es, s, |es|), UserView(es, s);
    Laws(ucmp);
    WinnersAreWinners(es, s, |es|);
    forall a, b | 0 <= a < b < |view| ensures Precedes(ucmp, view, a, b) {
      WinnersAscend(es, s, |es|, a, b);
      UsersAscend(ucmp, es, ws[a], ws[b]);
      assert Winner(es, s, ws[b]) && !Shadowed(es, s, ws[b]);
    }
  }

  lemma {:induction false} WinnersAscend<U, V>(es: Entries<U, V>, s: nat, n: nat, a: nat, b: nat)
    requires n <= |es| && a < b < Rank(es, s, n)
    ensures Winners(es, s, n)[a] < Winners(es, s, n)[b]
  {
    WinnersAreWinners(es, s, n - 1);
    if b < Rank(es, s, n - 1) { WinnersAscend(es, s, n - 1, a, b); }
  }

  /** The view holds (k, v) exactly when a point read of k at s finds v: iterating and reading agree. */
  lemma ViewIsReads<U(!new), V(!new)>(ucmp: Comparator<U>, es: Entries<U, V>, s: nat, k: U, v: V)
    requires Scannable(ucmp, es)
    ensures (k, v) in UserView(es, s) <==> Reads((set e | e in es), k, s, Found(v))
  {
    var S := set e | e in es;
    ViewIsNewest(es, s, k, v);
    if i :| Winner(es, s, i) && es[i].0.user == k && es[i].1 == v {
      WinnerIsBest(ucmp, es, s, i);
      assert AnswerOf(es[i]) == Found(v);
    }
    if Reads(S, k, s, Found(v)) {
      var e :| e in S && BestOf(S, e, k, s) && AnswerOf(e) == Found(v);
      var i := BestIsWinner(ucmp, es, s, e, k);
    }
  }

  lemma WinnerIsBest<U(!new), V(!new)>(ucmp: Comparator<U>, es: Entries<U, V>, s: nat, i: nat)
    requires Scannable(ucmp, es) && Winner(es, s, i)
    ensures BestOf((set e | e in es), es[i], es[i].0.user, s)
  {
    forall x | x in es && Matches(x, es[i].0.user, s) ensures Tag(x.0) <= Tag(es[i].0) {
      var j :| 0 <= j < |es| && es[j] == x;
      assert Visible(es, s, j) && !Shadowed(es, s, i);
      if i < j { NewestComesFirst(ucmp, es, i, j); }
    }
  }

  lemma BestIsWinner<U(!new), V(!new)>(ucmp: Comparator<U>, es: Entries<U, V>, s: nat, e: Entry<U, V>, k: U)
      returns (i: nat)
    requires Scannable(ucmp, es) && BestOf((set x | x in es), e, k, s) && e.0.kind == Value
    ensures Winner(es, s, i) && es[i] == e
  {
    i :| 0 <= i < |es| && es[i] == e;
    forall j | 0 <= j < i && Visible(es, s, j) ensures es[j].0.user != k {
      if es[j].0.user == k {
        NewestComesFirst(ucmp, es, j, i);
        assert es[j] in (set x | x in es) && Matches(es[j], k, s);
      }
    }
  }

  // ------------------------------------------------------------ forward scan

  /** The entry the forward scan looks for: a winner, past the key to skip if there is one. */
  ghost predicate Wanted<U, V>(ucmp: Comparator<U>, es: Entries<U, V>, s: nat, skip: Option<U>, i: int) {
    Winner(es, s, i) && (skip.Some? ==> ucmp(skip.value, es[i].0.user) < 0)
  }

  /** Where a forward scan may start: at lo, skipping the given key if any. */
  ghost predicate Startable<U, V>(ucmp: Comparator<U>, es: Entries<U, V>, s: nat, lo: nat, skip: Option<U>)
    requires lo < |es|
  {
    match skip
    case None =>
      forall j :: 0 <= j < lo && Visible(es, s, j) ==> ucmp(es[j].0.user, es[lo].0.user) < 0
    case Some(k) =>
      && (forall j :: 0 <= j < lo ==> ucmp(es[j].0.user, k) <= 0)
      && (forall i :: lo <= i < |es| && Visible(es, s, i) ==> ucmp(k, es[i].0.user) <= 0)
  }

  /** What the scan from lo knows at p, hidden being the key it currently skips. */
  ghost predicate Scanned<U, V>(ucmp: Comparator<U>, es: Entries<U, V>, s: nat, lo: nat, p: nat, skip: Option<U>,
                                hidden: Option<U>)
    requires lo <= p <= |es|
  {
    match hidden
    case None =>
      && skip.None?
      && forall j :: lo <= j < p ==> !Visible(es, s, j)
    case Some(h) =>
      && (skip.Some? ==> ucmp(skip.value, h) <= 0)
      && (forall j :: lo <= j < p && Visible(es, s, j) ==> ucmp(es[j].0.user, h) <= 0)
      && (hidden != skip ==> exists j :: 0 <= j < p && Visible(es, s, j) && es[j].0.user == h)
      && (forall i :: lo <= i < p ==> !Wanted(ucmp, es, s, skip, i))
  }

  lemma ScanStarts<U(!new), V>(ucmp: Comparator<U>, es: Entries<U, V>, s: nat, lo: nat, skip: Option<U>)
    requires Scannable(ucmp, es) && lo <= |es|
    ensures Scanned(ucmp, es, s, lo, lo, skip, skip)
  {
    Laws(ucmp);
  }

  lemma StepOverDeletion<U(!new), V>(ucmp: Comparator<U>, es: Entries<U, V>, s: nat, lo: nat, p: nat, skip: Option<U>,
                                     hidden: Option<U>)
    requires Scannable(ucmp, es) && lo <= p < |es| && Startable(ucmp, es, s, lo, skip)
    requires Scanned(ucmp, es, s, lo, p, skip, hidden) && Visible(es, s, p) && es[p].0.kind == Deletion
    ensures Scanned(ucmp, es, s, lo, p + 1, skip, Some(es[p].0.user))
  {
    forall j | lo <= j < p + 1 ensures ucmp(es[j].0.user, es[p].0.user) <= 0 {
      UsersAscend(ucmp, es, j, p);
    }
  }

  lemma StepOverHidden<U(!new), V>(ucmp: Comparator<U>, es: Entries<U, V>, s: nat, lo: nat, p: nat, skip: Option<U>,
                                   hidden: Option<U>)
    requires Scannable(ucmp, es) && lo <= p < |es|
    requires Scanned(ucmp, es, s, lo, p, skip, hidden) && Visible(es, s, p)
    requires hidden.Some? && ucmp(es[p].0.user, hidden.value) <= 0
    ensures Scanned(ucmp, es, s, lo, p + 1, skip, hidden)
  {
    Laws(ucmp);
    if hidden != skip {
      var j :| 0 <= j < p && Visible(es, s, j) && es[j].0.user == hidden.value;
      UsersAscend(ucmp, es, j, p);
      assert Shadowed(es, s, p);
    }
  }

  /** The scan's step: what it skips after entry p, when it does not yield it. */
  function HiddenAfter<U, V>(es: Entries<U, V>, s: nat, p: nat, hidden: Option<U>): Option<U>
    requires p < |es|
  {
    if Visible(es, s, p) && es[p].0.kind == Deletion then Some(es[p].0.user) else hidden
  }

  lemma StepOver<U(!new), V>(ucmp: Comparator<U>, es: Entries<U, V>, s: nat, lo: nat, p: nat, skip: Option<U>,
                             hidden: Option<U>)
    requires Scannable(ucmp, es) && lo <= p < |es| && Startable(ucmp, es, s, lo, skip)
    requires Scanned(ucmp, es, s, lo, p, skip, hidden)
    requires Visible(es, s, p) && es[p].0.kind == Value ==> hidden.Some? && ucmp(es[p].0.user, hidden.value) <= 0
    ensures Scanned(ucmp, es, s, lo, p + 1, skip, HiddenAfter(es, s, p, hidden))
  {
    if Visible(es, s, p) {
      if es[p].0.kind == Deletion {
        StepOverDeletion(ucmp, es, s, lo, p, skip, hidden);
      } else {
        StepOverHidden(ucmp, es, s, lo, p, skip, hidden);
      }
    }
  }

  lemma NoneWanted<U(!new), V>(ucmp: Comparator<U>, es: Entries<U, V>, s: nat, lo: nat, p: nat, skip: Option<U>,
                               hidden: Option<U>)
    requires lo <= p <= |es| && Scanned(ucmp, es, s, lo, p, skip, hidden)
    ensures forall i :: lo <= i < p ==> !Wanted(ucmp, es, s, skip, i)
  {
  }

  lemma YieldsWanted<U(!new), V>(ucmp: Comparator<U>, es: Entries<U, V>, s: nat, lo: nat, p: nat, skip: Option<U>,
                                 hidden: Option<U>)
    requires Scannable(ucmp, es) && lo <= p < |es| && Startable(ucmp, es, s, lo, skip)
    requires Scanned(ucmp, es, s, lo, p, skip, hidden) && Visible(es, s, p) && es[p].0.kind == Value
    requires hidden.Some? ==> ucmp(es[p].0.user, hidden.value) > 0
    ensures Wanted(ucmp, es, s, skip, p)
  {
    Laws(ucmp);
    var u := es[p].0.user;
    if skip.Some? { Transitive(ucmp, skip.value, hidden.value, u); }
    forall j | 0 <= j < p && Visible(es, s, j) ensures es[j].0.user != u {
      if j >= lo {
        Transitive(ucmp, es[j].0.user, hidden.value, u);
      } else if skip.Some? {
        Transitive(ucmp, es[j].0.user, skip.value, u);
      } else {
        UsersAscend(ucmp, es, lo, p);
        Transitive(ucmp, es[j].0.user, es[lo].0.user, u);
      }
    }
  }

  // ----------------------------------------------------------- backward scan

  /** In reverse, q entries remain behind the iterator; none of those between
      them and the current winner w is visible. */
  ghost predicate Behind<U, V>(ucmp: Comparator<U>, es: Entries<U, V>, s: nat, q: nat, w: nat) {
    && q <= w < |es|
    && (forall i :: q <= i < w ==> !Visible(es, s, i))
    && (q > 0 ==> ucmp(es[q - 1].0.user, es[w].0.user) < 0)
  }

  /** How many entries are at or before the iterator's position. */
  function Remaining<K, V>(c: Cursor<K, V>): nat {
    if c.Valid() then c.pos + 1 else 0
  }

  /** What the backward scan of es[r..q] knows: last is the last visible entry it met, or -1. */
  ghost predicate ScannedBack<U, V>(es: Entries<U, V>, s: nat, r: nat, q: nat, last: int)
    requires r <= q <= |es|
  {
    && (last == -1 || (r <= last < q && Visible(es, s, last)))
    && (forall i :: r <= i < (if last == -1 then q else last) ==> !Visible(es, s, i))
    && (forall i :: r <= i < q && i != last ==> !Winner(es, s, i))
  }

  lemma MeetsOlder<U(!new), V>(ucmp: Comparator<U>, es: Entries<U, V>, s: nat, r: nat, q: nat, last: int)
    requires Scannable(ucmp, es) && 0 < r <= q <= |es|
    requires ScannedBack(es, s, r, q, last) && Visible(es, s, r - 1)
    requires last != -1 && es[last].0.kind == Value ==> ucmp(es[r - 1].0.user, es[last].0.user) >= 0
    ensures ScannedBack(es, s, r - 1, q, r - 1)
  {
    if last != -1 && es[last].0.kind == Value {
      Laws(ucmp);
      UsersAscend(ucmp, es, r - 1, last);
      assert Shadowed(es, s, last);
    }
  }

  /** The scan's saved type, key and value are those of the last visible entry met. */
  ghost predicate Saves<U, V>(es: Entries<U, V>, last: int, valueType: ValueType, key: Option<U>, value: Option<V>)
    requires -1 <= last < |es|
  {
    && valueType == (if last == -1 then Deletion else es[last].0.kind)
    && (valueType == Value ==> key == Some(es[last].0.user) && value == Some(es[last].1))
  }

  lemma SavesNothing<U, V>(es: Entries<U, V>)
    ensures Saves(es, -1, Deletion, None, None)
  {
  }

  lemma SavesLast<U, V>(es: Entries<U, V>, last: nat)
    requires last < |es|
    ensures var e := es[last];
            Saves(es, last, e.0.kind, if e.0.kind == Deletion then None else Some(e.0.user),
                if e.0.kind == Deletion then None else Some(e.1))
  {
  }

  lemma SavedKeyIs<U, V>(es: Entries<U, V>, last: int, valueType: ValueType, key: Option<U>, value: Option<V>)
    requires -1 <= last < |es| && Saves(es, last, valueType, key, value)
    ensures valueType != Deletion ==> last != -1 && es[last].0.kind == Value && key == Some(es[last].0.user)
  {
  }

  /** The scan meets a visible entry that is not of an older key than the value it has saved. */
  lemma MeetsVisible<U(!new), V>(ucmp: Comparator<U>, es: Entries<U, V>, s: nat, r: nat, q: nat, last: int,
                                 valueType: ValueType, key: Option<U>, value: Option<V>)
    requires Scannable(ucmp, es) && 0 < r <= q <= |es| && -1 <= last < |es|
    requires ScannedBack(es, s, r, q, last) && es[r - 1].0.sequence <= s && Saves(es, last, valueType, key, value)
    requires valueType != Deletion ==> key.Some? && ucmp(es[r - 1].0.user, key.value) >= 0
    ensures ScannedBack(es, s, r - 1, q, r - 1)
  {
    hide Scannable;
    hide ScannedBack;
    MeetsOlder(ucmp, es, s, r, q, last);
  }

  lemma MeetsInvisible<U, V>(es: Entries<U, V>, s: nat, r: nat, q: nat, last: int)
    requires 0 < r <= q <= |es| && ScannedBack(es, s, r, q, last) && es[r - 1].0.sequence > s
    ensures ScannedBack(es, s, r - 1, q, last)
  {
    SkipsInvisible(es, s, r, q, last);
  }

  lemma StartsBack<U, V>(es: Entries<U, V>, s: nat, q: nat)
    requires q <= |es|
    ensures ScannedBack(es, s, q, q, -1)
  {
  }

  lemma SkipsInvisible<U, V>(es: Entries<U, V>, s: nat, r: nat, q: nat, last: int)
    requires 0 < r <= q <= |es| && ScannedBack(es, s, r, q, last) && !Visible(es, s, r - 1)
    ensures ScannedBack(es, s, r - 1, q, last)
  {
  }

  /** Only the last entry met can win; below it there may be more only if it does. */
  lemma NoOtherWinner<U, V>(es: Entries<U, V>, s: nat, r: nat, q: nat, last: int)
    requires r <= q <= |es| && ScannedBack(es, s, r, q, last)
    ensures last == -1 || 0 <= last < q
    ensures forall i :: last < i < q && r <= i ==> !Winner(es, s, i)
    ensures last == -1 || es[last].0.kind == Deletion ==> forall i :: r <= i < q ==> !Winner(es, s, i)
  {
  }

  /** The last visible entry met is the newest of its key once an older key, or the start, is reached. */
  lemma LastIsWinner<U(!new), V>(ucmp: Comparator<U>, es: Entries<U, V>, s: nat, r: nat, q: nat, last: nat)
    requires Scannable(ucmp, es) && r <= q <= |es|
    requires ScannedBack(es, s, r, q, last) && es[last].0.kind == Value
    requires r > 0 ==> ucmp(es[r - 1].0.user, es[last].0.user) < 0
    ensures Winner(es, s, last) && Behind(ucmp, es, s, r, last)
  {
    Laws(ucmp);
    forall j | 0 <= j < last && Visible(es, s, j) ensures es[j].0.user != es[last].0.user {
      assert j < r;
      UsersAscend(ucmp, es, j, r - 1);
      Transitive(ucmp, es[j].0.user, es[r - 1].0.user, es[last].0.user);
    }
  }

  // -------------------------------------------------------- landing places

  lemma LaterWinnerBeyond<U(!new), V>(ucmp: Comparator<U>, es: Entries<U, V>, s: nat, w: nat, i: nat)
    requires Scannable(ucmp, es) && Winner(es, s, w) && w < i && Winner(es, s, i)
    ensures ucmp(es[w].0.user, es[i].0.user) < 0
  {
    Laws(ucmp);
    UsersAscend(ucmp, es, w, i);
    assert !Shadowed(es, s, i);
  }

  /** A forward scan past w's key from anywhere no winner lies before w lands on the next winner. */
  lemma ForwardLands<U(!new), V>(ucmp: Comparator<U>, es: Entries<U, V>, s: nat, lo: nat, w: nat, p: nat)
    requires Scannable(ucmp, es) && Winner(es, s, w) && lo <= w && lo <= p <= |es|
    requires forall i :: lo <= i < p ==> !Wanted(ucmp, es, s, Some(es[w].0.user), i)
    requires p < |es| ==> Wanted(ucmp, es, s, Some(es[w].0.user), p)
    ensures Rank(es, s, p) == Rank(es, s, w) + 1
  {
    if p <= w {
      UsersAscend(ucmp, es, p, w);
      Laws(ucmp);
    }
    forall i | w < i < p ensures !Winner(es, s, i) {
      assert !Wanted(ucmp, es, s, Some(es[w].0.user), i);
      if Winner(es, s, i) { LaterWinnerBeyond(ucmp, es, s, w, i); }
    }
    WinnerAtRank(es, s, w);
    NoWinnersBetween(es, s, w + 1, p);
  }

  /** The winner a backward scan finds is the one just before w. */
  lemma BackwardLands<U(!new), V>(ucmp: Comparator<U>, es: Entries<U, V>, s: nat, q: nat, w: nat, l: int)
    requires Winner(es, s, w) && q <= w && forall i :: q <= i < w ==> !Visible(es, s, i)
    requires -1 <= l < q && (l == -1 || Winner(es, s, l))
    requires forall i :: l < i < q ==> !Winner(es, s, i)
    ensures Rank(es, s, w) == if l == -1 then 0 else Rank(es, s, l) + 1
  {
    NoWinnersBetween(es, s, l + 1, w);
    if l != -1 { WinnerAtRank(es, s, l); }
  }

  /** The entries before a seek to (target, s) that s can see have keys before target. */
  lemma SeekSplits<U(!new), V>(ucmp: Comparator<U>, es: Entries<U, V>, s: nat, target: U)
    requires Scannable(ucmp, es)
    ensures var lo := FirstAtOrAfter(InternalComparator(ucmp), es, InternalKey(target, s, Value));
            && (forall j :: 0 <= j < lo && Visible(es, s, j) ==> ucmp(es[j].0.user, target) < 0)
            && (forall i :: lo <= i < |es| ==> ucmp(es[i].0.user, target) >= 0)
  {
    var t := InternalKey(target, s, Value);
    var lo := FirstAtOrAfter(InternalComparator(ucmp), es, t);
    FirstAtOrAfterSplits(InternalComparator(ucmp), es, t);
    Laws(ucmp);
    forall j | 0 <= j < lo && Visible(es, s, j) ensures ucmp(es[j].0.user, target) < 0 {
      assert InternalCompare(ucmp, es[j].0, t) < 0;
    }
    forall i | lo <= i < |es| ensures ucmp(es[i].0.user, target) >= 0 {
      UsersAscend(ucmp, es, lo, i);
      assert InternalCompare(ucmp, es[lo].0, t) >= 0;
      Transitive(ucmp, target, es[lo].0.user, es[i].0.user);
    }
  }

  lemma SeekStartable<U(!new), V>(ucmp: Comparator<U>, es: Entries<U, V>, s: nat, target: U)
    requires Scannable(ucmp, es)
    ensures var lo := FirstAtOrAfter(InternalComparator(ucmp), es, InternalKey(target, s, Value));
            lo < |es| ==> Startable(ucmp, es, s, lo, None)
  {
    SeekSplits(ucmp, es, s, target);
    Laws(ucmp);
    var lo := FirstAtOrAfter(InternalComparator(ucmp), es, InternalKey(target, s, Value));
    if lo < |es| {
      forall j | 0 <= j < lo && Visible(es, s, j) ensures ucmp(es[j].0.user, es[lo].0.user) < 0 {
        Transitive(ucmp, es[j].0.user, target, es[lo].0.user);
      }
    }
  }

  /** With no winner from lo up to p, the winners are split at lo just as they are at p. */
  lemma WinnersAroundGap<U, V>(es: Entries<U, V>, s: nat, lo: nat, p: nat)
    requires lo <= p <= |es| && forall i :: lo <= i < p ==> !Winner(es, s, i)
    ensures var ws, n := Winners(es, s, |es|), Rank(es, s, p);
            && n <= |ws| && (n > 0 ==> Winner(es, s, ws[n - 1]) && ws[n - 1] < lo)
            && (n < |ws| ==> Winner(es, s, ws[n]) && lo <= ws[n])
  {
    var ws, n := Winners(es, s, |es|), Rank(es, s, p);
    NoWinnersBetween(es, s, lo, p);
    WinnersAreWinners(es, s, |es|);
    WinnersAreWinners(es, s, lo);
    WinnersGrow(es, s, lo, |es|);
    if n > 0 {
      assert ws[n - 1] == Winners(es, s, lo)[n - 1];
    }
    if n < |ws| && ws[n] < lo {
      WinnerAtRank(es, s, ws[n]);
      WinnersGrow(es, s, ws[n] + 1, lo);
      if Rank(es, s, ws[n]) < n { WinnersAscend(es, s, |es|, Rank(es, s, ws[n]), n); }
    }
  }

  /** The first winner from a seek on is the first key of the view at or after the target. */
  lemma SeekLands<U(!new), V>(ucmp: Comparator<U>, es: Entries<U, V>, s: nat, target: U, p: nat)
    requires Scannable(ucmp, es)
    requires FirstAtOrAfter(InternalComparator(ucmp), es, InternalKey(target, s, Value)) <= p <= |es|
    requires forall i :: FirstAtOrAfter(InternalComparator(ucmp), es, InternalKey(target, s, Value)) <= i < p ==>
        !Winner(es, s, i)
    ensures Rank(es, s, p) == FirstAtOrAfter(ucmp, UserView(es, s), target)
  {
    WinnersAroundGap(es, s, FirstAtOrAfter(InternalComparator(ucmp), es, InternalKey(target, s, Value)), p);
    SeekSplits(ucmp, es, s, target);
    ViewSorted(ucmp, es, s);
    FirstAtOrAfterIs(ucmp, UserView(es, s), target, Rank(es, s, p));
  }

  lemma AllWinnersWanted<U, V>(ucmp: Comparator<U>, es: Entries<U, V>, s: nat)
    ensures forall i :: Winner(es, s, i) ==> Wanted(ucmp, es, s, None, i)
  {
  }

  lemma NextStartable<U(!new), V>(ucmp: Comparator<U>, es: Entries<U, V>, s: nat, lo: nat, w: nat)
    requires Scannable(ucmp, es) && (lo == w < |es| || Behind(ucmp, es, s, lo, w))
    ensures Startable(ucmp, es, s, lo, Some(es[w].0.user))
  {
    Laws(ucmp);
    var k := es[w].0.user;
    forall j | 0 <= j < lo ensures ucmp(es[j].0.user, k) <= 0 {
      UsersAscend(ucmp, es, j, w);
    }
    forall i | lo <= i < |es| && Visible(es, s, i) ensures ucmp(k, es[i].0.user) <= 0 {
      UsersAscend(ucmp, es, w, i);
    }
  }

  lemma SameKeyInvisible<U(!new), V>(ucmp: Comparator<U>, es: Entries<U, V>, s: nat, i: nat, w: nat)
    requires Scannable(ucmp, es) && Winner(es, s, w) && i < w
    requires ucmp(es[i].0.user, es[w].0.user) >= 0
    ensures !Visible(es, s, i)
  {
    Laws(ucmp);
    UsersAscend(ucmp, es, i, w);
    assert !Shadowed(es, s, w);
  }

  // ------------------------------------------------------------ the iterator

  datatype Direction = Forward | Reverse

  /** Winner w is the rank-th and the iterator's fields present it. */
  ghost predicate Presents<U, V>(ucmp: Comparator<U>, es: Entries<U, V>, s: nat, direction: Direction,
                                 iter: Cursor<InternalKey<U>, V>, savedKey: Option<U>, savedValue: Option<V>, w: int) {
    && Winner(es, s, w)
    && match direction
       case Forward => iter.pos == w
       case Reverse =>
         && savedKey == Some(es[w].0.user)
         && savedValue == Some(es[w].1)
         && Behind(ucmp, es, s, Remaining(iter), w)
  }

  class DBIter<U(!new), V> {
    const ucmp: Comparator<U>
    const sequence: nat
    ghost const entries: Entries<U, V>
    const iter: M.MergingIterator<InternalKey<U>, V>
    var savedKey: Option<U>      // None when cleared
    var savedValue: Option<V>
    var direction: Direction
    var valid: bool
    ghost var winner: int        // the index of the entry presented, -1 when not valid

    ghost predicate Base()
      reads this, iter
    {
      iter.Valid() && iter.merged == entries && iter.cmp == InternalComparator(ucmp) && iter.at <= |entries|
    }

    ghost predicate Valid()
      reads this, iter
    {
      && Scannable(ucmp, entries)
      && Placed()
    }

    ghost predicate Placed()
      reads this, iter
    {
      && Base()
      && (valid <==> winner != -1)
      && (valid ==> Presents(ucmp, entries, sequence, direction, iter.View(), savedKey, savedValue, winner))
    }

    /** The cursor over the user's view that this iterator stands for. */
    ghost function View(): Cursor<U, V>
      reads this, iter
      requires Placed()
    {
      Cursor(UserView(entries, sequence),
             if winner == -1 then Rank(entries, sequence, |entries|) else Rank(entries, sequence, winner))
    }

    constructor (ucmp: Comparator<U>, iter: M.MergingIterator<InternalKey<U>, V>, sequence: nat)
      requires Scannable(ucmp, iter.merged) && iter.Valid() && iter.cmp == InternalComparator(ucmp)
      ensures Valid() && !valid
      ensures this.ucmp == ucmp && this.sequence == sequence && this.iter == iter && entries == iter.merged
    {
      this.ucmp, this.iter, this.sequence, this.entries := ucmp, iter, sequence, iter.merged;
      savedKey, savedValue, direction, valid, winner := None, None, Forward, false, -1;
    }

    /** Valid(), key() and value() are those of the view. */
    method IsValid() returns (b: bool)
      requires Valid()
      ensures b <==> View().Valid()
    {
      if valid { WinnerAtRank(entries, sequence, winner); }
      b := valid;
    }

    method Key() returns (k: U)
      requires Valid() && View().Valid()
      ensures k == View().Key()
    {
      hide M.MergingIterator.Valid;
      WinnerAtRank(entries, sequence, winner);
      if direction == Forward {
        var ikey := iter.Key();
        k := ikey.user;
      } else {
        k := savedKey.value;
      }
    }

    method ValueAt() returns (v: V)
      requires Valid() && View().Valid()
      ensures v == View().Value()
    {
      hide M.MergingIterator.Valid;
      WinnerAtRank(entries, sequence, winner);
      if direction == Forward {
        v := iter.Value();
      } else {
        v := savedValue.value;
      }
    }

    method FindNextUserEntry(skip: bool)
      requires Scannable(ucmp, entries) && Base() && iter.at < |entries| && direction == Forward
          && (skip ==> savedKey.Some?)
      requires Startable(ucmp, entries, sequence, iter.at, if skip then savedKey else None)
      modifies iter, `savedKey, `valid, `winner
      ensures Placed() && direction == Forward
      ensures old(iter.at) <= iter.at
      ensures var k := if skip then old(savedKey) else None;
              && (forall i :: old(iter.at) <= i < iter.at ==> !Wanted(ucmp, entries, sequence, k, i))
              && if valid then Wanted(ucmp, entries, sequence, k, iter.at) else iter.at == |entries|
    {
      hide M.MergingIterator.Valid;
      hide Scannable;
      hide Startable;
      hide Winner;
      ghost var k := if skip then savedKey else None;
      valid := ScanForward(if skip then savedKey else None);
      savedKey := None;
      winner := if valid then iter.at else -1;
    }

    /** The forward scan, past the key to skip if there is one. */
    method ScanForward(skip: Option<U>) returns (found: bool)
      requires Scannable(ucmp, entries) && Base() && iter.at < |entries|
          && Startable(ucmp, entries, sequence, iter.at, skip)
      modifies iter
      ensures Base() && old(iter.at) <= iter.at && (found <==> iter.at < |entries|)
      ensures forall i :: old(iter.at) <= i < iter.at ==> !Wanted(ucmp, entries, sequence, skip, i)
      ensures found ==> Wanted(ucmp, entries, sequence, skip, iter.at)
    {
      hide M.MergingIterator.Valid;
      hide Scannable;
      hide Startable;
      hide Scanned;
      hide Wanted;
      ghost var lo := iter.at;
      var skipping, savedKey := skip.Some?, skip;
      ScanStarts(ucmp, entries, sequence, lo, skip);
      found := false;
      while true
        invariant Base() && lo <= iter.at < |entries| && !found
        invariant skipping ==> savedKey.Some?
        invariant Scanned(ucmp, entries, sequence, lo, iter.at, skip, if skipping then savedKey else None)
        decreases |entries| - iter.at
      {
        var ikey := iter.Key();
        ghost var hidden := if skipping then savedKey else None;
        if ikey.sequence <= sequence {
          match ikey.kind {
            case Deletion =>
              savedKey := Some(ikey.user);
              skipping := true;
            case Value =>
              if skipping && ucmp(ikey.user, savedKey.value) <= 0 {
                // Entry hidden
              } else {
                YieldsWanted(ucmp, entries, sequence, lo, iter.at, skip, hidden);
                NoneWanted(ucmp, entries, sequence, lo, iter.at, skip, hidden);
                return true;
              }
          }
        }
        StepOver(ucmp, entries, sequence, lo, iter.at, skip, hidden);
        iter.Next();
        var more := iter.IsValid();
        if !more { break; }
      }
      NoneWanted(ucmp, entries, sequence, lo, iter.at, skip, if skipping then savedKey else None);
    }

    method FindPrevUserEntry()
      requires Scannable(ucmp, entries) && Base() && direction == Reverse
      modifies iter, `savedKey, `savedValue, `direction, `valid, `winner
      ensures Placed()
      ensures valid ==> direction == Reverse && winner < old(Remaining(iter.View()))
      ensures forall i :: (if valid then winner + 1 else 0) <= i < old(Remaining(iter.View())) ==>
          !Winner(entries, sequence, i)
    {
      hide M.MergingIterator.Valid;
      hide Scannable;
      hide Winner;
      hide ScannedBack;
      ghost var q := Remaining(iter.View());
      ghost var last;
      var valueType, key, value;
      valueType, key, value, last := ScanBackward();
      NoOtherWinner(entries, sequence, Remaining(iter.View()), q, last);
      if valueType == Deletion {
        key, value := None, None;
      } else {
        LastIsWinner(ucmp, entries, sequence, Remaining(iter.View()), q, last);
      }
      savedKey, savedValue, valid := key, value, valueType != Deletion;
      direction := if valid then Reverse else Forward;
      winner := if valid then last else -1;
    }

    /** The backward scan, up to the first entry of an older key behind a value. */
    method ScanBackward() returns (valueType: ValueType, key: Option<U>, value: Option<V>, ghost last: int)
      requires Scannable(ucmp, entries) && Base()
      modifies iter
      ensures Base()
      ensures var q, r := old(Remaining(iter.View())), Remaining(iter.View());
              && r <= q && -1 <= last < q && ScannedBack(entries, sequence, r, q, last)
                  && Saves(entries, last, valueType, key, value)
              && (valueType == Deletion ==> r == 0)
              && (valueType == Value ==> r == 0 || ucmp(entries[r - 1].0.user, entries[last].0.user) < 0)
    {
      hide M.MergingIterator.Valid;
      hide Scannable;
      hide ScannedBack;
      hide Winner;
      hide Saves;
      hide Visible;
      ghost var q := Remaining(iter.View());
      last, valueType, key, value := -1, Deletion, None, None;
      StartsBack(entries, sequence, q);
      SavesNothing(entries);
      var more := iter.IsValid();
      while more
        invariant Base() && Remaining(iter.View()) <= q <= |entries| && (more <==> iter.at < |entries|)
        invariant ScannedBack(entries, sequence, Remaining(iter.View()), q, last)
        invariant -1 <= last < q && Saves(entries, last, valueType, key, value)
        decreases Remaining(iter.View())
      {
        var ikey := iter.Key();
        if ikey.sequence <= sequence {
          SavedKeyIs(entries, last, valueType, key, value);
          if valueType != Deletion && ucmp(ikey.user, key.value) < 0 {
            break;
          }
          MeetsVisible(ucmp, entries, sequence, iter.at + 1, q, last, valueType, key, value);
          last := iter.at;
          valueType := ikey.kind;
          key, value := None, None;
          if valueType != Deletion {
            var rawValue := iter.Value();
            key, value := Some(ikey.user), Some(rawValue);
          }
          SavesLast(entries, last);
        } else {
          MeetsInvisible(entries, sequence, iter.at + 1, q, last);
        }
        iter.Prev();
        more := iter.IsValid();
      }
      SavedKeyIs(entries, last, valueType, key, value);
    }

    method Next()
      requires Valid() && View().Valid()
      modifies this, iter
      ensures Valid() && View() == old(View()).Next()
    {
      hide M.MergingIterator.Valid;
      ghost var w := winner;
      if direction == Reverse {
        direction := Forward;
        var there := iter.IsValid();
        if !there {
          iter.SeekToFirst();
        } else {
          iter.Next();
        }
        // The source checks again that iter is valid; behind a valid key it always is.
      } else {
        var ikey := iter.Key();
        savedKey := Some(ikey.user);
      }
      NextStartable(ucmp, entries, sequence, iter.at, w);
      ghost var lo := iter.at;
      FindNextUserEntry(true);
      ForwardLands(ucmp, entries, sequence, lo, w, iter.at);
    }

    /** Turning back: to the last entry of an earlier key, if there is one. */
    method BackToEarlierKey() returns (there: bool)
      requires Valid() && valid && direction == Forward && 0 <= winner < |entries|
      modifies iter, `savedKey
      ensures Base() && (there <==> iter.at < |entries|) && Remaining(iter.View()) <= winner
      ensures forall i :: Remaining(iter.View()) <= i < winner ==> !Visible(entries, sequence, i)
      ensures there ==> ucmp(entries[iter.at].0.user, entries[winner].0.user) < 0
    {
      hide M.MergingIterator.Valid;
      hide Scannable;
      hide Winner;
      hide Visible;
      var ikey := iter.Key();
      savedKey := Some(ikey.user);
      while true
        invariant Base() && iter.at <= winner
        invariant savedKey == Some(entries[winner].0.user)
        invariant forall i :: iter.at <= i < winner ==> !Visible(entries, sequence, i)
        decreases iter.at
      {
        iter.Prev();
        there := iter.IsValid();
        if !there { return; }
        ikey := iter.Key();
        if ucmp(ikey.user, savedKey.value) < 0 { return; }
        SameKeyInvisible(ucmp, entries, sequence, iter.at, winner);
      }
    }

    method Prev()
      requires Valid() && View().Valid()
      modifies this, iter
      ensures Valid() && View() == old(View()).Prev()
    {
      hide M.MergingIterator.Valid;
      ghost var w := winner;
      if direction == Forward {
        var there := BackToEarlierKey();
        if !there {
          valid := false;
          savedKey := None;
          savedValue := None;
          winner := -1;
          BackwardLands(ucmp, entries, sequence, 0, w, -1);
          return;
        }
        direction := Reverse;
      }
      ghost var q := Remaining(iter.View());
      FindPrevUserEntry();
      BackwardLands(ucmp, entries, sequence, q, w, winner);
    }

    method Seek(target: U)
      requires Valid()
      modifies this, iter
      ensures Valid() && View() == old(View()).Seek(ucmp, target)
    {
      hide M.MergingIterator.Valid;
      direction := Forward;
      savedValue := None;
      savedKey := None;
      iter.Seek(InternalKey(target, sequence, Value));
      SeekStartable(ucmp, entries, sequence, target);
      var found := iter.IsValid();
      if found {
        FindNextUserEntry(false);
      } else {
        valid := false;
        winner := -1;
      }
      AllWinnersWanted(ucmp, entries, sequence);
      SeekLands(ucmp, entries, sequence, target, iter.at);
    }

    method SeekToFirst()
      requires Valid()
      modifies this, iter
      ensures Valid() && View() == old(View()).SeekToFirst()
    {
      hide M.MergingIterator.Valid;
      direction := Forward;
      savedValue := None;
      iter.SeekToFirst();
      var found := iter.IsValid();
      if found {
        FindNextUserEntry(false);
      } else {
        valid := false;
        winner := -1;
      }
      AllWinnersWanted(ucmp, entries, sequence);
      NoWinnersBetween(entries, sequence, 0, iter.at);
    }

    method SeekToLast()
      requires Valid()
      modifies this, iter
      ensures Valid() && View() == old(View()).SeekToLast()
    {
      hide M.MergingIterator.Valid;
      direction := Reverse;
      savedValue := None;
      iter.SeekToLast();
      FindPrevUserEntry();
      NoWinnersBetween(entries, sequence, if valid then winner + 1 else 0, |entries|);
      if valid { WinnerAtRank(entries, sequence, winner); }
    }
  }
}
