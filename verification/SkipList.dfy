/** The skip list of the memtable (db/skiplist.h): one writer links a node level by level from the
    bottom, while readers walk the pointers without locks.  Loads and stores of single pointers are
    atomic steps, in any interleaving. */
module SkipList {
  import opened Order
  import opened Options

  const MaxHeight: nat := 12
  const Head: nat := 0

  /** next[l] is the node after this one in level l; there are as many levels as the node is high. */
  datatype Node<K> = Node(key: K, next: seq<Option<nat>>)

  /** What the writer is doing: between inserts, or linking x in after prev[level] at each level;
      when prepared, x already points on at this level but nothing points to it yet. */
  datatype Writer = Idle | Linking(x: nat, prev: seq<nat>, level: nat, prepared: bool)

  /** The three searches, by what they look for. */
  datatype Goal<K> = AtOrAfter(target: K) | Before(target: K) | Last

  /** A search at node x of a level, or its result.  began is the set of nodes linked when it started. */
  datatype Reader<K> = Searching(goal: Goal<K>, x: nat, level: nat, began: set<nat>)
                     | Done(goal: Goal<K>, result: Option<nat>, began: set<nat>)

  /** linked[l] is the set of nodes linked so far at level l: a record of the stores that published
      them, which no step of writer or readers looks at. */
  datatype State<K> = State(nodes: seq<Node<K>>, maxHeight: nat, writer: Writer, readers: map<nat, Reader<K>>,
      linked: seq<set<nat>>)

  // ------------------------------------------------------------------ the invariant

  ghost predicate IsNode<K>(s: State<K>, n: nat, level: nat) {
    n < |s.nodes| && level < |s.nodes[n].next|
  }

  /** The head comes before every key. */
  predicate Precedes<K>(cmp: Comparator<K>, s: State<K>, a: nat, b: nat)
    requires a < |s.nodes| && b < |s.nodes|
  {
    b != Head && (a == Head || cmp(s.nodes[a].key, s.nodes[b].key) < 0)
  }

  /** n's pointer at this level leads to the least linked node after n, if there is one. */
  ghost predicate PointsOn<K(!new)>(cmp: Comparator<K>, s: State<K>, linked: set<nat>, n: nat, level: nat)
    requires IsNode(s, n, level) && forall m :: m in linked ==> m < |s.nodes|
  {
    match s.nodes[n].next[level]
    case None => forall m :: m in linked ==> !Precedes(cmp, s, n, m)
    case Some(next) =>
      && next in linked && Precedes(cmp, s, n, next)
      && forall m :: m in linked && Precedes(cmp, s, n, m) ==> m == next || Precedes(cmp, s, next, m)
  }

  /** One level: its nodes exist, and every one of them, and the head, points to the next. */
  ghost predicate LevelOk<K(!new)>(cmp: Comparator<K>, s: State<K>, level: nat)
    requires level < |s.linked|
  {
    && IsNode(s, Head, level)
    && (forall m :: m in s.linked[level] ==> m != Head && IsNode(s, m, level))
    && PointsOn(cmp, s, s.linked[level], Head, level)
    && (forall m :: m in s.linked[level] ==> PointsOn(cmp, s, s.linked[level], m, level))
  }

  ghost predicate LevelsOk<K(!new)>(cmp: Comparator<K>, s: State<K>) {
    && |s.linked| == MaxHeight && 1 <= s.maxHeight <= MaxHeight && 0 < |s.nodes|
    && (forall l :: 0 <= l < MaxHeight ==> LevelOk(cmp, s, l))
    && (forall l :: 0 < l < MaxHeight ==> s.linked[l] <= s.linked[l - 1])
    && (forall l :: s.maxHeight <= l < MaxHeight ==> s.linked[l] == {})
    && DistinctKeys(cmp, s)
  }

  /** Linked nodes have different keys. */
  ghost predicate DistinctKeys<K(!new)>(cmp: Comparator<K>, s: State<K>)
    requires |s.linked| > 0
  {
    forall a, b ::
      a in s.linked[0] && b in s.linked[0] && a < |s.nodes| && b < |s.nodes| && s.nodes[a].key == s.nodes[b].key ==>
        a == b
  }

  /** p is the last node before x at this level: the head, or linked, with x's place right after it. */
  ghost predicate IsPrev<K(!new)>(cmp: Comparator<K>, s: State<K>, p: nat, key: K, level: nat)
    requires level < |s.linked| && IsNode(s, p, level)
  {
    && (p == Head || (p in s.linked[level] && cmp(s.nodes[p].key, key) < 0))
    && match s.nodes[p].next[level]
       case None => true
       case Some(next) => next < |s.nodes| && cmp(key, s.nodes[next].key) < 0
  }

  ghost predicate WriterOk<K(!new)>(cmp: Comparator<K>, s: State<K>)
    requires |s.linked| == MaxHeight
  {
    match s.writer
    case Idle => true
    case Linking(x, prev, level, prepared) =>
      && 0 < x < |s.nodes| && |prev| == |s.nodes[x].next| <= s.maxHeight <= MaxHeight && level < |prev|
      && (forall l :: 0 <= l < level ==> x in s.linked[l])
      && (forall l :: level <= l < MaxHeight ==> x !in s.linked[l])
      && (forall l :: level <= l < |prev| ==> IsNode(s, prev[l], l) && IsPrev(cmp, s, prev[l], s.nodes[x].key, l))
      && (prepared ==> s.nodes[x].next[level] == s.nodes[prev[level]].next[level])
  }

  predicate GoalPassed<K>(cmp: Comparator<K>, s: State<K>, goal: Goal<K>, n: nat)
    requires n < |s.nodes|
  {
    match goal
    case AtOrAfter(target) => cmp(s.nodes[n].key, target) < 0
    case Before(target) => cmp(s.nodes[n].key, target) < 0
    case Last => true
  }

  /** A search stands at the head or at a linked node it had to pass. */
  ghost predicate StandsOk<K(!new)>(cmp: Comparator<K>, s: State<K>, goal: Goal<K>, x: nat, level: nat)
    requires level < |s.linked|
  {
    x == Head || (x in s.linked[level] && x < |s.nodes| && GoalPassed(cmp, s, goal, x))
  }

  /** What a finished search found, against the nodes linked when it began and those linked by now. */
  ghost predicate ResultOk<K(!new)>(cmp: Comparator<K>, s: State<K>, goal: Goal<K>, result: Option<nat>,
                                    began: set<nat>)
    requires |s.linked| > 0
  {
    && (result.Some? ==> result.value < |s.nodes| && result.value in s.linked[0])
    && (forall n :: n in began ==> n < |s.nodes|)
    && match goal
       case AtOrAfter(target) =>
         && (result.Some? ==> cmp(s.nodes[result.value].key, target) >= 0)
         && (forall n :: n in began && cmp(s.nodes[n].key, target) >= 0 ==>
             result.Some? && cmp(s.nodes[result.value].key, s.nodes[n].key) <= 0)
       case Before(target) =>
         && (result.Some? ==> cmp(s.nodes[result.value].key, target) < 0)
         && (forall n :: n in began && cmp(s.nodes[n].key, target) < 0 ==>
             result.Some? && cmp(s.nodes[n].key, s.nodes[result.value].key) <= 0)
       case Last =>
         forall n :: n in began ==> result.Some? && cmp(s.nodes[n].key, s.nodes[result.value].key) <= 0
  }

  ghost predicate ReaderOk<K(!new)>(cmp: Comparator<K>, s: State<K>, r: Reader<K>)
    requires |s.linked| == MaxHeight
  {
    match r
    case Searching(goal, x, level, began) => level < MaxHeight && began <= s.linked[0]
        && StandsOk(cmp, s, goal, x, level)
    case Done(goal, result, began) => began <= s.linked[0] && ResultOk(cmp, s, goal, result, began)
  }

  ghost predicate Invariant<K(!new)>(cmp: Comparator<K>, s: State<K>) {
    && LevelsOk(cmp, s)
    && WriterOk(cmp, s)
    && forall id :: id in s.readers ==> ReaderOk(cmp, s, s.readers[id])
  }

  // ----------------------------------------------------------------------- the steps

  ghost predicate Init<K>(s: State<K>) {
    && |s.nodes| == 1 && s.nodes[Head].next == seq(MaxHeight, _ => None)
    && s.maxHeight == 1 && s.writer == Idle && s.readers == map[] && s.linked == seq(MaxHeight, _ => {})
  }

  /** What the writer's own search has to deliver before it links a node of this height. */
  ghost predicate PrevsOk<K(!new)>(cmp: Comparator<K>, s: State<K>, key: K, prev: seq<nat>)
    requires |s.linked| == MaxHeight
  {
    |prev| <= MaxHeight && forall l :: 0 <= l < |prev| ==> IsNode(s, prev[l], l) && IsPrev(cmp, s, prev[l], key, l)
  }

  /** Insert, up to the first store that readers can see: the list's height, and a node of its own. */
  function BeginInsert<K>(s: State<K>, key: K, prev: seq<nat>): State<K> {
    s.(nodes := s.nodes + [Node(key, seq(|prev|, _ => None))],
       maxHeight := if |prev| > s.maxHeight then |prev| else s.maxHeight,
       writer := Linking(|s.nodes|, prev, 0, false))
  }

  function SetNext<K>(s: State<K>, n: nat, level: nat, next: Option<nat>): State<K>
    requires n < |s.nodes| && level < |s.nodes[n].next|
  {
    s.(nodes := s.nodes[n := s.nodes[n].(next := s.nodes[n].next[level := next])])
  }

  ghost predicate CanPrepare<K>(s: State<K>) {
    && s.writer.Linking? && !s.writer.prepared && s.writer.level < |s.writer.prev|
    && IsNode(s, s.writer.x, s.writer.level) && IsNode(s, s.writer.prev[s.writer.level], s.writer.level)
  }

  /** x->NoBarrier_SetNext(i, prev[i]->NoBarrier_Next(i)) */
  function Prepare<K>(s: State<K>): State<K>
    requires CanPrepare(s)
  {
    var w := s.writer;
    SetNext(s, w.x, w.level, s.nodes[w.prev[w.level]].next[w.level]).(writer := w.(prepared := true))
  }

  ghost predicate CanPublish<K>(s: State<K>) {
    && s.writer.Linking? && s.writer.prepared && s.writer.level < |s.writer.prev| && s.writer.level < |s.linked|
    && IsNode(s, s.writer.prev[s.writer.level], s.writer.level)
  }

  /** prev[i]->SetNext(i, x) */
  function Publish<K>(s: State<K>): State<K>
    requires CanPublish(s)
  {
    var w := s.writer;
    SetNext(s, w.prev[w.level], w.level, Some(w.x)).(
      linked := s.linked[w.level := s.linked[w.level] + {w.x}],
      writer := if w.level + 1 < |w.prev| then Linking(w.x, w.prev, w.level + 1, false) else Idle)
  }

  function BeginSearch<K>(s: State<K>, id: nat, goal: Goal<K>): State<K>
    requires |s.linked| > 0 && s.maxHeight > 0
  {
    s.(readers := s.readers[id := Searching(goal, Head, s.maxHeight - 1, s.linked[0])])
  }

  ghost predicate CanSearch<K>(s: State<K>, id: nat) {
    && id in s.readers && s.readers[id].Searching? && IsNode(s, s.readers[id].x, s.readers[id].level)
    && forall next :: s.nodes[s.readers[id].x].next[s.readers[id].level] == Some(next) ==> next < |s.nodes|
  }

  /** One turn of a search: one load, then on, down, or done. */
  function Turn<K>(cmp: Comparator<K>, s: State<K>, r: Reader<K>): Reader<K>
    requires r.Searching? && r.x < |s.nodes| && r.level < |s.nodes[r.x].next|
    requires s.nodes[r.x].next[r.level].Some? ==> s.nodes[r.x].next[r.level].value < |s.nodes|
  {
    var next := s.nodes[r.x].next[r.level];
    if next.Some? && GoalPassed(cmp, s, r.goal, next.value) then r.(x := next.value)
    else if r.level > 0 then r.(level := r.level - 1)
    else Done(r.goal, if r.goal.AtOrAfter? then next else if r.x == Head then None else Some(r.x), r.began)
  }

  function SearchTurn<K>(cmp: Comparator<K>, s: State<K>, id: nat): State<K>
    requires CanSearch(s, id)
  {
    s.(readers := s.readers[id := Turn(cmp, s, s.readers[id])])
  }

  // -------------------------------------------------------------------- order facts

  lemma PrecedesTrans<K(!new)>(cmp: Comparator<K>, s: State<K>, a: nat, b: nat, c: nat)
    requires TotalOrder(cmp) && a < |s.nodes| && b < |s.nodes| && c < |s.nodes| && Precedes(cmp, s, a, b)
        && Precedes(cmp, s, b, c)
    ensures Precedes(cmp, s, a, c)
  {
    if a != Head { Transitive(cmp, s.nodes[a].key, s.nodes[b].key, s.nodes[c].key); }
  }

  /** Two nodes with different keys are in order one way or the other. */
  lemma Comparable<K(!new)>(cmp: Comparator<K>, s: State<K>, a: nat, b: nat)
    requires TotalOrder(cmp) && a < |s.nodes| && b < |s.nodes| && a != Head && b != Head
        && s.nodes[a].key != s.nodes[b].key
    ensures Precedes(cmp, s, a, b) || Precedes(cmp, s, b, a)
    ensures !(Precedes(cmp, s, a, b) && Precedes(cmp, s, b, a))
  {
    Laws(cmp);
  }

  /** Everything beyond p is beyond the place of a key that p is the last before. */
  lemma BeyondPrev<K(!new)>(cmp: Comparator<K>, s: State<K>, level: nat, p: nat, x: nat, m: nat)
    requires TotalOrder(cmp) && level < |s.linked| && LevelOk(cmp, s, level) && 0 < x < |s.nodes|
    requires IsNode(s, p, level) && IsPrev(cmp, s, p, s.nodes[x].key, level)
    requires m in s.linked[level] && Precedes(cmp, s, p, m)
    ensures Precedes(cmp, s, x, m)
  {
    assert PointsOn(cmp, s, s.linked[level], p, level);
    var next := s.nodes[p].next[level];
    assert Precedes(cmp, s, x, next.value);
    if m != next.value { PrecedesTrans(cmp, s, x, next.value, m); }
  }

  lemma NotBoth<K(!new)>(cmp: Comparator<K>, s: State<K>, a: nat, b: nat)
    requires TotalOrder(cmp) && a < |s.nodes| && b < |s.nodes| && a != Head && Precedes(cmp, s, a, b)
    ensures !Precedes(cmp, s, b, a)
  {
    Laws(cmp);
  }

  /** Linked nodes before x, other than p, are before p. */
  lemma BeforePrev<K(!new)>(cmp: Comparator<K>, s: State<K>, level: nat, p: nat, x: nat, n: nat)
    requires TotalOrder(cmp) && level < |s.linked| && LevelOk(cmp, s, level) && 0 < x < |s.nodes|
    requires IsNode(s, p, level) && IsPrev(cmp, s, p, s.nodes[x].key, level)
    requires forall a, b :: a in s.linked[level] && b in s.linked[level] && s.nodes[a].key == s.nodes[b].key ==> a == b
    requires (n == Head || n in s.linked[level]) && n != p && n < |s.nodes| && Precedes(cmp, s, n, x)
    ensures p != Head && Precedes(cmp, s, n, p)
  {
    if n != Head && Precedes(cmp, s, p, n) {
      BeyondPrev(cmp, s, level, p, x, n);
      NotBoth(cmp, s, n, x);
    }
    if n != Head && p != Head { Comparable(cmp, s, n, p); }
  }

  /** No linked node has the key of a node about to be linked. */
  lemma NewKey<K(!new)>(cmp: Comparator<K>, s: State<K>, level: nat, p: nat, x: nat, m: nat)
    requires TotalOrder(cmp) && level < |s.linked| && LevelOk(cmp, s, level) && 0 < x < |s.nodes|
    requires IsNode(s, p, level) && IsPrev(cmp, s, p, s.nodes[x].key, level)
    requires forall a, b :: a in s.linked[level] && b in s.linked[level] && s.nodes[a].key == s.nodes[b].key ==> a == b
    requires m in s.linked[level]
    ensures s.nodes[m].key != s.nodes[x].key
  {
    Laws(cmp);
    if p == Head || Precedes(cmp, s, p, m) {
      BeyondPrev(cmp, s, level, p, x, m);
    } else if m != p {
      Comparable(cmp, s, m, p);
      Transitive(cmp, s.nodes[m].key, s.nodes[p].key, s.nodes[x].key);
    }
  }

  // ------------------------------------------------------------- what the writer keeps

  /** The nodes of s are still there in s', with their keys and heights. */
  ghost predicate SameNodes<K(!new)>(s: State<K>, s': State<K>) {
    && |s.nodes| <= |s'.nodes|
    && forall n :: 0 <= n < |s.nodes| ==> s'.nodes[n].key == s.nodes[n].key && |s'.nodes[n].next| == |s.nodes[n].next|
  }

  lemma PointsOnSame<K(!new)>(cmp: Comparator<K>, s: State<K>, s': State<K>, linked: set<nat>, n: nat, level: nat)
    requires SameNodes(s, s') && IsNode(s, n, level) && (forall m :: m in linked ==> m < |s.nodes|)
    requires s'.nodes[n].next[level] == s.nodes[n].next[level]
    requires PointsOn(cmp, s, linked, n, level)
    ensures PointsOn(cmp, s', linked, n, level)
  {
    forall m | m in linked ensures Precedes(cmp, s', n, m) == Precedes(cmp, s, n, m) { }
    var next := s.nodes[n].next[level];
    if next.Some? {
      forall m | m in linked ensures Precedes(cmp, s', next.value, m) == Precedes(cmp, s, next.value, m) { }
    }
  }

  /** A level whose nodes and pointers have not changed is still in order. */
  lemma LevelSame<K(!new)>(cmp: Comparator<K>, s: State<K>, s': State<K>, level: nat)
    requires level < |s.linked| && level < |s'.linked| && s'.linked[level] == s.linked[level] && LevelOk(cmp, s, level)
        && SameNodes(s, s')
    requires forall n :: (n == Head || n in s.linked[level]) ==>
        n < |s.nodes| && level < |s.nodes[n].next| && s'.nodes[n].next[level] == s.nodes[n].next[level]
    ensures LevelOk(cmp, s', level)
  {
    PointsOnSame(cmp, s, s', s.linked[level], Head, level);
    forall m | m in s.linked[level] ensures PointsOn(cmp, s', s'.linked[level], m, level) {
      PointsOnSame(cmp, s, s', s.linked[level], m, level);
    }
  }

  lemma IsPrevSame<K(!new)>(cmp: Comparator<K>, s: State<K>, s': State<K>, p: nat, key: K, level: nat)
    requires level < |s.linked| && level < |s'.linked| && s'.linked[level] == s.linked[level] && SameNodes(s, s')
    requires IsNode(s, p, level) && IsPrev(cmp, s, p, key, level) && s'.nodes[p].next[level] == s.nodes[p].next[level]
    ensures IsNode(s', p, level) && IsPrev(cmp, s', p, key, level)
  {
  }

  /** Once x is linked after p, p and x point on as they should. */
  lemma LinkedPointsOn<K(!new)>(cmp: Comparator<K>, s: State<K>, s': State<K>, level: nat, p: nat, x: nat, n: nat)
    requires TotalOrder(cmp) && level < |s.linked| && LevelOk(cmp, s, level) && SameNodes(s, s')
        && x !in s.linked[level]
    requires 0 < x < |s.nodes| && IsNode(s, p, level) && IsNode(s, x, level) && IsPrev(cmp, s, p, s.nodes[x].key, level)
    requires forall a, b :: a in s.linked[level] && b in s.linked[level] && s.nodes[a].key == s.nodes[b].key ==> a == b
    requires s.nodes[x].next[level] == s.nodes[p].next[level]
    requires s'.nodes[p].next[level] == Some(x)
    requires forall m :: 0 <= m < |s.nodes| && m != p && level < |s.nodes[m].next| ==>
        s'.nodes[m].next[level] == s.nodes[m].next[level]
    requires n == Head || n in s.linked[level] || n == x
    ensures IsNode(s', n, level) && PointsOn(cmp, s', s.linked[level] + {x}, n, level)
  {
    var L, L' := s.linked[level], s.linked[level] + {x};
    assert IsNode(s', n, level);
    assert p != x;
    if n == p {
      forall m | m in L' && Precedes(cmp, s', p, m) ensures m == x || Precedes(cmp, s', x, m) {
        if m != x { BeyondPrev(cmp, s, level, p, x, m); }
      }
    } else if n == x {
      XPointsOn(cmp, s, s', level, p, x);
    } else {
      OtherPointsOn(cmp, s, s', level, p, x, n);
    }
  }

  lemma XPointsOn<K(!new)>(cmp: Comparator<K>, s: State<K>, s': State<K>, level: nat, p: nat, x: nat)
    requires TotalOrder(cmp) && level < |s.linked| && LevelOk(cmp, s, level) && SameNodes(s, s')
        && x !in s.linked[level]
    requires 0 < x < |s.nodes| && IsNode(s, p, level) && IsNode(s, x, level) && IsPrev(cmp, s, p, s.nodes[x].key, level)
    requires s'.nodes[x].next[level] == s.nodes[p].next[level]
    ensures PointsOn(cmp, s', s.linked[level] + {x}, x, level)
  {
    Laws(cmp);
    assert PointsOn(cmp, s, s.linked[level], p, level);
    forall m | m in s.linked[level] + {x} && Precedes(cmp, s', x, m)
      ensures m in s.linked[level] && Precedes(cmp, s, p, m)
    {
      assert Precedes(cmp, s, x, m);
      if p != Head { PrecedesTrans(cmp, s, p, x, m); }
    }
  }

  lemma OtherPointsOn<K(!new)>(cmp: Comparator<K>, s: State<K>, s': State<K>, level: nat, p: nat, x: nat, n: nat)
    requires TotalOrder(cmp) && level < |s.linked| && LevelOk(cmp, s, level) && SameNodes(s, s')
        && x !in s.linked[level]
    requires 0 < x < |s.nodes| && IsNode(s, p, level) && IsPrev(cmp, s, p, s.nodes[x].key, level)
    requires forall a, b :: a in s.linked[level] && b in s.linked[level] && s.nodes[a].key == s.nodes[b].key ==> a == b
    requires (n == Head || n in s.linked[level]) && n != p && IsNode(s, n, level)
        && s'.nodes[n].next[level] == s.nodes[n].next[level]
    ensures PointsOn(cmp, s', s.linked[level] + {x}, n, level)
  {
    var L := s.linked[level];
    PointsOnSame(cmp, s, s', L, n, level);
    if Precedes(cmp, s, n, x) {
      BeforePrev(cmp, s, level, p, x, n);
      var next := s.nodes[n].next[level];
      assert PointsOn(cmp, s, L, n, level);
      assert p in L;
      assert next.Some?;
      assert Precedes(cmp, s, p, x);
      if next.value != p { PrecedesTrans(cmp, s, next.value, p, x); }
    }
  }

  lemma LinkedAreNodes<K(!new)>(cmp: Comparator<K>, s: State<K>, level: nat)
    requires LevelsOk(cmp, s) && level < MaxHeight
    ensures LevelOk(cmp, s, level) && forall m :: m in s.linked[level] ==> 0 < m < |s.nodes|
  {
  }

  lemma PublishLevel<K(!new)>(cmp: Comparator<K>, s: State<K>)
    requires TotalOrder(cmp) && LevelsOk(cmp, s) && WriterOk(cmp, s) && CanPublish(s)
    ensures LevelOk(cmp, Publish(s), s.writer.level)
  {
    var w, s' := s.writer, Publish(s);
    var p, x, level := w.prev[w.level], w.x, w.level;
    assert IsPrev(cmp, s, p, s.nodes[x].key, level);
    SubsetOfBottom(cmp, s, level);
    LinkedAreNodes(cmp, s, level);
    forall n | n == Head || n in s.linked[level] || n == x
      ensures IsNode(s', n, level) && (forall m :: m in s'.linked[level] ==> m < |s'.nodes|)
          && PointsOn(cmp, s', s'.linked[level], n, level) {
      LinkedPointsOn(cmp, s, s', level, p, x, n);
    }
  }

  lemma {:induction false} SubsetOfBottom<K(!new)>(cmp: Comparator<K>, s: State<K>, level: nat)
    requires LevelsOk(cmp, s) && level < MaxHeight
    ensures s.linked[level] <= s.linked[0]
  {
    if level > 0 { SubsetOfBottom(cmp, s, level - 1); }
  }

  lemma PublishLevels<K(!new)>(cmp: Comparator<K>, s: State<K>)
    requires TotalOrder(cmp) && LevelsOk(cmp, s) && WriterOk(cmp, s) && CanPublish(s)
    ensures LevelsOk(cmp, Publish(s))
  {
    hide PointsOn;
    var w, s' := s.writer, Publish(s);
    PublishLevel(cmp, s);
    forall l | 0 <= l < MaxHeight ensures LevelOk(cmp, s', l) {
      if l != w.level { LevelSame(cmp, s, s', l); }
    }
    forall m | m in s.linked[w.level] ensures s.nodes[m].key != s.nodes[w.x].key {
      SubsetOfBottom(cmp, s, w.level);
      assert IsPrev(cmp, s, w.prev[w.level], s.nodes[w.x].key, w.level);
      NewKey(cmp, s, w.level, w.prev[w.level], w.x, m);
    }
  }

  lemma PublishWriter<K(!new)>(cmp: Comparator<K>, s: State<K>)
    requires TotalOrder(cmp) && LevelsOk(cmp, s) && WriterOk(cmp, s) && CanPublish(s)
    ensures WriterOk(cmp, Publish(s))
  {
    var w, s' := s.writer, Publish(s);
    if w.level + 1 < |w.prev| {
      forall l | w.level + 1 <= l < |w.prev|
        ensures IsNode(s', w.prev[l], l) && IsPrev(cmp, s', w.prev[l], s'.nodes[w.x].key, l)
      {
        assert IsPrev(cmp, s, w.prev[l], s.nodes[w.x].key, l);
        IsPrevSame(cmp, s, s', w.prev[l], s.nodes[w.x].key, l);
      }
    }
  }

  lemma PrepareKeeps<K(!new)>(cmp: Comparator<K>, s: State<K>)
    requires TotalOrder(cmp) && LevelsOk(cmp, s) && WriterOk(cmp, s) && CanPrepare(s)
    ensures LevelsOk(cmp, Prepare(s)) && WriterOk(cmp, Prepare(s))
  {
    var w, s' := s.writer, Prepare(s);
    forall l | 0 <= l < MaxHeight ensures LevelOk(cmp, s', l) { LevelSame(cmp, s, s', l); }
    forall l | w.level <= l < |w.prev|
      ensures IsNode(s', w.prev[l], l) && IsPrev(cmp, s', w.prev[l], s'.nodes[w.x].key, l)
    {
      assert IsPrev(cmp, s, w.prev[l], s.nodes[w.x].key, l);
      assert w.prev[l] != w.x;
      IsPrevSame(cmp, s, s', w.prev[l], s.nodes[w.x].key, l);
    }
  }

  lemma BeginInsertKeeps<K(!new)>(cmp: Comparator<K>, s: State<K>, key: K, prev: seq<nat>)
    requires TotalOrder(cmp) && LevelsOk(cmp, s) && s.writer == Idle && 0 < |prev| && PrevsOk(cmp, s, key, prev)
    ensures LevelsOk(cmp, BeginInsert(s, key, prev)) && WriterOk(cmp, BeginInsert(s, key, prev))
  {
    var s' := BeginInsert(s, key, prev);
    forall l | 0 <= l < MaxHeight ensures LevelOk(cmp, s', l) && |s.nodes| !in s'.linked[l] {
      LinkedAreNodes(cmp, s, l);
      LevelSame(cmp, s, s', l);
    }
    LinkedAreNodes(cmp, s, 0);
    forall l | 0 <= l < |prev| ensures IsNode(s', prev[l], l) && IsPrev(cmp, s', prev[l], key, l) {
      IsPrevSame(cmp, s, s', prev[l], key, l);
    }
  }

  // ------------------------------------------------------------- what the readers keep

  /** Links are only ever added. */
  ghost predicate OnlyAdds<K(!new)>(s: State<K>, s': State<K>) {
    SameNodes(s, s') && |s.linked| == |s'.linked| == MaxHeight && forall l :: 0 <= l < MaxHeight ==>
        s.linked[l] <= s'.linked[l]
  }

  lemma ReaderSame<K(!new)>(cmp: Comparator<K>, s: State<K>, s': State<K>, r: Reader<K>)
    requires LevelsOk(cmp, s) && OnlyAdds(s, s') && ReaderOk(cmp, s, r)
    ensures ReaderOk(cmp, s', r)
  {
    LinkedAreNodes(cmp, s, 0);
    match r
    case Searching(goal, x, level, began) =>
    case Done(goal, result, began) =>
      forall n | n in began ensures s'.nodes[n].key == s.nodes[n].key { }
  }

  /** A search is never stuck: the node it stands at has the pointer it is about to load. */
  lemma CanAlwaysSearch<K(!new)>(cmp: Comparator<K>, s: State<K>, r: Reader<K>)
    requires LevelsOk(cmp, s) && ReaderOk(cmp, s, r) && r.Searching?
    ensures IsNode(s, r.x, r.level)
    ensures match s.nodes[r.x].next[r.level]
            case None => true
            case Some(next) => next < |s.nodes| && next in s.linked[r.level]
    ensures (forall m :: m in s.linked[r.level] ==> m < |s.nodes|) && PointsOn(cmp, s, s.linked[r.level], r.x, r.level)
  {
    LinkedAreNodes(cmp, s, r.level);
  }

  lemma TurnOk<K(!new)>(cmp: Comparator<K>, s: State<K>, r: Reader<K>)
    requires TotalOrder(cmp) && LevelsOk(cmp, s) && ReaderOk(cmp, s, r) && r.Searching?
    requires IsNode(s, r.x, r.level) && (s.nodes[r.x].next[r.level].Some? ==>
        s.nodes[r.x].next[r.level].value < |s.nodes|)
    ensures ReaderOk(cmp, s, Turn(cmp, s, r))
  {
    CanAlwaysSearch(cmp, s, r);
    var next := s.nodes[r.x].next[r.level];
    if !(next.Some? && GoalPassed(cmp, s, r.goal, next.value)) && r.level == 0 {
      FinishOk(cmp, s, r);
    }
  }

  /** At the bottom, where the search cannot go on, it has what it was looking for. */
  lemma FinishOk<K(!new)>(cmp: Comparator<K>, s: State<K>, r: Reader<K>)
    requires TotalOrder(cmp) && LevelsOk(cmp, s) && ReaderOk(cmp, s, r) && r.Searching? && r.level == 0
    requires IsNode(s, r.x, 0) && (s.nodes[r.x].next[0].Some? ==> s.nodes[r.x].next[0].value < |s.nodes|)
    requires s.nodes[r.x].next[0].Some? ==> !GoalPassed(cmp, s, r.goal, s.nodes[r.x].next[0].value)
    ensures ResultOk(cmp, s, r.goal, if r.goal.AtOrAfter? then s.nodes[r.x].next[0] else if r.x == Head then None
        else Some(r.x), r.began)
  {
    CanAlwaysSearch(cmp, s, r);
    LinkedAreNodes(cmp, s, 0);
    var next, x := s.nodes[r.x].next[0], r.x;
    Laws(cmp);
    forall n | n in r.began ensures n in s.linked[0] && 0 < n < |s.nodes| { }
    match r.goal
    case AtOrAfter(target) =>
      forall n | n in r.began && cmp(s.nodes[n].key, target) >= 0
        ensures next.Some? && cmp(s.nodes[next.value].key, s.nodes[n].key) <= 0
      {
        if x != Head { Transitive(cmp, s.nodes[x].key, target, s.nodes[n].key); }
        assert Precedes(cmp, s, x, n);
      }
    case Before(target) =>
      forall n | n in r.began && cmp(s.nodes[n].key, target) < 0
        ensures x != Head && cmp(s.nodes[n].key, s.nodes[x].key) <= 0
      {
        if Precedes(cmp, s, x, n) && n != next.value {
          Transitive(cmp, s.nodes[next.value].key, s.nodes[n].key, target);
        }
      }
    case Last =>
      forall n | n in r.began ensures x != Head && cmp(s.nodes[n].key, s.nodes[x].key) <= 0 {
        assert !Precedes(cmp, s, x, n);
      }
  }

  // -------------------------------------------------------------------- every run

  lemma InitOk<K(!new)>(cmp: Comparator<K>, s: State<K>)
    requires Init(s)
    ensures Invariant(cmp, s)
  {
  }

  lemma WriterStepOk<K(!new)>(cmp: Comparator<K>, s: State<K>, s': State<K>)
    requires TotalOrder(cmp) && Invariant(cmp, s) && LevelsOk(cmp, s') && WriterOk(cmp, s') && OnlyAdds(s, s')
        && s'.readers == s.readers
    ensures Invariant(cmp, s')
  {
    forall id | id in s'.readers ensures ReaderOk(cmp, s', s'.readers[id]) { ReaderSame(cmp, s, s', s.readers[id]); }
  }

  lemma ReaderStepOk<K(!new)>(cmp: Comparator<K>, s: State<K>, id: nat, r: Reader<K>)
    requires Invariant(cmp, s) && ReaderOk(cmp, s, r)
    ensures Invariant(cmp, s.(readers := s.readers[id := r]))
  {
    var s' := s.(readers := s.readers[id := r]);
    assert LevelsOk(cmp, s') by { SameLevels(cmp, s, s'); }
    assert WriterOk(cmp, s') by { SameWriter(cmp, s, s'); }
    forall i | i in s'.readers ensures ReaderOk(cmp, s', s'.readers[i]) {
      ReaderSame(cmp, s, s', if i == id then r else s.readers[i]);
    }
  }

  lemma SameLevels<K(!new)>(cmp: Comparator<K>, s: State<K>, s': State<K>)
    requires LevelsOk(cmp, s) && s' == s.(readers := s'.readers)
    ensures LevelsOk(cmp, s')
  {
    forall l | 0 <= l < MaxHeight ensures LevelOk(cmp, s', l) { LevelSame(cmp, s, s', l); }
  }

  lemma SameWriter<K(!new)>(cmp: Comparator<K>, s: State<K>, s': State<K>)
    requires LevelsOk(cmp, s) && WriterOk(cmp, s) && s' == s.(readers := s'.readers)
    ensures WriterOk(cmp, s')
  {
    if s.writer.Linking? {
      var w := s.writer;
      forall l | w.level <= l < |w.prev| ensures IsPrev(cmp, s', w.prev[l], s'.nodes[w.x].key, l) {
        IsPrevSame(cmp, s, s', w.prev[l], s.nodes[w.x].key, l);
      }
    }
  }

  ghost predicate WriterStep<K(!new)>(cmp: Comparator<K>, s: State<K>, s': State<K>) {
    || (exists key, prev ::
        |s.linked| == MaxHeight && s.writer == Idle && 0 < |prev| && PrevsOk(cmp, s, key, prev)
        && s' == BeginInsert(s, key, prev))
    || (CanPrepare(s) && s' == Prepare(s))
    || (CanPublish(s) && s' == Publish(s))
  }

  ghost predicate SearchStep<K(!new)>(cmp: Comparator<K>, s: State<K>, s': State<K>, id: nat) {
    || (exists goal :: |s.linked| > 0 && s.maxHeight > 0 && s' == BeginSearch(s, id, goal))
    || (CanSearch(s, id) && s' == SearchTurn(cmp, s, id))
  }

  /** Any one step of the writer or of a reader. */
  ghost predicate Next<K(!new)>(cmp: Comparator<K>, s: State<K>, s': State<K>) {
    WriterStep(cmp, s, s') || exists id :: SearchStep(cmp, s, s', id)
  }

  lemma WriterStepKeeps<K(!new)>(cmp: Comparator<K>, s: State<K>, s': State<K>)
    requires TotalOrder(cmp) && Invariant(cmp, s) && WriterStep(cmp, s, s')
    ensures Invariant(cmp, s') && OnlyAdds(s, s') && s'.readers == s.readers
  {
    if key, prev :| s.writer == Idle && 0 < |prev| && PrevsOk(cmp, s, key, prev) && s' == BeginInsert(s, key, prev) {
      BeginInsertKeeps(cmp, s, key, prev);
    } else if CanPrepare(s) && s' == Prepare(s) {
      PrepareKeeps(cmp, s);
    } else {
      PublishLevels(cmp, s);
      PublishWriter(cmp, s);
    }
    WriterStepOk(cmp, s, s');
  }

  lemma SearchStepKeeps<K(!new)>(cmp: Comparator<K>, s: State<K>, s': State<K>, id: nat)
    requires TotalOrder(cmp) && Invariant(cmp, s) && SearchStep(cmp, s, s', id)
    ensures Invariant(cmp, s') && OnlyAdds(s, s')
  {
    if CanSearch(s, id) && s' == SearchTurn(cmp, s, id) {
      TurnOk(cmp, s, s.readers[id]);
      ReaderStepOk(cmp, s, id, Turn(cmp, s, s.readers[id]));
    } else {
      var goal :| s' == BeginSearch(s, id, goal);
      ReaderStepOk(cmp, s, id, Searching(goal, Head, s.maxHeight - 1, s.linked[0]));
    }
  }

  /** Every step of the writer or of any reader keeps the invariant. */
  lemma StepOk<K(!new)>(cmp: Comparator<K>, s: State<K>, s': State<K>)
    requires TotalOrder(cmp) && Invariant(cmp, s) && Next(cmp, s, s')
    ensures Invariant(cmp, s') && OnlyAdds(s, s')
  {
    hide Invariant;
    hide OnlyAdds;
    hide WriterStep;
    hide SearchStep;
    if WriterStep(cmp, s, s') {
      WriterStepKeeps(cmp, s, s');
    } else {
      var id :| SearchStep(cmp, s, s', id);
      SearchStepKeeps(cmp, s, s', id);
    }
  }

  ghost predicate Run<K(!new)>(cmp: Comparator<K>, run: seq<State<K>>) {
    && run != [] && Init(run[0])
    && forall i :: 0 <= i < |run| - 1 ==> Next(cmp, run[i], run[i + 1])
  }

  lemma OnlyAddsTrans<K(!new)>(a: State<K>, b: State<K>, c: State<K>)
    requires OnlyAdds(a, b) && OnlyAdds(b, c)
    ensures OnlyAdds(a, c)
  {
  }

  lemma OnlyAddsSelf<K(!new)>(cmp: Comparator<K>, s: State<K>)
    requires Invariant(cmp, s)
    ensures OnlyAdds(s, s)
  {
  }

  /** In every run the invariant holds throughout, and what is linked stays linked. */
  lemma {:induction false} RunOk<K(!new)>(cmp: Comparator<K>, run: seq<State<K>>, i: nat, j: nat)
    requires TotalOrder(cmp) && Run(cmp, run) && i <= j < |run|
    ensures Invariant(cmp, run[i]) && Invariant(cmp, run[j]) && OnlyAdds(run[i], run[j])
  {
    hide Invariant;
    hide OnlyAdds;
    hide Next;
    hide Init;
    hide TotalOrder;
    if i < j {
      RunOk(cmp, run, i, j - 1);
      StepOk(cmp, run[j - 1], run[j]);
      OnlyAddsTrans(run[i], run[j - 1], run[j]);
    } else {
      if i > 0 {
        RunOk(cmp, run, i - 1, i - 1);
        StepOk(cmp, run[i - 1], run[i]);
      } else {
        InitOk(cmp, run[0]);
      }
      OnlyAddsSelf(cmp, run[i]);
    }
  }

  /** Reader id's search started at step i and has not been restarted before step j. */
  ghost predicate Began<K(!new)>(run: seq<State<K>>, i: nat, j: nat, id: nat, goal: Goal<K>) {
    && i < j < |run| && |run[i].linked| > 0 && run[i].maxHeight > 0 && run[i + 1] == BeginSearch(run[i], id, goal)
    && forall k :: i < k < j ==> id in run[k].readers ==> !Restarts(run[k], run[k + 1], id)
  }

  ghost predicate Restarts<K(!new)>(s: State<K>, s': State<K>, id: nat) {
    exists goal :: |s.linked| > 0 && s.maxHeight > 0 && s' == BeginSearch(s, id, goal)
  }

  lemma StepKeepsSearch<K(!new)>(cmp: Comparator<K>, s: State<K>, s': State<K>, id: nat)
    requires TotalOrder(cmp) && Invariant(cmp, s) && Next(cmp, s, s') && id in s.readers && !Restarts(s, s', id)
    ensures id in s'.readers && s'.readers[id].goal == s.readers[id].goal && s'.readers[id].began == s.readers[id].began
  {
    hide Invariant;
    if WriterStep(cmp, s, s') {
      hide WriterStep;
      WriterStepKeeps(cmp, s, s');
    } else {
      var other :| SearchStep(cmp, s, s', other);
    }
  }

  lemma {:induction false} SameSearch<K(!new)>(cmp: Comparator<K>, run: seq<State<K>>, i: nat, j: nat, id: nat,
                                               goal: Goal<K>)
    requires TotalOrder(cmp) && Run(cmp, run) && Began(run, i, j, id, goal)
    ensures id in run[j].readers && run[j].readers[id].goal == goal && run[j].readers[id].began == run[i].linked[0]
    decreases j
  {
    hide Invariant;
    hide OnlyAdds;
    hide Next;
    hide Init;
    hide TotalOrder;
    hide Restarts;
    if j > i + 1 {
      SameSearch(cmp, run, i, j - 1, id, goal);
      RunOk(cmp, run, j - 1, j - 1);
      StepKeepsSearch(cmp, run[j - 1], run[j], id);
    }
  }

  /** A search that began at step i and is done at step j has, for a target, the least key at or after
      it (or the greatest before it, or the greatest of all) among all keys linked before it began and
      possibly some linked since. */
  lemma SearchIsRight<K(!new)>(cmp: Comparator<K>, run: seq<State<K>>, i: nat, j: nat, id: nat, goal: Goal<K>)
    requires TotalOrder(cmp) && Run(cmp, run) && Began(run, i, j, id, goal)
    requires id in run[j].readers && run[j].readers[id].Done?
    ensures |run[j].linked| == MaxHeight && run[i].linked[0] <= run[j].linked[0]
    ensures ResultOk(cmp, run[j], goal, run[j].readers[id].result, run[i].linked[0])
  {
    SameSearch(cmp, run, i, j, id, goal);
    RunOk(cmp, run, i, j);
    assert ReaderOk(cmp, run[j], run[j].readers[id]);
  }

  /** What the last load of a search finds is the answer at that instant: exact among the keys linked then. */
  lemma LastTurnIsExact<K(!new)>(cmp: Comparator<K>, s: State<K>, r: Reader<K>)
    requires TotalOrder(cmp) && Invariant(cmp, s) && r.Searching? && ReaderOk(cmp, s, r)
    requires IsNode(s, r.x, r.level) && (s.nodes[r.x].next[r.level].Some? ==>
        s.nodes[r.x].next[r.level].value < |s.nodes|)
    requires Turn(cmp, s, r).Done?
    ensures ResultOk(cmp, s, r.goal, Turn(cmp, s, r).result, s.linked[0])
  {
    var now := Searching(r.goal, r.x, r.level, s.linked[0]);
    FinishOk(cmp, s, now);
  }

  /** A step leaves a finished search alone, or it is the last turn of it, or it starts it anew. */
  lemma StepFinishes<K(!new)>(cmp: Comparator<K>, s: State<K>, s': State<K>, id: nat)
    requires TotalOrder(cmp) && Invariant(cmp, s) && Next(cmp, s, s') && id in s.readers && !Restarts(s, s', id)
    requires id in s'.readers && s'.readers[id].Done?
    ensures s.readers[id] == s'.readers[id] || ResultOk(cmp, s, s'.readers[id].goal, s'.readers[id].result, s.linked[0])
  {
    hide Invariant;
    if WriterStep(cmp, s, s') {
      hide WriterStep;
      WriterStepKeeps(cmp, s, s');
    } else {
      var other :| SearchStep(cmp, s, s', other);
      if other == id && CanSearch(s, id) && s' == SearchTurn(cmp, s, id) {
        ReaderIsOk(cmp, s, id);
        LastTurnIsExact(cmp, s, s.readers[id]);
      }
    }
  }

  lemma ReaderIsOk<K(!new)>(cmp: Comparator<K>, s: State<K>, id: nat)
    requires Invariant(cmp, s) && id in s.readers
    ensures |s.linked| == MaxHeight && ReaderOk(cmp, s, s.readers[id])
  {
  }

  /** Searches are atomic: whatever the writer does meanwhile, at some step between the search's first and its last
      the result is exactly the least key at or after the target (or the greatest before it, or the greatest of all)
      among the keys linked at that step. */
  lemma {:induction false} SearchIsAtomic<K(!new)>(cmp: Comparator<K>, run: seq<State<K>>, i: nat, j: nat, id: nat,
                                                   goal: Goal<K>) returns (k: nat)
    requires TotalOrder(cmp) && Run(cmp, run) && Began(run, i, j, id, goal)
    requires id in run[j].readers && run[j].readers[id].Done?
    ensures i < k < j && |run[k].linked| == |run[i].linked| == |run[j].linked| == MaxHeight
    ensures run[i].linked[0] <= run[k].linked[0] <= run[j].linked[0]
    ensures ResultOk(cmp, run[k], goal, run[j].readers[id].result, run[k].linked[0])
    decreases j
  {
    hide Invariant;
    hide Next;
    hide Init;
    hide TotalOrder;
    hide Restarts;
    hide ResultOk;
    hide SameNodes;
    RunOk(cmp, run, i, j - 1);
    RunOk(cmp, run, j - 1, j);
    SameSearch(cmp, run, i, j, id, goal);
    if j > i + 1 {
      SameSearch(cmp, run, i, j - 1, id, goal);
      StepFinishes(cmp, run[j - 1], run[j], id);
      if run[j - 1].readers[id] == run[j].readers[id] {
        k := SearchIsAtomic(cmp, run, i, j - 1, id, goal);
      } else {
        k := j - 1;
      }
    }
  }

  // ------------------------------------------------------- linked means reachable

  /** The node after k links of a level, if there are that many. */
  function Walk<K>(s: State<K>, level: nat, k: nat): Option<nat> {
    if k == 0 then Some(Head)
    else
      match Walk(s, level, k - 1)
      case None => None
      case Some(n) => if n < |s.nodes| && level < |s.nodes[n].next| then s.nodes[n].next[level] else None
  }

  lemma {:induction false} GreatestOf<K(!new)>(cmp: Comparator<K>, s: State<K>, S: set<nat>) returns (p: nat)
    requires TotalOrder(cmp) && S != {} && forall n :: n in S ==> 0 < n < |s.nodes|
    requires forall a, b :: a in S && b in S && s.nodes[a].key == s.nodes[b].key ==> a == b
    ensures p in S && forall n :: n in S ==> n == p || Precedes(cmp, s, n, p)
    decreases |S|
  {
    p :| p in S;
    if S != {p} {
      var q := GreatestOf(cmp, s, S - {p});
      Comparable(cmp, s, p, q);
      if Precedes(cmp, s, q, p) {
        forall n | n in S ensures n == p || Precedes(cmp, s, n, p) {
          if n != p && n != q { PrecedesTrans(cmp, s, n, q, p); }
        }
      } else {
        p := q;
      }
    }
  }

  ghost function LinkedBefore<K(!new)>(cmp: Comparator<K>, s: State<K>, level: nat, m: nat): set<nat>
    requires level < |s.linked|
  {
    set n | n in s.linked[level] && n < |s.nodes| && m < |s.nodes| && Precedes(cmp, s, n, m)
  }

  lemma PredecessorOf<K(!new)>(cmp: Comparator<K>, s: State<K>, level: nat, m: nat) returns (p: nat)
    requires TotalOrder(cmp) && LevelsOk(cmp, s) && level < MaxHeight && m in s.linked[level]
        && LinkedBefore(cmp, s, level, m) != {}
    ensures p in s.linked[level] && p < |s.nodes| && level < |s.nodes[p].next| && s.nodes[p].next[level] == Some(m)
    ensures |LinkedBefore(cmp, s, level, p)| < |LinkedBefore(cmp, s, level, m)|
  {
    LinkedAreNodes(cmp, s, level);
    SubsetOfBottom(cmp, s, level);
    var before := LinkedBefore(cmp, s, level, m);
    p := GreatestOf(cmp, s, before);
    var less := LinkedBefore(cmp, s, level, p);
    forall n | n in less ensures n in before - {p} {
      PrecedesTrans(cmp, s, n, p, m);
      NotBoth(cmp, s, n, p);
    }
    SmallerSet(less, before, p);
    NextIs(cmp, s, level, p, m, before);
  }

  /** Following a level's pointers from the head meets every node linked in it. */
  lemma {:induction false} LinkedIsReached<K(!new)>(cmp: Comparator<K>, s: State<K>, level: nat, m: nat)
      returns (k: nat)
    requires TotalOrder(cmp) && LevelsOk(cmp, s) && level < MaxHeight && m in s.linked[level]
    ensures k > 0 && Walk(s, level, k) == Some(m)
    decreases |LinkedBefore(cmp, s, level, m)|
  {
    hide LevelOk;
    if LinkedBefore(cmp, s, level, m) == {} {
      FirstIs(cmp, s, level, m);
      k := 1;
    } else {
      var p := PredecessorOf(cmp, s, level, m);
      var j := LinkedIsReached(cmp, s, level, p);
      k := j + 1;
    }
  }

  lemma FirstIs<K(!new)>(cmp: Comparator<K>, s: State<K>, level: nat, m: nat)
    requires LevelsOk(cmp, s) && level < MaxHeight && m in s.linked[level] && LinkedBefore(cmp, s, level, m) == {}
    ensures Walk(s, level, 1) == Some(m)
  {
    LinkedAreNodes(cmp, s, level);
    forall n | n in s.linked[level] ensures !Precedes(cmp, s, n, m) {
      assert n !in LinkedBefore(cmp, s, level, m);
    }
    assert PointsOn(cmp, s, s.linked[level], Head, level);
    assert Walk(s, level, 0) == Some(Head);
  }

  lemma NextIs<K(!new)>(cmp: Comparator<K>, s: State<K>, level: nat, p: nat, m: nat, before: set<nat>)
    requires TotalOrder(cmp) && LevelsOk(cmp, s) && level < MaxHeight && m in s.linked[level] && p in s.linked[level]
    requires p < |s.nodes| && m < |s.nodes| && Precedes(cmp, s, p, m)
    requires before == set n | n in s.linked[level] && n < |s.nodes| && m < |s.nodes| && Precedes(cmp, s, n, m)
    requires forall n :: n in before ==> n == p || Precedes(cmp, s, n, p)
    ensures level < |s.nodes[p].next| && s.nodes[p].next[level] == Some(m)
  {
    LinkedAreNodes(cmp, s, level);
    assert PointsOn(cmp, s, s.linked[level], p, level);
    var next := s.nodes[p].next[level];
    if next.Some? && next.value != m {
      assert next.value in before;
      NotBoth(cmp, s, p, next.value);
    }
  }

  lemma SmallerSet<T>(a: set<T>, b: set<T>, x: T)
    requires x in b && forall y :: y in a ==> y in b - {x}
    ensures |a| < |b|
  {
    assert a <= b - {x};
    SubsetSize(a, b - {x});
  }

  lemma {:induction false} SubsetSize<T>(a: set<T>, b: set<T>)
    requires a <= b
    ensures |a| <= |b|
  {
    if a != {} {
      var x :| x in a;
      SubsetSize(a - {x}, b - {x});
    }
  }

  /** No step is ever taken from a missing node: a writer at work and a search under way can always go on. */
  lemma NeverStuck<K(!new)>(cmp: Comparator<K>, s: State<K>)
    requires Invariant(cmp, s)
    ensures s.writer.Linking? ==> CanPrepare(s) || CanPublish(s)
    ensures forall id :: id in s.readers && s.readers[id].Searching? ==> CanSearch(s, id)
  {
    forall id | id in s.readers && s.readers[id].Searching? ensures CanSearch(s, id) {
      CanAlwaysSearch(cmp, s, s.readers[id]);
    }
  }

  // --------------------------------------------------------- the writer, on its own

  /** What the search with prev has filled in: at each level above, the last node before the key. */
  ghost predicate FilledDownTo<K(!new)>(cmp: Comparator<K>, s: State<K>, key: K, prev: seq<nat>, level: nat)
    requires |s.linked| == MaxHeight
  {
    |prev| == s.maxHeight <= MaxHeight && forall l :: level <= l < s.maxHeight ==>
        IsNode(s, prev[l], l) && IsPrev(cmp, s, prev[l], key, l)
  }

  /** How many nodes of a level the search has not passed yet. */
  ghost function Ahead<K(!new)>(cmp: Comparator<K>, s: State<K>, level: nat, x: nat): nat
    requires level < |s.linked|
  {
    |set n | n in s.linked[level] && n < |s.nodes| && x < |s.nodes| && Precedes(cmp, s, x, n)|
  }

  lemma AheadShrinks<K(!new)>(cmp: Comparator<K>, s: State<K>, level: nat, x: nat, y: nat)
    requires TotalOrder(cmp) && level < |s.linked| && x < |s.nodes| && y < |s.nodes| && y in s.linked[level]
        && Precedes(cmp, s, x, y)
    ensures Ahead(cmp, s, level, y) < Ahead(cmp, s, level, x)
  {
    var a := set n | n in s.linked[level] && n < |s.nodes| && x < |s.nodes| && Precedes(cmp, s, x, n);
    var b := set n | n in s.linked[level] && n < |s.nodes| && y < |s.nodes| && Precedes(cmp, s, y, n);
    forall n | n in b ensures n in a - {y} {
      PrecedesTrans(cmp, s, x, y, n);
      NotBoth(cmp, s, y, n);
    }
    SmallerSet(b, a, y);
  }

  /** The searching loop's turn on a list that does not change meanwhile. */
  lemma SearchTurnFacts<K(!new)>(cmp: Comparator<K>, s: State<K>, key: K, x: nat, level: nat)
    requires TotalOrder(cmp) && LevelsOk(cmp, s) && level < MaxHeight && StandsOk(cmp, s, AtOrAfter(key), x, level)
    ensures IsNode(s, x, level)
    ensures match s.nodes[x].next[level]
            case None => IsPrev(cmp, s, x, key, level)
            case Some(next) =>
              && next < |s.nodes| && next in s.linked[level]
              && (cmp(s.nodes[next].key, key) < 0 ==> Ahead(cmp, s, level, next) < Ahead(cmp, s, level, x))
              && (cmp(s.nodes[next].key, key) > 0 ==> IsPrev(cmp, s, x, key, level))
  {
    LinkedAreNodes(cmp, s, level);
    Laws(cmp);
    assert PointsOn(cmp, s, s.linked[level], x, level);
    if s.nodes[x].next[level].Some? { AheadShrinks(cmp, s, level, x, s.nodes[x].next[level].value); }
  }

  /** FindGreaterOrEqual with prev, as Insert calls it: it ends, and delivers what linking needs unless
      the key is already there, which Insert's caller rules out. */
  method FindGreaterOrEqual<K(!new)>(cmp: Comparator<K>, s: State<K>, key: K)
      returns (result: Option<nat>, prev: seq<nat>)
    requires TotalOrder(cmp) && LevelsOk(cmp, s)
    ensures ResultOk(cmp, s, AtOrAfter(key), result, s.linked[0])
    ensures (forall n :: n in s.linked[0] && n < |s.nodes| ==> cmp(s.nodes[n].key, key) != 0) ==>
        FilledDownTo(cmp, s, key, prev, 0)
  {
    ghost var fresh' := forall n :: n in s.linked[0] && n < |s.nodes| ==> cmp(s.nodes[n].key, key) != 0;
    var x, level: nat := Head, s.maxHeight - 1;
    prev := seq(s.maxHeight, _ => Head);
    while true
      invariant level < s.maxHeight && |prev| == s.maxHeight && StandsOk(cmp, s, AtOrAfter(key), x, level)
      invariant fresh' ==> FilledDownTo(cmp, s, key, prev, level + 1)
      decreases level, Ahead(cmp, s, level, x)
    {
      SearchTurnFacts(cmp, s, key, x, level);
      SubsetOfBottom(cmp, s, level);
      var next := s.nodes[x].next[level];
      if next.Some? && cmp(s.nodes[next.value].key, key) < 0 {
        x := next.value;
      } else {
        prev := prev[level := x];
        if level == 0 {
          FinishOk(cmp, s, Searching(AtOrAfter(key), x, 0, s.linked[0]));
          return next, prev;
        }
        level := level - 1;
      }
    }
  }

  /** prev for a node of some height: above the list's height every level is empty and starts at the head. */
  function PrevFor(prev: seq<nat>, height: nat): (r: seq<nat>)
    ensures |r| == height
  {
    seq(height, l requires 0 <= l < height => if l < |prev| then prev[l] else Head)
  }

  lemma PrevForOk<K(!new)>(cmp: Comparator<K>, s: State<K>, key: K, prev: seq<nat>, height: nat)
    requires LevelsOk(cmp, s) && FilledDownTo(cmp, s, key, prev, 0) && height <= MaxHeight
    ensures PrevsOk(cmp, s, key, PrevFor(prev, height))
  {
    var r := PrevFor(prev, height);
    forall l | 0 <= l < height ensures IsNode(s, r[l], l) && IsPrev(cmp, s, r[l], key, l) {
      LinkedAreNodes(cmp, s, l);
      if l >= s.maxHeight { assert PointsOn(cmp, s, s.linked[l], Head, l); }
    }
  }

  /** A list that only its writer is looking at, between inserts. */
  class List<K(!new)> {
    const cmp: Comparator<K>
    var s: State<K>

    ghost predicate Valid()
      reads this
    { TotalOrder(cmp) && Invariant(cmp, s) && s.writer == Idle }

    /** The keys in the list. */
    ghost function Keys(): set<K>
      reads this
      requires Valid()
    { KeysOf(s) }

    constructor (cmp: Comparator<K>, anyKey: K)
      requires TotalOrder(cmp)
      ensures Valid() && this.cmp == cmp && Keys() == {}
    {
      this.cmp := cmp;
      s := State([Node(anyKey, seq(MaxHeight, _ => None))], 1, Idle, map[], seq(MaxHeight, _ => {}));
      new;
      InitOk(cmp, s);
    }

    /** Insert, with the height that was drawn for the node. */
    method Insert(key: K, height: nat)
      requires Valid() && key !in Keys() && 1 <= height <= MaxHeight
      modifies this
      ensures Valid() && Keys() == old(Keys()) + {key} && OnlyAdds(old(s), s)
    {
      ghost var before := s;
      KeyIsNew(cmp, s, key);
      var result, prev := FindGreaterOrEqual(cmp, s, key);
      PrevForOk(cmp, s, key, prev, height);
      var x := |s.nodes|;
      BeginInsertKeeps(cmp, s, key, PrevFor(prev, height));
      WriterStepOk(cmp, s, BeginInsert(s, key, PrevFor(prev, height)));
      s := BeginInsert(s, key, PrevFor(prev, height));
      var i := 0;
      while i < height
        invariant i <= height && Invariant(cmp, s) && OnlyAdds(before, s)
        invariant Inserting(before, s, x, key, PrevFor(prev, height), i)
      {
        LinkLevel(cmp, before, s, x, key, PrevFor(prev, height), i);
        s := Prepare(s);
        s := Publish(s);
        i := i + 1;
      }
      KeysGrow(before, s, x, key);
    }

    /** Contains. */
    method Contains(key: K) returns (r: bool)
      requires Valid()
      ensures r <==> key in Keys()
    {
      var x, prev := FindGreaterOrEqual(cmp, s, key);
      LinkedAreNodes(cmp, s, 0);
      Laws(cmp);
      r := x.Some? && cmp(s.nodes[x.value].key, key) == 0;
      if r { assert x.value in s.linked[0]; }
      if key in Keys() {
        var n :| n in s.linked[0] && n < |s.nodes| && s.nodes[n].key == key;
        assert cmp(s.nodes[n].key, key) >= 0;
      }
    }
  }

  ghost function KeysOf<K(!new)>(s: State<K>): set<K>
    requires |s.linked| > 0
  {
    set n | n in s.linked[0] && n < |s.nodes| :: s.nodes[n].key
  }

  lemma KeyIsNew<K(!new)>(cmp: Comparator<K>, s: State<K>, key: K)
    requires TotalOrder(cmp) && |s.linked| > 0 && key !in KeysOf(s)
    ensures forall n :: n in s.linked[0] && n < |s.nodes| ==> cmp(s.nodes[n].key, key) != 0
  {
    Laws(cmp);
  }

  /** The insert of x after i levels have been linked. */
  ghost predicate Inserting<K(!new)>(before: State<K>, s: State<K>, x: nat, key: K, prev: seq<nat>, i: nat) {
    && |before.linked| == |s.linked| == MaxHeight && x < |s.nodes| && s.nodes[x].key == key
    && (if i < |prev| then s.writer == Linking(x, prev, i, false) else s.writer == Idle)
    && s.linked[0] == before.linked[0] + if i > 0 then {x} else {}
  }

  /** The two stores that link x at one level. */
  lemma LinkLevel<K(!new)>(cmp: Comparator<K>, before: State<K>, s: State<K>, x: nat, key: K, prev: seq<nat>, i: nat)
    requires TotalOrder(cmp) && Invariant(cmp, s) && OnlyAdds(before, s) && i < |prev|
        && Inserting(before, s, x, key, prev, i)
    ensures CanPrepare(s) && CanPublish(Prepare(s)) && Invariant(cmp, Publish(Prepare(s)))
    ensures OnlyAdds(before, Publish(Prepare(s))) && Inserting(before, Publish(Prepare(s)), x, key, prev, i + 1)
  {
    NeverStuck(cmp, s);
    WriterStepKeeps(cmp, s, Prepare(s));
    NeverStuck(cmp, Prepare(s));
    WriterStepKeeps(cmp, Prepare(s), Publish(Prepare(s)));
    OnlyAddsTrans(before, s, Prepare(s));
    OnlyAddsTrans(before, Prepare(s), Publish(Prepare(s)));
  }

  lemma KeysGrow<K(!new)>(before: State<K>, s: State<K>, x: nat, key: K)
    requires OnlyAdds(before, s) && x < |s.nodes| && s.nodes[x].key == key && s.linked[0] == before.linked[0] + {x}
    requires forall n :: n in before.linked[0] ==> n < |before.nodes|
    ensures KeysOf(s) == KeysOf(before) + {key}
  {
    forall k | k in KeysOf(before) ensures k in KeysOf(s) {
      var n :| n in before.linked[0] && n < |before.nodes| && before.nodes[n].key == k;
      assert n in s.linked[0] && s.nodes[n].key == k;
    }
    assert x in s.linked[0];
  }
}
