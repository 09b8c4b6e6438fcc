/** Internal keys (db/dbformat.h, db/dbformat.cc): a user key, the sequence number
    of the write that produced the entry, and whether it set or deleted the key. */
module InternalKeys {
  import opened Order

  datatype ValueType = Deletion | Value

  datatype InternalKey<U> = InternalKey(user: U, sequence: nat, kind: ValueType)

  /** The sequence number is packed above the eight bits of the type. */
  function Tag<U>(k: InternalKey<U>): nat {
    256 * k.sequence + (if k.kind == Value then 1 else 0)
  }

  /** Increasing user key, then decreasing tag. */
  function InternalCompare<U>(ucmp: Comparator<U>, a: InternalKey<U>, b: InternalKey<U>): int {
    var r := ucmp(a.user, b.user);
    if r != 0 then r
    else if Tag(a) > Tag(b) then -1
    else if Tag(a) < Tag(b) then 1
    else 0
  }

  function InternalComparator<U>(ucmp: Comparator<U>): Comparator<InternalKey<U>> {
    (a: InternalKey<U>, b: InternalKey<U>) => InternalCompare(ucmp, a, b)
  }

  lemma TagInjective<U>(a: InternalKey<U>, b: InternalKey<U>)
    ensures Tag(a) == Tag(b) <==> a.sequence == b.sequence && a.kind == b.kind
    ensures a.sequence < b.sequence ==> Tag(a) < Tag(b)
  {
  }

  /** If user keys are totally ordered, so are internal keys. */
  lemma InternalIsTotal<U(!new)>(ucmp: Comparator<U>)
    requires TotalOrder(ucmp)
    ensures TotalOrder(InternalComparator(ucmp))
  {
    var cmp := InternalComparator(ucmp);
    Laws(ucmp);
    forall a: InternalKey<U>, b: InternalKey<U>, c: InternalKey<U>
      ensures cmp(a, b) == 0 <==> a == b
      ensures cmp(a, b) < 0 <==> cmp(b, a) > 0
      ensures cmp(a, b) < 0 && cmp(b, c) < 0 ==> cmp(a, c) < 0
    {
      TagInjective(a, b);
      assert Chain(a.user, b.user, c.user);
    }
  }

  const MaxSequence: nat := 0x100_0000_0000_0000 - 1
}
