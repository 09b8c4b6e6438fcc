/** Walking a message description (pb_common.c): the fields one after the other, and around again. */
module NanopbFields {
  import opened NanopbSchema

  /** The required fields among the first n. */
  function RequiredBefore(fields: seq<Field>, n: nat): (r: nat)
    requires n <= |fields|
    ensures r <= n
  {
    if n == 0 then 0 else RequiredBefore(fields, n - 1) + if fields[n - 1].rule.Required? then 1 else 0
  }

  lemma {:induction false} RequiredBeforeMonotone(fields: seq<Field>, i: nat, n: nat)
    requires i <= n <= |fields|
    ensures RequiredBefore(fields, i) <= RequiredBefore(fields, n)
    ensures i < n && fields[i].rule.Required? ==> RequiredBefore(fields, i) < RequiredBefore(fields, n)
  {
    if i < n { RequiredBeforeMonotone(fields, i, n - 1); }
  }

  /** The first field of that tag, or the number of fields. */
  function FieldOf(fields: seq<Field>, tag: nat): (i: nat)
    ensures i <= |fields|
    ensures i < |fields| ==> fields[i].tag == tag
    ensures forall k :: 0 <= k < i ==> fields[k].tag != tag
  {
    FieldFrom(fields, tag, 0)
  }

  function FieldFrom(fields: seq<Field>, tag: nat, from: nat): (i: nat)
    requires from <= |fields|
    ensures from <= i <= |fields|
    ensures i < |fields| ==> fields[i].tag == tag
    ensures forall k :: from <= k < i ==> fields[k].tag != tag
    decreases |fields| - from
  {
    if from == |fields| || fields[from].tag == tag then from else FieldFrom(fields, tag, from + 1)
  }

  ghost predicate DistinctTags(fields: seq<Field>) {
    && (forall i :: 0 <= i < |fields| ==> fields[i].tag != 0)
    && forall i, j :: 0 <= i < j < |fields| ==> fields[i].tag != fields[j].tag
  }

  lemma Unique(fields: seq<Field>, tag: nat, i: nat)
    requires DistinctTags(fields) && i < |fields| && fields[i].tag == tag
    ensures FieldOf(fields, tag) == i
  {
  }

  /** pb_field_iter_t. A description without fields has its terminator, of tag 0, as the one place to stand. */
  class FieldIter {
    const fields: seq<Field>
    var pos: nat
    var requiredFieldIndex: nat

    ghost predicate Valid()
      reads this
    {
      && (pos < |fields| || (pos == 0 && fields == []))
      && requiredFieldIndex == RequiredBefore(fields, pos)
    }

    /** pb_field_iter_begin. */
    constructor (fields: seq<Field>)
      ensures Valid() && this.fields == fields && pos == 0
    {
      this.fields := fields;
      pos := 0;
      requiredFieldIndex := 0;
    }

    function TagHere(): nat
      reads this
    {
      if pos < |fields| then fields[pos].tag else 0
    }

    /** pb_field_iter_next: false when it comes around to the beginning. */
    method Next() returns (more: bool)
      requires Valid() && DistinctTags(fields)
      modifies this
      ensures Valid()
      ensures more <==> old(pos) + 1 < |fields|
      ensures pos == if more then old(pos) + 1 else 0
    {
      if TagHere() == 0 { return false; }
      if pos + 1 == |fields| {
        pos, requiredFieldIndex := 0, 0;
        return false;
      }
      if fields[pos].rule.Required? { requiredFieldIndex := requiredFieldIndex + 1; }
      pos := pos + 1;
      more := true;
    }

    /** pb_field_iter_find: from where it stands all the way around. */
    method Find(tag: nat) returns (found: bool)
      requires Valid() && DistinctTags(fields)
      modifies this
      ensures Valid()
      ensures fields != [] ==> (found <==> FieldOf(fields, tag) < |fields|)
      ensures found && fields != [] ==> pos == FieldOf(fields, tag)
      ensures fields == [] ==> (found <==> tag == 0)
    {
      var start := pos;
      ghost var around := false;
      while true
        invariant Valid() && (if around then pos < start else start <= pos) && (around ==> fields != [])
        invariant forall k :: start <= k < (if around then |fields| else pos) ==> fields[k].tag != tag
        invariant around ==> forall k :: 0 <= k < pos ==> fields[k].tag != tag
        decreases !around, |fields| - pos
      {
        if TagHere() == tag {
          if fields != [] { Unique(fields, tag, pos); }
          return true;
        }
        var more := Next();
        if !more { around := true; }
        if pos == start { return false; }
      }
    }
  }
}
