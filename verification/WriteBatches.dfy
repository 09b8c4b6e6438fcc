/** WriteBatch (db/write_batch.cc): the bytes of a batch against the list of updates it stands for. */
module WriteBatches {
  import opened Coding
  import opened Options
  import opened Varints

  const HeaderSize: nat := 12
  const TypeDeletion: Byte := 0
  const TypeValue: Byte := 1

  datatype Op = Put(key: seq<Byte>, value: seq<Byte>) | Delete(key: seq<Byte>)

  /** Lengths are stored in 32 bits. */
  ghost predicate Storable(op: Op) {
    |op.key| < Max32 && (op.Put? ==> |op.value| < Max32)
  }

  function Record(op: Op): (r: seq<Byte>)
    ensures r != []
  {
    match op
    case Put(key, value) => [TypeValue] + Prefixed(key) + Prefixed(value)
    case Delete(key) => [TypeDeletion] + Prefixed(key)
  }

  function Body(ops: seq<Op>): seq<Byte> {
    if ops == [] then [] else Record(ops[0]) + Body(ops[1..])
  }

  /** The header: sequence number and count. */
  function Rep(sequence: nat, ops: seq<Op>): seq<Byte> {
    Fixed(sequence, 8) + Fixed(|ops|, 4) + Body(ops)
  }

  lemma NoRecords()
    ensures Body([]) == []
  {
  }

  lemma FirstRecord(ops: seq<Op>)
    requires ops != []
    ensures Body(ops) == Record(ops[0]) + Body(ops[1..])
  {
  }

  lemma {:induction false} BodyAppend(a: seq<Op>, b: seq<Op>)
    ensures Body(a + b) == Body(a) + Body(b)
  {
    hide Body;
    hide Record;
    if a == [] {
      assert a + b == b;
      NoRecords();
    } else {
      BodyAppend(a[1..], b);
      FirstRecord(a);
      FirstRecord(a + b);
      assert (a + b)[0] == a[0] && (a + b)[1..] == a[1..] + b;
      assert Record(a[0]) + (Body(a[1..]) + Body(b)) == Record(a[0]) + Body(a[1..]) + Body(b);
    }
  }

  // ------------------------------------------------------------------------ reading

  /** One record at the start of the input, and what follows it. */
  function ParseRecord(input: seq<Byte>): (r: Option<(Op, seq<Byte>)>)
    requires input != []
    ensures r.Some? ==> |r.value.1| < |input|
  {
    match ParsePrefixed(input[1..])
    case None => None
    case Some((key, rest)) =>
      if input[0] == TypeDeletion then Some((Delete(key), rest))
      else if input[0] == TypeValue then
        match ParsePrefixed(rest)
        case None => None
        case Some((value, rest')) => Some((Put(key, value), rest'))
      else None
  }

  /** The updates handed to the handler before the end or the first malformed record, and whether all was well. */
  function ParseBody(input: seq<Byte>): (seq<Op>, bool) {
    if input == [] then ([], true)
    else
      match ParseRecord(input)
      case None => ([], false)
      case Some((op, rest)) =>
        var (ops, ok) := ParseBody(rest);
        ([op] + ops, ok)
  }

  lemma RecordRoundTrip(op: Op, rest: seq<Byte>)
    requires Storable(op)
    ensures ParseRecord(Record(op) + rest) == Some((op, rest))
  {
    hide Prefixed;
    hide ParsePrefixed;
    var input := Record(op) + rest;
    match op
    case Put(key, value) =>
      assert input[1..] == Prefixed(key) + (Prefixed(value) + rest);
      PrefixedRoundTrip(key, Prefixed(value) + rest);
      PrefixedRoundTrip(value, rest);
    case Delete(key) =>
      assert input[1..] == Prefixed(key) + rest;
      PrefixedRoundTrip(key, rest);
  }

  lemma {:induction false} BodyRoundTrip(ops: seq<Op>)
    requires forall op :: op in ops ==> Storable(op)
    ensures ParseBody(Body(ops)) == (ops, true)
  {
    hide Record;
    hide ParseRecord;
    if ops != [] {
      RecordRoundTrip(ops[0], Body(ops[1..]));
      BodyRoundTrip(ops[1..]);
      assert ops == [ops[0]] + ops[1..];
    }
  }

  lemma HeaderParts(sequence: nat, ops: seq<Op>)
    requires sequence < Pow256(8) && |ops| < Pow256(4)
    ensures var rep := Rep(sequence, ops);
            && |rep| >= HeaderSize && rep[..8] == Fixed(sequence, 8) && rep[8..12] == Fixed(|ops|, 4)
                && rep[12..] == Body(ops)
            && FixedValue(rep[..8]) == sequence && FixedValue(rep[8..12]) == |ops|
  {
    var rep := Rep(sequence, ops);
    assert rep[..8] == Fixed(sequence, 8) && rep[8..12] == Fixed(|ops|, 4) && rep[12..] == Body(ops);
    FixedRoundTrip(sequence, 8);
    FixedRoundTrip(|ops|, 4);
  }

  lemma RepMore(sequence: nat, ops: seq<Op>, more: seq<Op>)
    requires sequence < Pow256(8) && |ops| < Pow256(4)
    ensures |Rep(sequence, ops)| >= HeaderSize
    ensures Rep(sequence, ops)[..8] + Fixed(|ops| + |more|, 4) + Rep(sequence, ops)[12..] + Body(more) ==
        Rep(sequence, ops + more)
  {
    hide Fixed;
    hide Body;
    hide FixedValue;
    HeaderParts(sequence, ops);
    BodyAppend(ops, more);
  }

  lemma RepSequence(sequence: nat, s: nat, ops: seq<Op>)
    requires sequence < Pow256(8) && s < Pow256(8) && |ops| < Pow256(4)
    ensures |Rep(sequence, ops)| >= HeaderSize && Fixed(s, 8) + Rep(sequence, ops)[8..] == Rep(s, ops)
  {
    hide Fixed;
    hide Body;
    hide FixedValue;
    hide Pow256;
    HeaderParts(sequence, ops);
    var rep := Rep(sequence, ops);
    assert rep[8..] == rep[8..12] + rep[12..];
  }

  lemma OneRecord(op: Op)
    ensures Body([op]) == Record(op)
  {
    hide Record;
    assert [op][1..] == [];
  }

  /** A batch whose bytes stand for the updates ops. */
  class WriteBatch {
    var rep: seq<Byte>
    ghost var sequence: nat
    ghost var ops: seq<Op>

    ghost predicate Valid()
      reads this
    {
      && sequence < Pow256(8) && |ops| < Pow256(4) && (forall op :: op in ops ==> Storable(op))
      && rep == Rep(sequence, ops)
    }

    constructor ()
      ensures Valid() && ops == [] && sequence == 0
    {
      rep := [0, 0, 0, 0, 0, 0, 0, 0, 0, 0, 0, 0];
      sequence, ops := 0, [];
      new;
      assert Fixed(0, 8) == [0, 0, 0, 0, 0, 0, 0, 0] by { ZeroFixed(8); }
      assert Fixed(0, 4) == [0, 0, 0, 0] by { ZeroFixed(4); }
    }

    method Count() returns (n: nat)
      requires Valid()
      ensures n == |ops|
    {
      HeaderParts(sequence, ops);
      n := FixedValue(rep[8..12]);
    }

    method SetSequence(s: nat)
      requires Valid() && s < Pow256(8)
      modifies this
      ensures Valid() && sequence == s && ops == old(ops)
    {
      hide Rep;
      RepSequence(sequence, s, ops);
      rep := Fixed(s, 8) + rep[8..];
      sequence := s;
    }

    method AddRecord(op: Op)
      requires Valid() && Storable(op) && |ops| + 1 < Pow256(4)
      modifies this
      ensures Valid() && sequence == old(sequence) && ops == old(ops) + [op]
    {
      hide Rep;
      hide Fixed;
      hide Record;
      hide Storable;
      hide Pow256;
      RepMore(sequence, ops, [op]);
      OneRecord(op);
      var n := Count();
      rep := rep[..8] + Fixed(n + 1, 4) + rep[12..];
      rep := rep + Record(op);
      ops := ops + [op];
    }

    method Put(key: seq<Byte>, value: seq<Byte>)
      requires Valid() && Storable(Op.Put(key, value)) && |ops| + 1 < Pow256(4)
      modifies this
      ensures Valid() && sequence == old(sequence) && ops == old(ops) + [Op.Put(key, value)]
    {
      AddRecord(Op.Put(key, value));
    }

    method Delete(key: seq<Byte>)
      requires Valid() && Storable(Op.Delete(key)) && |ops| + 1 < Pow256(4)
      modifies this
      ensures Valid() && sequence == old(sequence) && ops == old(ops) + [Op.Delete(key)]
    {
      AddRecord(Op.Delete(key));
    }

    /** The updates of the other batch go after this one's. */
    method Append(src: WriteBatch)
      requires Valid() && src.Valid() && |ops| + |src.ops| < Pow256(4)
      modifies this
      ensures Valid() && sequence == old(sequence) && ops == old(ops) + old(src.ops)
    {
      hide Rep;
      hide Fixed;
      hide Record;
      hide Storable;
      hide Pow256;
      hide FixedValue;
      hide Body;
      RepMore(sequence, ops, src.ops);
      HeaderParts(src.sequence, src.ops);
      var n := Count();
      var m := src.Count();
      var updates := src.rep[12..];
      rep := rep[..8] + Fixed(n + m, 4) + rep[12..];
      rep := rep + updates;
      ops := ops + src.ops;
    }

    /** Iterate: what it hands to the handler, and its status. */
    method Iterate() returns (handled: seq<Op>, ok: bool)
      ensures |rep| < HeaderSize ==> handled == [] && !ok
      ensures |rep| >= HeaderSize ==> handled == ParseBody(rep[12..]).0
      ensures |rep| >= HeaderSize ==> (ok <==> ParseBody(rep[12..]).1 && FixedValue(rep[8..12]) == |handled|)
      ensures Valid() ==> ok && handled == ops
    {
      hide ParseBody;
      hide ParseRecord;
      hide Rep;
      ValidParses();
      if |rep| < HeaderSize {
        return [], false;
      }
      var input := rep[12..];
      handled := [];
      StartParse(input);
      while input != []
        invariant Rest(rep[12..], handled, input)
        decreases |input|
      {
        RestStep(rep[12..], handled, input);
        var parsed := ParseRecord(input);
        if parsed.None? {
          return handled, false;
        }
        handled := handled + [parsed.value.0];
        input := parsed.value.1;
      }
      RestDone(rep[12..], handled);
      ok := |handled| == FixedValue(rep[8..12]);
    }

    lemma ValidParses()
      ensures Valid() ==> |rep| >= HeaderSize && ParseBody(rep[12..]) == (ops, true) && FixedValue(rep[8..12]) == |ops|
    {
      if Valid() {
        HeaderParts(sequence, ops);
        BodyRoundTrip(ops);
      }
    }
  }

  lemma {:induction false} ZeroFixed(n: nat)
    ensures Fixed(0, n) == seq(n, _ => 0)
  {
    if n > 0 { ZeroFixed(n - 1); }
  }

  /** The updates handled so far, with those still in the input, are all of them. */
  ghost predicate Rest(whole: seq<Byte>, handled: seq<Op>, input: seq<Byte>) {
    ParseBody(whole).0 == handled + ParseBody(input).0 && ParseBody(whole).1 == ParseBody(input).1
  }

  lemma StartParse(input: seq<Byte>)
    ensures Rest(input, [], input)
  {
    hide ParseBody;
  }

  lemma RestStep(whole: seq<Byte>, handled: seq<Op>, input: seq<Byte>)
    requires Rest(whole, handled, input) && input != []
    ensures match ParseRecord(input)
            case None => ParseBody(whole) == (handled, false)
            case Some((op, rest)) => |rest| < |input| && Rest(whole, handled + [op], rest)
  {
    hide ParseRecord;
    match ParseRecord(input)
    case None => assert handled + [] == handled;
    case Some((op, rest)) => assert handled + ([op] + ParseBody(rest).0) == handled + [op] + ParseBody(rest).0;
  }

  lemma RestDone(whole: seq<Byte>, handled: seq<Op>)
    requires Rest(whole, handled, [])
    ensures ParseBody(whole) == (handled, true)
  {
    assert handled + [] == handled;
  }
}
