/** The bytes of a message, number by number as pb/testpb.proto gives them, and what a parsed
    message holds: the last value of every known field, and the other fields in their order. */
module Merging {
  import opened Options
  import opened Wire
  import opened Messages

  // ---------- bytes ----------

  /** The groups of seven bits, the lowest first. */
  function Groups(b: Bytes): nat {
    if b == [] then 0 else b[0] % 128 + 128 * Groups(b[1..])
  }

  lemma {:induction false} VarintIsGroups(n: nat)
    ensures Groups(PutVarint(n)) == n
    ensures forall k :: 0 <= k < |PutVarint(n)| ==> (PutVarint(n)[k] >= 128 <==> k + 1 < |PutVarint(n)|)
    ensures n >= 128 ==> PutVarint(n)[|PutVarint(n)| - 1] != 0
    decreases n
  {
    if n >= 128 {
      var high := PutVarint(n / 128);
      VarintIsGroups(n / 128);
      assert PutVarint(n) == [128 + n % 128] + high && PutVarint(n)[1..] == high;
    } else {
      assert PutVarint(n)[1..] == [];
    }
  }

  lemma FieldBytes(number: nat, value: nat, data: Bytes)
    ensures PutField(VarintField(number, value)) == PutVarint(8 * number) + PutVarint(value)
    ensures PutField(Fixed64Field(number, data)) == PutVarint(8 * number + 1) + data
    ensures PutField(BytesField(number, data)) == PutVarint(8 * number + 2) + (PutVarint(|data|) + data)
    ensures PutField(Fixed32Field(number, data)) == PutVarint(8 * number + 5) + data
  {
    hide PutVarint;
  }

  /** A uint32 field that is present, behind its tag. */
  function NumberBytes(tag: Byte, v: Option<nat>): Bytes {
    if v.Some? then [tag] + PutVarint(v.value) else []
  }

  /** A bytes field that is present, behind its tag and its length. */
  function DataBytes(tag: Byte, v: Option<Bytes>): Bytes {
    if v.Some? then [tag] + (PutVarint(|v.value|) + v.value) else []
  }

  lemma {:induction false} PutFieldsConcat(a: seq<Field>, b: seq<Field>)
    ensures PutFields(a + b) == PutFields(a) + PutFields(b)
    decreases |a|
  {
    hide PutField;
    if a == [] {
      assert a + b == b;
    } else {
      PutFieldsConcat(a[1..], b);
      assert (a + b)[0] == a[0] && (a + b)[1..] == a[1..] + b;
      Associates(PutField(a[0]), PutFields(a[1..]), PutFields(b));
    }
  }

  lemma OneField(f: Field)
    ensures PutFields([f]) == PutField(f)
  {
    assert PutFields([f][1..]) == [];
  }

  lemma OptVarintBytes(number: nat, v: Option<nat>)
    requires number < 16
    ensures PutFields(OptVarint(number, v)) == NumberBytes(8 * number, v)
  {
    if v.Some? {
      OneField(VarintField(number, v.value));
      FieldBytes(number, v.value, []);
      assert PutVarint(8 * number) == [8 * number];
    }
  }

  lemma OptBytesBytes(number: nat, v: Option<Bytes>)
    requires number < 16
    ensures PutFields(OptBytes(number, v)) == DataBytes(8 * number + 2, v)
  {
    if v.Some? {
      OneField(BytesField(number, v.value));
      FieldBytes(number, 0, v.value);
      assert PutVarint(8 * number + 2) == [8 * number + 2];
    }
  }

  lemma HeadBytes(h: Head)
    ensures SerializeHead(h) == NumberBytes(8, h.seq_) + (DataBytes(18, h.data) + PutFields(h.unknown))
  {
    hide PutFields, NumberBytes, DataBytes, OptVarint, OptBytes;
    OptVarintBytes(1, h.seq_);
    OptBytesBytes(2, h.data);
    PutFieldsConcat(OptBytes(2, h.data), h.unknown);
    PutFieldsConcat(OptVarint(1, h.seq_), OptBytes(2, h.data) + h.unknown);
  }

  lemma ReqBytes(m: DataReq)
    ensures SerializeReq(m) == NumberBytes(8, m.cmd) + (NumberBytes(16, m.query) + PutFields(m.unknown))
  {
    hide PutFields, NumberBytes, OptVarint;
    OptVarintBytes(1, m.cmd);
    OptVarintBytes(2, m.query);
    PutFieldsConcat(OptVarint(2, m.query), m.unknown);
    PutFieldsConcat(OptVarint(1, m.cmd), OptVarint(2, m.query) + m.unknown);
  }

  lemma RspBytes(m: DataRsp)
    ensures SerializeRsp(m) ==
            NumberBytes(8, m.cmd) + (NumberBytes(16, m.data) + (DataBytes(26, m.msg) + PutFields(m.unknown)))
  {
    hide PutFields, NumberBytes, DataBytes, OptVarint, OptBytes;
    OptVarintBytes(1, m.cmd);
    OptVarintBytes(2, m.data);
    OptBytesBytes(3, m.msg);
    var text := OptBytes(3, m.msg) + m.unknown;
    PutFieldsConcat(OptBytes(3, m.msg), m.unknown);
    PutFieldsConcat(OptVarint(2, m.data), text);
    PutFieldsConcat(OptVarint(1, m.cmd), OptVarint(2, m.data) + text);
  }

  // ---------- the last value wins ----------

  /** A uint32 field keeps the lowest 32 bits of the last varint with its number. */
  function LastNumber(fs: seq<Field>, number: nat): Option<nat> {
    if fs == [] then None
    else
      var f := fs[|fs| - 1];
      if f.VarintField? && f.number == number then Some(f.value % 0x1_0000_0000)
      else LastNumber(fs[..|fs| - 1], number)
  }

  function LastData(fs: seq<Field>, number: nat): Option<Bytes> {
    if fs == [] then None
    else
      var f := fs[|fs| - 1];
      if f.BytesField? && f.number == number then Some(f.data)
      else LastData(fs[..|fs| - 1], number)
  }

  /** The fields that are neither varints nor bytes under the numbers given. */
  function Others(fs: seq<Field>, varints: set<nat>, bytes: set<nat>): seq<Field> {
    if fs == [] then []
    else
      var f := fs[|fs| - 1];
      Others(fs[..|fs| - 1], varints, bytes) +
      if (f.VarintField? && f.number in varints) || (f.BytesField? && f.number in bytes) then [] else [f]
  }

  lemma MergeOneHead(h: Head, g: Field)
    ensures MergeHead(h, [g]) ==
            if IsVarint(g, 1) then h.(seq_ := Some(g.value % U32))
            else if IsBytes(g, 2) then h.(data := Some(g.data))
            else h.(unknown := h.unknown + [g])
  {
    assert [g][1..] == [];
  }

  lemma {:induction false} MergeHeadSplits(h: Head, a: seq<Field>, g: Field)
    ensures MergeHead(h, a + [g]) == MergeHead(MergeHead(h, a), [g])
    decreases |a|
  {
    if a == [] {
      assert a + [g] == [g];
    } else {
      MergeOneHead(h, a[0]);
      MergeHeadSplits(MergeHead(h, [a[0]]), a[1..], g);
      assert (a + [g])[0] == a[0] && (a + [g])[1..] == a[1..] + [g];
    }
  }

  lemma MergeOneReq(m: DataReq, g: Field)
    ensures MergeReq(m, [g]) ==
            if IsVarint(g, 1) then m.(cmd := Some(g.value % U32))
            else if IsVarint(g, 2) then m.(query := Some(g.value % U32))
            else m.(unknown := m.unknown + [g])
  {
    assert [g][1..] == [];
  }

  lemma {:induction false} MergeReqSplits(m: DataReq, a: seq<Field>, g: Field)
    ensures MergeReq(m, a + [g]) == MergeReq(MergeReq(m, a), [g])
    decreases |a|
  {
    if a == [] {
      assert a + [g] == [g];
    } else {
      MergeOneReq(m, a[0]);
      MergeReqSplits(MergeReq(m, [a[0]]), a[1..], g);
      assert (a + [g])[0] == a[0] && (a + [g])[1..] == a[1..] + [g];
    }
  }

  lemma MergeOneRsp(m: DataRsp, g: Field)
    ensures MergeRsp(m, [g]) ==
            if IsVarint(g, 1) then m.(cmd := Some(g.value % U32))
            else if IsVarint(g, 2) then m.(data := Some(g.value % U32))
            else if IsBytes(g, 3) then m.(msg := Some(g.data))
            else m.(unknown := m.unknown + [g])
  {
    assert [g][1..] == [];
  }

  lemma {:induction false} MergeRspSplits(m: DataRsp, a: seq<Field>, g: Field)
    ensures MergeRsp(m, a + [g]) == MergeRsp(MergeRsp(m, a), [g])
    decreases |a|
  {
    if a == [] {
      assert a + [g] == [g];
    } else {
      MergeOneRsp(m, a[0]);
      MergeRspSplits(MergeRsp(m, [a[0]]), a[1..], g);
      assert (a + [g])[0] == a[0] && (a + [g])[1..] == a[1..] + [g];
    }
  }

  lemma {:induction false} MergeHeadHolds(fs: seq<Field>)
    ensures MergeHead(Head(None, None, []), fs) == Head(LastNumber(fs, 1), LastData(fs, 2), Others(fs, {1}, {2}))
    decreases |fs|
  {
    if fs != [] {
      var first, last := fs[..|fs| - 1], fs[|fs| - 1];
      assert fs == first + [last];
      MergeHeadHolds(first);
      hide MergeHead;
      MergeHeadSplits(Head(None, None, []), first, last);
      MergeOneHead(MergeHead(Head(None, None, []), first), last);
    }
  }

  lemma {:induction false} MergeReqHolds(fs: seq<Field>)
    ensures MergeReq(DataReq(None, None, []), fs) == DataReq(LastNumber(fs, 1), LastNumber(fs, 2), Others(fs, {1, 2}, {}))
    decreases |fs|
  {
    if fs != [] {
      var first, last := fs[..|fs| - 1], fs[|fs| - 1];
      assert fs == first + [last];
      MergeReqHolds(first);
      hide MergeReq;
      MergeReqSplits(DataReq(None, None, []), first, last);
      MergeOneReq(MergeReq(DataReq(None, None, []), first), last);
    }
  }

  lemma {:induction false} MergeRspHolds(fs: seq<Field>)
    ensures MergeRsp(DataRsp(None, None, None, []), fs) ==
            DataRsp(LastNumber(fs, 1), LastNumber(fs, 2), LastData(fs, 3), Others(fs, {1, 2}, {3}))
    decreases |fs|
  {
    if fs != [] {
      var first, last := fs[..|fs| - 1], fs[|fs| - 1];
      assert fs == first + [last];
      MergeRspHolds(first);
      hide MergeRsp;
      MergeRspSplits(DataRsp(None, None, None, []), first, last);
      MergeOneRsp(MergeRsp(DataRsp(None, None, None, []), first), last);
    }
  }

  /** Bytes parse as any of the messages exactly when they are fields one after the other, and
      then every known field holds the last value given for it, and the rest is kept. */
  lemma ParsedHolds(b: Bytes)
    ensures GetFields(b).None? ==> ParseHead(b) == None && ParseReq(b) == None && ParseRsp(b) == None
    ensures GetFields(b).Some? ==>
              var fs := GetFields(b).value;
              && ParseHead(b) == Some(Head(LastNumber(fs, 1), LastData(fs, 2), Others(fs, {1}, {2})))
              && ParseReq(b) == Some(DataReq(LastNumber(fs, 1), LastNumber(fs, 2), Others(fs, {1, 2}, {})))
              && ParseRsp(b) == Some(DataRsp(LastNumber(fs, 1), LastNumber(fs, 2), LastData(fs, 3), Others(fs, {1, 2}, {3})))
  {
    hide GetFields, MergeHead, MergeReq, MergeRsp, LastNumber, LastData, Others;
    if GetFields(b).Some? {
      MergeHeadHolds(GetFields(b).value);
      MergeReqHolds(GetFields(b).value);
      MergeRspHolds(GetFields(b).value);
    }
  }
}
