/** Messages whose last one to four bytes read as zeros, and what their fields then parse to. */
module Padding {
  import opened Options
  import opened Wire

  function Zeros(m: nat): (z: Bytes)
    ensures |z| == m && forall k :: 0 <= k < m ==> z[k] == 0
  {
    seq(m, _ => 0)
  }

  lemma ZerosSplit(a: nat, b: nat)
    ensures Zeros(a + b) == Zeros(a) + Zeros(b)
  {
  }

  // ---------- varints and fields that run into zeros ----------

  /** The lowest 7 j bits, those a varint carries in its first j bytes. */
  function Low(n: nat, j: nat): (r: nat)
    ensures r < Pow128(j) && r <= n
    decreases j
  {
    if j == 0 then 0 else n % 128 + 128 * Low(n / 128, j - 1)
  }

  lemma VarintCut(n: nat, j: nat)
    requires 1 <= j < |PutVarint(n)|
    ensures n >= 128 && 128 <= 128 + n % 128 < 256 && j - 1 < |PutVarint(n / 128)|
    ensures PutVarint(n)[..j] == [128 + n % 128] + PutVarint(n / 128)[..j - 1]
  {
    PutVarintStep(n);
  }

  lemma LowStep(n: nat, j: nat)
    requires j >= 1
    ensures Low(n, j) == n % 128 + 128 * Low(n / 128, j - 1)
  {
  }

  lemma VarintStops(n: nat, rest: Bytes, limit: nat)
    requires limit >= 1
    ensures GetVarint(PutVarint(n)[..0] + ([0] + rest), limit) == Some((Low(n, 0), rest))
  {
    assert PutVarint(n)[..0] + ([0] + rest) == [0] + rest;
    assert ([0] + rest)[1..] == rest;
  }

  /** A varint cut after j bytes and followed by a zero reads as those bits. */
  lemma {:induction false} VarintPadded(n: nat, j: nat, rest: Bytes, limit: nat)
    requires j < |PutVarint(n)| && j < limit
    ensures GetVarint(PutVarint(n)[..j] + ([0] + rest), limit) == Some((Low(n, j), rest))
    decreases j
  {
    hide *;
    if j == 0 {
      VarintStops(n, rest, limit);
    } else {
      VarintCut(n, j);
      LowStep(n, j);
      var low: Byte := 128 + n % 128;
      Associates([low], PutVarint(n / 128)[..j - 1], [0] + rest);
      VarintPadded(n / 128, j - 1, rest, limit - 1);
      VarintContinues(low, PutVarint(n / 128)[..j - 1] + ([0] + rest), limit);
    }
  }

  lemma ZeroTag(rest: Bytes)
    ensures GetFields([0] + rest) == None
  {
    var b: Bytes := [0] + rest;
    assert b[1..] == rest;
    assert GetVarint(b, VarintBytes(32)) == Some((0, rest));
  }

  lemma FirstField(b: Bytes, f: Field, rest: Bytes)
    requires GetField(b) == Some((f, rest))
    ensures b != []
    ensures GetFields(b) == if GetFields(rest).Some? then Some([f] + GetFields(rest).value) else None
  {
  }

  lemma ZerosRefused(m: nat)
    requires m >= 1
    ensures Zeros(m) == [0] + Zeros(m - 1) && GetFields(Zeros(m)) == None
  {
    ZerosSplit(1, m - 1);
    assert Zeros(1) == [0];
    ZeroTag(Zeros(m - 1));
  }

  function ZeroEnd(b: Bytes, m: nat): (z: Bytes)
    requires m <= |b|
    ensures |z| == |b|
  {
    b[..|b| - m] + Zeros(m)
  }

  lemma ZeroEndOfSum(a: Bytes, b: Bytes, m: nat)
    requires m <= |b|
    ensures ZeroEnd(a + b, m) == a + ZeroEnd(b, m)
  {
  }

  // ---------- one field ----------

  function TagNumber(f: Field): nat {
    f.number * 8 + WireType(f)
  }

  /** A tag is read as its lowest bits when its last bytes are zeros. */
  function CutTag(f: Field, a: nat): nat
    requires a < |PutField(f)|
  {
    Low(TagNumber(f), |PutField(f)| - a)
  }

  /** What is read from a field whose last a bytes, but not all, and everything behind it are
      zeros, and how many of those a zeros are left. */
  function PaddedField(f: Field, a: nat): (r: Option<(Field, nat)>)
    requires ValidField(f) && 1 <= a <= 4 && a < |PutField(f)|
  {
    var payload := |PutPayload(f)|;
    if a <= payload then
      match f
      case VarintField(n, v) => Some((VarintField(n, Low(v, payload - a)), a - 1))
      case BytesField(n, d) =>
        if a <= |d| then Some((BytesField(n, ZeroEnd(d, a)), 0)) else Some((BytesField(n, []), |d|))
      case Fixed64Field(n, d) => Some((Fixed64Field(n, ZeroEnd(d, a)), 0))
      case Fixed32Field(n, d) => Some((Fixed32Field(n, ZeroEnd(d, a)), 0))
    else
      var number := CutTag(f, a) / 8;
      if number == 0 then None
      else Some((if f.VarintField? then VarintField(number, 0) else BytesField(number, []), if a >= 2 then a - 2 else 0))
  }

  lemma NumbersAreShort(f: Field)
    requires ValidField(f)
    ensures TagNumber(f) < U32 && 1 <= |PutTag(f)| <= VarintBytes(32)
    ensures f.VarintField? ==> |PutPayload(f)| <= VarintBytes(64)
    ensures |PutPayload(f)| >= 1 && (f.BytesField? && |f.data| < 128 ==> PutVarint(|f.data|) == [|f.data|])
    ensures f.Fixed64Field? || f.Fixed32Field? ==> |PutPayload(f)| >= 4
  {
    Pow128Bounds();
    VarintLength(TagNumber(f), VarintBytes(32));
    if f.VarintField? { VarintLength(f.value, VarintBytes(64)); }
  }

  lemma NumberReads(number: nat, b: Bytes, value: nat, rest: Bytes)
    requires GetVarint(b, VarintBytes(64)) == Some((value, rest)) && value < U64
    ensures GetPayload(number, 0, b) == Some((VarintField(number, value), rest))
  {
    hide GetVarint, VarintBytes;
  }

  lemma NumberPadded(number: nat, v: nat, a: nat, b: nat)
    requires v < U64 && 1 <= a <= |PutVarint(v)| <= VarintBytes(64)
    ensures GetPayload(number, 0, ZeroEnd(PutVarint(v), a) + Zeros(b)) ==
            Some((VarintField(number, Low(v, |PutVarint(v)| - a)), Zeros(a - 1 + b)))
  {
    hide VarintBytes, GetVarint, PutVarint, Pow128, Low, GetPayload;
    var j := |PutVarint(v)| - a;
    var rest := Zeros(a - 1 + b);
    ZerosSplit(a, b);
    ZerosRefused(a + b);
    assert ZeroEnd(PutVarint(v), a) + Zeros(b) == PutVarint(v)[..j] + ([0] + rest);
    VarintPadded(v, j, rest, VarintBytes(64));
    NumberReads(number, PutVarint(v)[..j] + ([0] + rest), Low(v, j), rest);
  }

  lemma ZerosRead(number: nat, c: nat)
    requires c >= 1
    ensures GetPayload(number, 0, Zeros(c)) == Some((VarintField(number, 0), Zeros(c - 1)))
    ensures GetPayload(number, 2, Zeros(c)) == Some((BytesField(number, []), Zeros(c - 1)))
  {
    ZerosRefused(c);
    var rest := Zeros(c - 1);
    NumberRoundTrip(number, 0, rest);
    DelimitedRoundTrip(number, [], rest);
    assert PutVarint(0) == [0];
    var none: Bytes := [];
    assert PutVarint(|none|) + none + rest == [0] + rest;
  }

  lemma FixedPadded(d: Bytes, a: nat, b: nat)
    requires a <= |d|
    ensures Take(ZeroEnd(d, a) + Zeros(b), |d|) == Some((ZeroEnd(d, a), Zeros(b)))
  {
    TakeRoundTrip(ZeroEnd(d, a), Zeros(b));
  }

  lemma BytesPadded(number: nat, d: Bytes, a: nat, b: nat)
    requires |d| < MAX_LENGTH && 1 <= a <= 4 && a <= |PutVarint(|d|) + d|
    requires |d| < 128 ==> PutVarint(|d|) == [|d|]
    ensures GetPayload(number, 2, ZeroEnd(PutVarint(|d|) + d, a) + Zeros(b)) ==
            if a <= |d| then Some((BytesField(number, ZeroEnd(d, a)), Zeros(b)))
            else Some((BytesField(number, []), Zeros(|d| + b)))
  {
    hide GetPayload, PutVarint;
    if a <= |d| {
      ZeroEndOfSum(PutVarint(|d|), d, a);
      DelimitedRoundTrip(number, ZeroEnd(d, a), Zeros(b));
    } else {
      ZerosSplit(a, b);
      assert ZeroEnd(PutVarint(|d|) + d, a) + Zeros(b) == Zeros(a + b);
      ZerosRead(number, a + b);
    }
  }

  ghost predicate ReadsPadded(r: Option<(Field, Bytes)>, p: Option<(Field, nat)>, b: nat) {
    r == match p
         case None => None
         case Some((g, left)) => Some((g, Zeros(left + b)))
  }

  lemma PaddedPayload(f: Field, a: nat)
    requires ValidField(f) && 1 <= a <= 4 && a <= |PutPayload(f)| && a < |PutField(f)|
    ensures f.VarintField? ==>
              PaddedField(f, a) == Some((VarintField(f.number, Low(f.value, |PutVarint(f.value)| - a)), a - 1))
    ensures f.BytesField? ==>
              PaddedField(f, a) ==
              if a <= |f.data| then Some((BytesField(f.number, ZeroEnd(f.data, a)), 0))
              else Some((BytesField(f.number, []), |f.data|))
    ensures f.Fixed64Field? ==> |f.data| == 8 && PaddedField(f, a) == Some((Fixed64Field(f.number, ZeroEnd(f.data, a)), 0))
    ensures f.Fixed32Field? ==> |f.data| == 4 && PaddedField(f, a) == Some((Fixed32Field(f.number, ZeroEnd(f.data, a)), 0))
  {
    hide PutVarint, Pow128, Low, ZeroEnd, PutField;
  }

  lemma ReadsPaddedSome(r: Option<(Field, Bytes)>, g: Field, left: nat, b: nat)
    requires r == Some((g, Zeros(left + b)))
    ensures ReadsPadded(r, Some((g, left)), b)
  {
  }

  lemma VarintFieldFacts(f: Field)
    requires ValidField(f) && f.VarintField?
    ensures PutPayload(f) == PutVarint(f.value) && f.value < U64 && |PutVarint(f.value)| <= VarintBytes(64)
  {
    NumbersAreShort(f);
  }

  lemma VarintFieldPadded(f: Field, a: nat, b: nat)
    requires ValidField(f) && f.VarintField? && 1 <= a <= 4 && a <= |PutPayload(f)| && a < |PutField(f)|
    ensures ReadsPadded(GetPayload(f.number, 0, ZeroEnd(PutPayload(f), a) + Zeros(b)), PaddedField(f, a), b)
  {
    hide *;
    VarintFieldFacts(f);
    PaddedPayload(f, a);
    NumberPadded(f.number, f.value, a, b);
    var r := GetPayload(f.number, 0, ZeroEnd(PutPayload(f), a) + Zeros(b));
    ReadsPaddedSome(r, PaddedField(f, a).value.0, a - 1, b);
  }

  lemma BytesFieldPadded(f: Field, a: nat, b: nat)
    requires ValidField(f) && f.BytesField? && 1 <= a <= 4 && a <= |PutPayload(f)| && a < |PutField(f)|
    ensures ReadsPadded(GetPayload(f.number, 2, ZeroEnd(PutPayload(f), a) + Zeros(b)), PaddedField(f, a), b)
  {
    NumbersAreShort(f);
    ValidNumber(f);
    assert PutPayload(f) == PutVarint(|f.data|) + f.data;
    hide VarintBytes, PutVarint, Pow128, Low, GetVarint, PutField, PutTag, PutPayload, Zeros, ZeroEnd, ValidField, PaddedField, GetPayload;
    PaddedPayload(f, a);
    BytesPadded(f.number, f.data, a, b);
  }

  lemma FixedFieldPadded(f: Field, a: nat, b: nat)
    requires ValidField(f) && (f.Fixed64Field? || f.Fixed32Field?)
    requires 1 <= a <= 4 && a <= |PutPayload(f)| && a < |PutField(f)|
    ensures ReadsPadded(GetPayload(f.number, WireType(f), ZeroEnd(PutPayload(f), a) + Zeros(b)), PaddedField(f, a), b)
  {
    ValidNumber(f);
    hide VarintBytes, PutVarint, Pow128, Low, GetVarint, PutField, PutTag, Zeros, ZeroEnd, ValidField, PaddedField;
    PaddedPayload(f, a);
    FixedPadded(f.data, a, b);
  }

  lemma PayloadPadded(f: Field, a: nat, b: nat)
    requires ValidField(f) && 1 <= a <= 4 && a <= |PutPayload(f)| && a < |PutField(f)|
    ensures ReadsPadded(GetPayload(f.number, WireType(f), ZeroEnd(PutPayload(f), a) + Zeros(b)), PaddedField(f, a), b)
  {
    assert f.VarintField? ==> WireType(f) == 0;
    assert f.BytesField? ==> WireType(f) == 2;
    hide *;
    match f {
      case VarintField(_, _) => VarintFieldPadded(f, a, b);
      case BytesField(_, _) => BytesFieldPadded(f, a, b);
      case _ => FixedFieldPadded(f, a, b);
    }
  }

  lemma ValidNumber(f: Field)
    requires ValidField(f)
    ensures f.VarintField? ==> f.value < U64
    ensures f.BytesField? ==> |f.data| < MAX_LENGTH
    ensures f.Fixed64Field? ==> |f.data| == 8
    ensures f.Fixed32Field? ==> |f.data| == 4
  {
  }

  /** A cut tag keeps its wire type. */
  lemma TagCutReads(tag: nat, j: nat)
    requires j >= 1
    ensures Low(tag, j) % 8 == tag % 8
  {
    hide *;
    LowStep(tag, j);
    EightsApart(tag % 128, 16 * Low(tag / 128, j - 1));
    EightsApart(tag % 128, 16 * (tag / 128));
  }

  lemma EightsApart(low: nat, m: nat)
    ensures (low + 8 * m) % 8 == low % 8
  {
  }

  lemma TagPadded(f: Field, a: nat, b: nat)
    requires ValidField(f) && |PutPayload(f)| < a < |PutField(f)|
    ensures GetVarint(ZeroEnd(PutField(f), a) + Zeros(b), VarintBytes(32)) ==
            Some((CutTag(f, a), Zeros(a - 1 + b)))
  {
    NumbersAreShort(f);
    var j := |PutField(f)| - a;
    assert PutField(f)[..j] == PutTag(f)[..j] && PutTag(f) == PutVarint(TagNumber(f));
    hide PutVarint, GetVarint, Pow128, Low, PutField, VarintBytes;
    ZerosSplit(a, b);
    ZerosRefused(a + b);
    assert ZeroEnd(PutField(f), a) + Zeros(b) == PutTag(f)[..j] + ([0] + Zeros(a - 1 + b));
    VarintPadded(TagNumber(f), j, Zeros(a - 1 + b), VarintBytes(32));
  }

  lemma GetFieldRefuses(b: Bytes, tag: nat, rest: Bytes)
    requires GetVarint(b, VarintBytes(32)) == Some((tag, rest)) && tag % U32 / 8 == 0
    ensures GetField(b) == None
  {
    hide GetVarint, VarintBytes;
  }

  lemma TagCutField(f: Field, a: nat)
    requires ValidField(f) && |PutPayload(f)| < a <= 4 && a < |PutField(f)|
    ensures f.VarintField? || f.BytesField?
    ensures PaddedField(f, a) ==
            var number := CutTag(f, a) / 8;
            if number == 0 then None
            else Some((if f.VarintField? then VarintField(number, 0) else BytesField(number, []), a - 2))
  {
    NumbersAreShort(f);
    hide PutVarint, Pow128, Low, PutField, VarintBytes, ValidField, CutTag;
  }

  lemma TagCutType(f: Field, a: nat)
    requires ValidField(f) && |PutPayload(f)| < a < |PutField(f)|
    ensures CutTag(f, a) < U32 && CutTag(f, a) % 8 == WireType(f)
  {
    NumbersAreShort(f);
    assert TagNumber(f) % 8 == WireType(f);
    assert CutTag(f, a) == Low(TagNumber(f), |PutField(f)| - a);
    hide *;
    TagCutReads(TagNumber(f), |PutField(f)| - a);
  }

  lemma CutTagReads(f: Field, got: Bytes, tag: nat, left: nat)
    requires f.VarintField? || f.BytesField?
    requires GetVarint(got, VarintBytes(32)) == Some((tag, Zeros(left))) && left >= 1
    requires tag < U32 && tag % 8 == WireType(f)
    ensures GetField(got) ==
            var number := tag / 8;
            if number == 0 then None
            else Some((if f.VarintField? then VarintField(number, 0) else BytesField(number, []), Zeros(left - 1)))
  {
    hide *;
    SmallTag(tag);
    CutWireType(f);
    if tag / 8 == 0 {
      GetFieldRefuses(got, tag, Zeros(left));
    } else {
      GetFieldReads(got, tag, Zeros(left), tag / 8, WireType(f));
      ZerosRead(tag / 8, left);
    }
  }

  lemma SmallTag(tag: nat)
    requires tag < U32
    ensures tag % U32 / 8 == tag / 8
  {
  }

  lemma CutWireType(f: Field)
    ensures f.VarintField? ==> WireType(f) == 0
    ensures f.BytesField? ==> WireType(f) == 2
  {
  }

  lemma HasPayload(f: Field)
    requires ValidField(f)
    ensures |PutPayload(f)| >= 1
  {
    NumbersAreShort(f);
  }

  lemma TagCut(f: Field, a: nat, b: nat)
    requires ValidField(f) && |PutPayload(f)| < a <= 4 && a < |PutField(f)|
    ensures ReadsPadded(GetField(ZeroEnd(PutField(f), a) + Zeros(b)), PaddedField(f, a), b)
  {
    hide *;
    HasPayload(f);
    TagPadded(f, a, b);
    TagCutType(f, a);
    TagCutField(f, a);
    var r := GetField(ZeroEnd(PutField(f), a) + Zeros(b));
    CutTagReads(f, ZeroEnd(PutField(f), a) + Zeros(b), CutTag(f, a), a - 1 + b);
    if PaddedField(f, a).Some? {
      ReadsPaddedSome(r, PaddedField(f, a).value.0, a - 2, b);
    } else {
      ReadsPaddedNone(b);
    }
  }

  lemma ReadsPaddedNone(b: nat)
    ensures ReadsPadded(None, None, b)
  {
  }

  /** A field whose last bytes, and everything behind it, are zeros. */
  lemma FieldPadded(f: Field, a: nat, b: nat)
    requires ValidField(f) && 1 <= a <= 4 && a < |PutField(f)|
    ensures ReadsPadded(GetField(ZeroEnd(PutField(f), a) + Zeros(b)), PaddedField(f, a), b)
  {
    if a <= |PutPayload(f)| {
      ZeroEndOfSum(PutTag(f), PutPayload(f), a);
      Associates(PutTag(f), ZeroEnd(PutPayload(f), a), Zeros(b));
      PayloadPadded(f, a, b);
      hide GetField, GetPayload, PaddedField, PutTag, PutPayload, Zeros;
      GetFieldSplits(f, ZeroEnd(PutPayload(f), a) + Zeros(b));
    } else {
      TagCut(f, a, b);
    }
  }

  // ---------- a whole message ----------

  lemma FirstThen(f: Field, rest: Bytes)
    requires ValidField(f)
    ensures GetFields(PutField(f) + rest) == if GetFields(rest).Some? then Some([f] + GetFields(rest).value) else None
  {
    hide PutField, GetField, GetFields, ValidField;
    FieldRoundTrip(f, rest);
    FirstField(PutField(f) + rest, f, rest);
  }

  lemma {:induction false} FieldsThen(fs: seq<Field>, b: Bytes)
    requires AllValid(fs)
    ensures GetFields(PutFields(fs) + b) == if GetFields(b).Some? then Some(fs + GetFields(b).value) else None
    decreases |fs|
  {
    hide PutField, GetFields, ValidField;
    if fs == [] {
      assert PutFields(fs) + b == b;
      assert GetFields(b).Some? ==> fs + GetFields(b).value == GetFields(b).value;
    } else {
      FieldsThen(fs[1..], b);
      assert fs[0] in fs;
      Associates(PutField(fs[0]), PutFields(fs[1..]), b);
      FirstThen(fs[0], PutFields(fs[1..]) + b);
      assert GetFields(b).Some? ==> [fs[0]] + (fs[1..] + GetFields(b).value) == fs + GetFields(b).value;
    }
  }

  lemma {:induction false} PutFieldsSplits(fs: seq<Field>)
    requires fs != []
    ensures PutFields(fs) == PutFields(fs[..|fs| - 1]) + PutField(fs[|fs| - 1])
    decreases |fs|
  {
    hide PutField;
    var n := |fs| - 1;
    if n == 0 {
      assert PutFields(fs[1..]) == [] && fs[..0] == [];
    } else {
      PutFieldsSplits(fs[1..]);
      assert fs[1..][..n - 1] == fs[..n][1..] && fs[..n][0] == fs[0];
      assert PutFields(fs[..n]) == PutField(fs[0]) + PutFields(fs[..n][1..]);
      assert PutFields(fs) == PutField(fs[0]) + PutFields(fs[1..]);
      hide PutFields;
      Associates(PutField(fs[0]), PutFields(fs[1..][..n - 1]), PutField(fs[n]));
    }
  }

  lemma ZeroEndOfMore(a: Bytes, b: Bytes, m: nat)
    requires |b| <= m <= |a + b|
    ensures ZeroEnd(a + b, m) == ZeroEnd(a, m - |b|) + Zeros(|b|)
  {
    ZerosSplit(m - |b|, |b|);
  }

  lemma FieldsHaveTwoBytes(f: Field)
    requires ValidField(f)
    ensures |PutField(f)| >= 2
  {
    NumbersAreShort(f);
  }

  lemma FieldsThenZeros(fs: seq<Field>, m: nat)
    requires AllValid(fs) && m >= 1
    ensures GetFields(PutFields(fs) + Zeros(m)) == None
  {
    hide GetFields, PutFields, AllValid, Zeros;
    FieldsThen(fs, Zeros(m));
    ZerosRefused(m);
  }

  lemma ZeroEndIsSplit(a: Bytes, b: Bytes, c: Bytes)
    ensures ZeroEnd(a + b, |b|) + c == a + (Zeros(|b|) + c)
  {
  }

  lemma LastErased(first: seq<Field>, last: Bytes, b: nat)
    requires AllValid(first) && b >= 1
    ensures GetFields(ZeroEnd(PutFields(first) + last, |last|) + Zeros(b)) == None
  {
    hide GetFields, PutFields, Zeros, ZeroEnd, AllValid;
    ZeroEndIsSplit(PutFields(first), last, Zeros(b));
    ZerosSplit(|last|, b);
    FieldsThenZeros(first, |last| + b);
  }

  lemma LastReached(first: seq<Field>, last: Field, a: nat, b: nat)
    requires AllValid(first) && ValidField(last) && 1 <= a <= 4 && a < |PutField(last)| && b >= 1
    ensures a <= |PutFields(first) + PutField(last)|
    ensures GetFields(ZeroEnd(PutFields(first) + PutField(last), a) + Zeros(b)) == None
  {
    hide GetFields, PutField, PutFields, Zeros, ZeroEnd, AllValid, PaddedField, ValidField;
    ZeroEndOfSum(PutFields(first), PutField(last), a);
    Associates(PutFields(first), ZeroEnd(PutField(last), a), Zeros(b));
    FieldsThen(first, ZeroEnd(PutField(last), a) + Zeros(b));
    OneThenZeros(last, a, b);
  }

  /** Zeros from inside some fields on, and at least one behind them. */
  lemma LastThenZeros(fs: seq<Field>, a: nat, b: nat)
    requires AllValid(fs) && 1 <= b && a <= 2 && a <= |PutFields(fs)|
    ensures GetFields(ZeroEnd(PutFields(fs), a) + Zeros(b)) == None
  {
    if a == 0 {
      assert ZeroEnd(PutFields(fs), a) == PutFields(fs);
      FieldsThenZeros(fs, b);
    } else {
      assert fs != [];
      var first, last := fs[..|fs| - 1], fs[|fs| - 1];
      assert last in fs && AllValid(first);
      PutFieldsSplits(fs);
      FieldsHaveTwoBytes(last);
      hide *;
      if a == |PutField(last)| {
        LastErased(first, PutField(last), b);
      } else {
        LastReached(first, last, a, b);
      }
    }
  }

  lemma OneThenZeros(f: Field, a: nat, b: nat)
    requires ValidField(f) && 1 <= a <= 4 && a < |PutField(f)|
    ensures PaddedField(f, a).None? ==> GetFields(ZeroEnd(PutField(f), a) + Zeros(b)) == None
    ensures PaddedField(f, a).Some? ==>
              GetFields(ZeroEnd(PutField(f), a) + Zeros(b)) ==
              if PaddedField(f, a).value.1 + b == 0 then Some([PaddedField(f, a).value.0]) else None
  {
    hide GetField, GetFields, PaddedField, ValidField, Zeros, ZeroEnd, PutField;
    FieldPadded(f, a, b);
    var got := ZeroEnd(PutField(f), a) + Zeros(b);
    if PaddedField(f, a).Some? {
      var g, left := PaddedField(f, a).value.0, PaddedField(f, a).value.1;
      FirstField(got, g, Zeros(left + b));
      EndOrZeros(g, left + b);
    } else {
      NoFirstField(got);
    }
  }

  lemma NoFirstField(b: Bytes)
    requires b != [] && GetField(b) == None
    ensures GetFields(b) == None
  {
    hide GetField;
  }

  lemma EndOrZeros(g: Field, m: nat)
    ensures (if GetFields(Zeros(m)).Some? then Some([g] + GetFields(Zeros(m)).value) else None) ==
            if m == 0 then Some([g]) else None
  {
    if m > 0 {
      ZerosRefused(m);
    } else {
      assert Zeros(0) == [] && [g] + [] == [g];
    }
  }

  /** What fields whose last m bytes are zeros parse to: nothing unless the zeros begin inside
      the last field and what is read from that field uses all of them. */
  function PaddedFields(fs: seq<Field>, m: nat): Option<seq<Field>>
    requires AllValid(fs) && 1 <= m <= 4 && fs != []
  {
    var last := fs[|fs| - 1];
    assert last in fs;
    if m >= |PutField(last)| then None
    else
      match PaddedField(last, m)
      case Some((g, 0)) => Some(fs[..|fs| - 1] + [g])
      case _ => None
  }

  lemma FieldsPadded(fs: seq<Field>, m: nat)
    requires AllValid(fs) && 1 <= m <= 4 && m <= |PutFields(fs)|
    ensures fs != [] && GetFields(ZeroEnd(PutFields(fs), m)) == PaddedFields(fs, m)
  {
    assert fs != [];
    var first, last := fs[..|fs| - 1], fs[|fs| - 1];
    assert last in fs && AllValid(first);
    PutFieldsSplits(fs);
    FieldsHaveTwoBytes(last);
    if m >= |PutField(last)| {
      hide GetFields, PutField, PutFields, PaddedField, ValidField, Zeros, ZeroEnd;
      ZeroEndOfMore(PutFields(first), PutField(last), m);
      LastThenZeros(first, m - |PutField(last)|, |PutField(last)|);
    } else {
      assert PaddedFields(fs, m) ==
             match PaddedField(last, m)
             case Some((g, 0)) => Some(first + [g])
             case _ => None;
      hide *;
      ZeroEndOfSum(PutFields(first), PutField(last), m);
      FieldsThen(first, ZeroEnd(PutField(last), m));
      OnePadded(last, m);
    }
  }

  lemma OnePadded(f: Field, m: nat)
    requires ValidField(f) && 1 <= m <= 4 && m < |PutField(f)|
    ensures GetFields(ZeroEnd(PutField(f), m)) ==
            match PaddedField(f, m)
            case Some((g, 0)) => Some([g])
            case _ => None
  {
    assert ZeroEnd(PutField(f), m) + Zeros(0) == ZeroEnd(PutField(f), m);
    hide GetFields, PutField, PaddedField, ValidField, Zeros, ZeroEnd;
    OneThenZeros(f, m, 0);
  }
}
