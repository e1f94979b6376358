/** The protocol buffers wire format: base 128 varints and tagged fields, as the sections
    "Base 128 Varints" and "Message Structure" of the Protocol Buffers Encoding
    specification give them. */
module Wire {
  import opened Options

  type Byte = b: nat | b < 256
  type Bytes = seq<Byte>

  const U32: nat := 0x1_0000_0000
  const U64: nat := 0x1_0000_0000_0000_0000

  // ---------- varints ----------

  function PutVarint(n: nat): (b: Bytes)
    ensures |b| >= 1
  {
    if n < 128 then [n] else [128 + n % 128] + PutVarint(n / 128)
  }

  /** The value and the bytes behind it; at most `limit` bytes are looked at. */
  function GetVarint(b: Bytes, limit: nat): (r: Option<(nat, Bytes)>)
    ensures r.Some? ==> |r.value.1| < |b| && r.value.1 == b[|b| - |r.value.1|..]
    decreases limit
  {
    if b == [] || limit == 0 then None
    else if b[0] < 128 then Some((b[0], b[1..]))
    else
      match GetVarint(b[1..], limit - 1)
      case None => None
      case Some((high, rest)) => Some((b[0] - 128 + 128 * high, rest))
  }

  function Pow128(n: nat): (p: nat)
    ensures p >= 1
  {
    if n == 0 then 1 else 128 * Pow128(n - 1)
  }

  /** How many bytes a varint of so many bits may take: seven bits go in each. */
  function VarintBytes(bits: nat): (n: nat)
    ensures bits > 0 ==> n > 0
  {
    (bits + 6) / 7
  }

  lemma Pow128Bounds()
    ensures U32 <= Pow128(VarintBytes(32)) && U64 <= Pow128(VarintBytes(64))
  {
    assert VarintBytes(32) == 5 && VarintBytes(64) == 10;
    assert Pow128(5) == 0x8_0000_0000;
    assert Pow128(10) == 128 * 128 * 128 * 128 * 128 * Pow128(5);
  }

  lemma SevenBits(n: nat, p: nat)
    ensures 128 * (n / 128) + n % 128 == n
    ensures n < 128 * p ==> n / 128 < p
  {
  }

  lemma VarintContinues(low: Byte, tail: Bytes, limit: nat)
    requires low >= 128 && limit > 0
    ensures GetVarint([low] + tail, limit) ==
            match GetVarint(tail, limit - 1)
            case None => None
            case Some((high, rest)) => Some((low - 128 + 128 * high, rest))
  {
    assert ([low] + tail)[1..] == tail;
  }

  lemma PutVarintStep(n: nat)
    requires n >= 128
    ensures 128 <= 128 + n % 128 < 256
    ensures PutVarint(n) == [128 + n % 128] + PutVarint(n / 128)
  {
  }

  lemma OneByteRoundTrip(n: nat, rest: Bytes, limit: nat)
    requires n < 128 && limit > 0
    ensures GetVarint(PutVarint(n) + rest, limit) == Some((n, rest))
  {
    var b := PutVarint(n) + rest;
    assert b[0] == n && b[1..] == rest;
  }

  lemma {:induction false} VarintRoundTrip(n: nat, rest: Bytes, limit: nat)
    requires n < Pow128(limit) && limit > 0
    ensures GetVarint(PutVarint(n) + rest, limit) == Some((n, rest))
    decreases limit
  {
    if n < 128 {
      OneByteRoundTrip(n, rest, limit);
    } else {
      SevenBits(n, Pow128(limit - 1));
      assert n / 128 < Pow128(limit - 1) && limit > 1;
      hide GetVarint, PutVarint, Pow128;
      VarintRoundTrip(n / 128, rest, limit - 1);
      PutVarintStep(n);
      var low: Byte := 128 + n % 128;
      VarintContinues(low, PutVarint(n / 128) + rest, limit);
      Associates([low], PutVarint(n / 128), rest);
    }
  }

  lemma {:induction false} VarintCutShort(n: nat, k: nat, limit: nat)
    requires k < |PutVarint(n)|
    ensures GetVarint(PutVarint(n)[..k], limit) == None
    decreases k
  {
    if k > 0 && limit > 0 {
      assert n >= 128;
      assert PutVarint(n)[..k][1..] == PutVarint(n / 128)[..k - 1];
      VarintCutShort(n / 128, k - 1, limit - 1);
    }
  }

  /** A uint32 takes at most five bytes. */
  lemma {:induction false} VarintLength(n: nat, limit: nat)
    requires n < Pow128(limit) && limit > 0
    ensures |PutVarint(n)| <= limit
    decreases limit
  {
    if n >= 128 {
      VarintLength(n / 128, limit - 1);
    }
  }

  // ---------- fields ----------

  /** One field as it travels: wire type 0 carries a 64-bit number, wire type 2 a
      length and that many bytes, wire types 1 and 5 eight and four bytes. */
  datatype Field =
    | VarintField(number: nat, value: nat)
    | BytesField(number: nat, data: Bytes)
    | Fixed64Field(number: nat, data: Bytes)
    | Fixed32Field(number: nat, data: Bytes)

  const MAX_LENGTH: nat := 0x8000_0000

  predicate ValidField(f: Field) {
    && 0 < f.number < 0x2000_0000
    && match f
       case VarintField(_, value) => value < U64
       case BytesField(_, data) => |data| < MAX_LENGTH
       case Fixed64Field(_, data) => |data| == 8
       case Fixed32Field(_, data) => |data| == 4
  }

  function WireType(f: Field): nat {
    match f
    case VarintField(_, _) => 0
    case Fixed64Field(_, _) => 1
    case BytesField(_, _) => 2
    case Fixed32Field(_, _) => 5
  }

  function PutPayload(f: Field): Bytes {
    match f
    case VarintField(_, value) => PutVarint(value)
    case BytesField(_, data) => PutVarint(|data|) + data
    case Fixed64Field(_, data) => data
    case Fixed32Field(_, data) => data
  }

  function PutTag(f: Field): Bytes {
    PutVarint(f.number * 8 + WireType(f))
  }

  function PutField(f: Field): Bytes {
    PutTag(f) + PutPayload(f)
  }

  function Take(b: Bytes, n: nat): (r: Option<(Bytes, Bytes)>) {
    if |b| < n then None else Some((b[..n], b[n..]))
  }

  /** The payload that follows a tag; wire types 3, 4, 6 and 7 are refused. */
  function GetPayload(number: nat, wireType: nat, b: Bytes): (r: Option<(Field, Bytes)>)
    ensures r.Some? ==> |r.value.1| <= |b|
  {
    match wireType
    case 0 =>
      (match GetVarint(b, VarintBytes(64))
       case None => None
       case Some((value, rest)) => Some((VarintField(number, value % U64), rest)))
    case 1 =>
      (match Take(b, 8)
       case None => None
       case Some((data, rest)) => Some((Fixed64Field(number, data), rest)))
    case 2 =>
      (match GetVarint(b, VarintBytes(32))
       case None => None
       case Some((length, rest)) =>
         if length >= MAX_LENGTH then None
         else
           match Take(rest, length)
           case None => None
           case Some((data, after)) => Some((BytesField(number, data), after)))
    case 5 =>
      (match Take(b, 4)
       case None => None
       case Some((data, rest)) => Some((Fixed32Field(number, data), rest)))
    case _ => None
  }

  function GetField(b: Bytes): (r: Option<(Field, Bytes)>)
    ensures r.Some? ==> |r.value.1| < |b|
  {
    match GetVarint(b, VarintBytes(32))
    case None => None
    case Some((tag, rest)) =>
      var number := tag % U32 / 8;
      if number == 0 then None else GetPayload(number, tag % 8, rest)
  }

  function PutFields(fs: seq<Field>): Bytes {
    if fs == [] then [] else PutField(fs[0]) + PutFields(fs[1..])
  }

  function GetFields(b: Bytes): Option<seq<Field>>
    decreases |b|
  {
    if b == [] then Some([])
    else
      match GetField(b)
      case None => None
      case Some((f, rest)) =>
        match GetFields(rest)
        case None => None
        case Some(fs) => Some([f] + fs)
  }

  // ---------- parsing inverts printing, and cuts are noticed ----------

  lemma TagSplits(number: nat, wireType: nat)
    requires number < 0x2000_0000 && wireType < 8
    ensures var tag := number * 8 + wireType; tag < U32 && tag % U32 / 8 == number && tag % 8 == wireType
  {
  }

  lemma TagRoundTrip(number: nat, wireType: nat, rest: Bytes)
    requires number < 0x2000_0000 && wireType < 8
    ensures GetVarint(PutVarint(number * 8 + wireType) + rest, VarintBytes(32)) == Some((number * 8 + wireType, rest))
  {
    var tag := number * 8 + wireType;
    Pow128Bounds();
    TagSplits(number, wireType);
    VarintRoundTrip(tag, rest, VarintBytes(32));
  }

  lemma NumberRoundTrip(number: nat, value: nat, rest: Bytes)
    requires value < U64
    ensures GetPayload(number, 0, PutVarint(value) + rest) == Some((VarintField(number, value), rest))
  {
    Pow128Bounds();
    hide Pow128, VarintBytes;
    VarintRoundTrip(value, rest, VarintBytes(64));
  }

  lemma DelimitedRoundTrip(number: nat, data: Bytes, rest: Bytes)
    requires |data| < MAX_LENGTH
    ensures GetPayload(number, 2, PutVarint(|data|) + data + rest) == Some((BytesField(number, data), rest))
  {
    Pow128Bounds();
    hide Pow128, VarintBytes, GetVarint, PutVarint;
    VarintRoundTrip(|data|, data + rest, VarintBytes(32));
    assert PutVarint(|data|) + data + rest == PutVarint(|data|) + (data + rest);
    TakeRoundTrip(data, rest);
  }

  lemma TakeRoundTrip(data: Bytes, rest: Bytes)
    ensures Take(data + rest, |data|) == Some((data, rest))
  {
    assert (data + rest)[..|data|] == data && (data + rest)[|data|..] == rest;
  }

  lemma PayloadRoundTrip(f: Field, rest: Bytes)
    requires ValidField(f)
    ensures GetPayload(f.number, WireType(f), PutPayload(f) + rest) == Some((f, rest))
  {
    match f {
      case VarintField(number, value) => NumberRoundTrip(number, value, rest);
      case BytesField(number, data) => DelimitedRoundTrip(number, data, rest);
      case Fixed64Field(_, data) => TakeRoundTrip(data, rest);
      case Fixed32Field(_, data) => TakeRoundTrip(data, rest);
    }
  }

  lemma Associates(a: Bytes, b: Bytes, c: Bytes)
    ensures a + b + c == a + (b + c)
  {
  }

  lemma FieldRoundTrip(f: Field, rest: Bytes)
    requires ValidField(f)
    ensures GetField(PutField(f) + rest) == Some((f, rest))
  {
    var payload := PutPayload(f);
    var tag := PutTag(f);
    Associates(tag, payload, rest);
    GetFieldSplits(f, payload + rest);
    PayloadRoundTrip(f, rest);
  }

  ghost predicate AllValid(fs: seq<Field>) {
    forall f :: f in fs ==> ValidField(f)
  }

  lemma PayloadCutShort(f: Field, k: nat)
    requires ValidField(f) && k < |PutPayload(f)|
    ensures GetPayload(f.number, WireType(f), PutPayload(f)[..k]) == None
  {
    match f {
      case VarintField(_, value) => VarintCutShort(value, k, VarintBytes(64));
      case BytesField(_, data) =>
        var length := PutVarint(|data|);
        if k < |length| {
          assert PutPayload(f)[..k] == length[..k];
          VarintCutShort(|data|, k, VarintBytes(32));
        } else {
          Pow128Bounds();
          assert PutPayload(f)[..k] == length + data[..k - |length|];
          VarintRoundTrip(|data|, data[..k - |length|], VarintBytes(32));
        }
      case _ =>
    }
  }

  lemma GetFieldReads(b: Bytes, tag: nat, rest: Bytes, number: nat, wireType: nat)
    requires GetVarint(b, VarintBytes(32)) == Some((tag, rest))
    requires tag % U32 / 8 == number && tag % 8 == wireType && number != 0
    ensures GetField(b) == GetPayload(number, wireType, rest)
  {
    hide GetVarint, GetPayload, VarintBytes;
  }

  lemma GetFieldSplits(f: Field, b: Bytes)
    requires ValidField(f)
    ensures GetField(PutTag(f) + b) == GetPayload(f.number, WireType(f), b)
  {
    hide GetVarint, GetPayload, GetField, PutVarint, VarintBytes;
    var number, wireType := f.number, WireType(f);
    TagRoundTrip(number, wireType, b);
    TagSplits(number, wireType);
    GetFieldReads(PutTag(f) + b, number * 8 + wireType, b, number, wireType);
  }

  lemma FieldCutShort(f: Field, k: nat)
    requires ValidField(f) && k < |PutField(f)|
    ensures GetField(PutField(f)[..k]) == None
  {
    var tag := PutTag(f);
    if k < |tag| {
      assert PutField(f)[..k] == tag[..k];
      VarintCutShort(f.number * 8 + WireType(f), k, VarintBytes(32));
    } else {
      var cut := PutPayload(f)[..k - |tag|];
      assert PutField(f)[..k] == tag + cut;
      PayloadCutShort(f, k - |tag|);
      GetFieldSplits(f, cut);
    }
  }

  lemma PutFieldsPrefix(fs: seq<Field>, m: nat)
    requires 1 <= m <= |fs|
    ensures PutFields(fs[..m]) == PutField(fs[0]) + PutFields(fs[1..][..m - 1])
    ensures fs[..m] == [fs[0]] + fs[1..][..m - 1]
  {
    assert fs[..m][0] == fs[0] && fs[..m][1..] == fs[1..][..m - 1];
  }

  lemma CutInFirst(fs: seq<Field>, k: nat)
    requires AllValid(fs) && fs != [] && 0 < k < |PutField(fs[0])|
    ensures k <= |PutFields(fs)| && GetFields(PutFields(fs)[..k]) == None
  {
    assert PutFields(fs)[..k] == PutField(fs[0])[..k];
    FieldCutShort(fs[0], k);
  }

  lemma CutBehindFirst(fs: seq<Field>, k: nat)
    requires AllValid(fs) && fs != [] && |PutField(fs[0])| <= k <= |PutFields(fs)|
    ensures var rest := GetFields(PutFields(fs[1..])[..k - |PutField(fs[0])|]);
            GetFields(PutFields(fs)[..k]) == if rest.Some? then Some([fs[0]] + rest.value) else None
  {
    hide PutField, GetField, ValidField;
    var first := PutField(fs[0]);
    var rest := PutFields(fs[1..])[..k - |first|];
    assert PutFields(fs)[..k] == first + rest;
    assert fs[0] in fs;
    FieldRoundTrip(fs[0], rest);
  }

  /** A cut between two fields leaves the fields before it. */
  lemma {:induction false} ParsesBetweenFields(fs: seq<Field>, m: nat)
    requires AllValid(fs) && m <= |fs|
    ensures |PutFields(fs[..m])| <= |PutFields(fs)|
    ensures GetFields(PutFields(fs)[..|PutFields(fs[..m])|]) == Some(fs[..m])
    decreases m
  {
    if m == 0 {
      assert fs[..0] == [];
    } else {
      PutFieldsPrefix(fs, m);
      ParsesBetweenFields(fs[1..], m - 1);
      CutBehindFirst(fs, |PutFields(fs[..m])|);
    }
  }

  /** And nothing else parses. */
  lemma {:induction false} ParsedCutIsBetweenFields(fs: seq<Field>, k: nat) returns (m: nat)
    requires AllValid(fs) && k <= |PutFields(fs)|
    requires GetFields(PutFields(fs)[..k]).Some?
    ensures m <= |fs| && k == |PutFields(fs[..m])|
    decreases |fs|
  {
    if k == 0 {
      m := 0;
      assert fs[..0] == [];
    } else if k < |PutField(fs[0])| {
      CutInFirst(fs, k);
    } else {
      CutBehindFirst(fs, k);
      var n := ParsedCutIsBetweenFields(fs[1..], k - |PutField(fs[0])|);
      m := n + 1;
      PutFieldsPrefix(fs, m);
    }
  }

  /** A message cut at any byte parses exactly when the cut falls between two fields, and
      then as the fields before it.  The uncut message is the last such cut. */
  lemma ParsesIffCutBetweenFields(fs: seq<Field>, k: nat)
    requires AllValid(fs) && k <= |PutFields(fs)|
    ensures GetFields(PutFields(fs)[..k]).Some? <==> exists m :: 0 <= m <= |fs| && k == |PutFields(fs[..m])|
    ensures forall m :: 0 <= m <= |fs| && k == |PutFields(fs[..m])| ==> GetFields(PutFields(fs)[..k]) == Some(fs[..m])
  {
    if GetFields(PutFields(fs)[..k]).Some? {
      var m := ParsedCutIsBetweenFields(fs, k);
    }
    forall m | 0 <= m <= |fs| && k == |PutFields(fs[..m])|
      ensures GetFields(PutFields(fs)[..k]) == Some(fs[..m])
    {
      ParsesBetweenFields(fs, m);
    }
  }

  lemma FieldsRoundTrip(fs: seq<Field>)
    requires AllValid(fs)
    ensures GetFields(PutFields(fs)) == Some(fs)
  {
    assert fs[..|fs|] == fs;
    assert PutFields(fs)[..|PutFields(fs)|] == PutFields(fs);
    ParsesBetweenFields(fs, |fs|);
  }
}
