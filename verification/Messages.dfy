/** The messages of pb/testpb.proto.  A message is serialized as its present fields in
    order of number, then the fields the receiver does not know; parsing starts from an
    empty message and lets later fields override earlier ones. */
module Messages {
  import opened Options
  import opened Wire

  datatype Head = Head(seq_: Option<nat>, data: Option<Bytes>, unknown: seq<Field>)
  datatype DataReq = DataReq(cmd: Option<nat>, query: Option<nat>, unknown: seq<Field>)
  datatype DataRsp = DataRsp(cmd: Option<nat>, data: Option<nat>, msg: Option<Bytes>, unknown: seq<Field>)

  // ---------- fields of known number and kind ----------

  predicate IsVarint(f: Field, number: nat) {
    f.VarintField? && f.number == number
  }

  predicate IsBytes(f: Field, number: nat) {
    f.BytesField? && f.number == number
  }

  function OptVarint(number: nat, v: Option<nat>): seq<Field> {
    if v.Some? then [VarintField(number, v.value)] else []
  }

  function OptBytes(number: nat, v: Option<Bytes>): seq<Field> {
    if v.Some? then [BytesField(number, v.value)] else []
  }

  predicate ValidU32(v: Option<nat>) {
    v.Some? ==> v.value < U32
  }

  predicate ValidBytes(v: Option<Bytes>) {
    v.Some? ==> |v.value| < MAX_LENGTH
  }

  // ---------- Head ----------

  predicate KnownToHead(f: Field) {
    IsVarint(f, 1) || IsBytes(f, 2)
  }

  ghost predicate ValidHead(h: Head) {
    && ValidU32(h.seq_) && ValidBytes(h.data)
    && AllValid(h.unknown) && forall f :: f in h.unknown ==> !KnownToHead(f)
  }

  function HeadFields(h: Head): seq<Field> {
    OptVarint(1, h.seq_) + (OptBytes(2, h.data) + h.unknown)
  }

  function MergeHead(h: Head, fs: seq<Field>): Head
    decreases |fs|
  {
    if fs == [] then h
    else
      var f := fs[0];
      MergeHead(
        if IsVarint(f, 1) then h.(seq_ := Some(f.value % U32))
        else if IsBytes(f, 2) then h.(data := Some(f.data))
        else h.(unknown := h.unknown + [f]),
        fs[1..])
  }

  function SerializeHead(h: Head): Bytes {
    PutFields(HeadFields(h))
  }

  function ParseHead(b: Bytes): Option<Head> {
    match GetFields(b)
    case None => None
    case Some(fs) => Some(MergeHead(Head(None, None, []), fs))
  }

  lemma {:induction false} MergeHeadUnknown(h: Head, fs: seq<Field>)
    requires forall f :: f in fs ==> !KnownToHead(f)
    ensures MergeHead(h, fs) == h.(unknown := h.unknown + fs)
    decreases |fs|
  {
    if fs != [] {
      assert fs[0] in fs;
      MergeHeadUnknown(h.(unknown := h.unknown + [fs[0]]), fs[1..]);
      assert h.unknown + [fs[0]] + fs[1..] == h.unknown + fs;
    } else {
      assert h.unknown + fs == h.unknown;
    }
  }

  lemma HeadTailMerges(h: Head)
    requires ValidHead(h)
    ensures MergeHead(h.(unknown := [], data := None), OptBytes(2, h.data) + h.unknown) == h
  {
    var tail := OptBytes(2, h.data) + h.unknown;
    MergeHeadUnknown(h.(unknown := []), h.unknown);
    assert [] + h.unknown == h.unknown;
    if h.data.Some? { assert tail[1..] == h.unknown; } else { assert tail == h.unknown; }
  }

  lemma HeadFieldsValid(h: Head)
    requires ValidHead(h)
    ensures AllValid(HeadFields(h))
  {
  }

  lemma HeadMerges(h: Head)
    requires ValidHead(h)
    ensures AllValid(HeadFields(h)) && MergeHead(Head(None, None, []), HeadFields(h)) == h
  {
    HeadFieldsValid(h);
    HeadTailMerges(h);
    var tail := OptBytes(2, h.data) + h.unknown;
    if h.seq_.Some? { assert HeadFields(h)[1..] == tail; } else { assert HeadFields(h) == tail; }
  }

  lemma HeadRoundTrip(h: Head)
    requires ValidHead(h)
    ensures ParseHead(SerializeHead(h)) == Some(h)
  {
    HeadMerges(h);
    FieldsRoundTrip(HeadFields(h));
  }

  /** A serialized head cut at any byte parses exactly when the cut falls between two of its
      fields, and then to the fields before it. */
  lemma CutHeadParsesIff(h: Head, k: nat)
    requires ValidHead(h) && k <= |SerializeHead(h)|
    ensures ParseHead(SerializeHead(h)[..k]).Some? <==>
              exists m :: 0 <= m <= |HeadFields(h)| && k == |PutFields(HeadFields(h)[..m])|
    ensures forall m :: 0 <= m <= |HeadFields(h)| && k == |PutFields(HeadFields(h)[..m])| ==>
              ParseHead(SerializeHead(h)[..k]) == Some(MergeHead(Head(None, None, []), HeadFields(h)[..m]))
  {
    HeadFieldsValid(h);
    hide HeadFields, MergeHead, GetFields, PutFields, ValidHead, AllValid;
    ParsesIffCutBetweenFields(HeadFields(h), k);
  }

  // ---------- DataReq ----------

  ghost predicate ValidReq(m: DataReq) {
    && ValidU32(m.cmd) && ValidU32(m.query)
    && AllValid(m.unknown) && forall f :: f in m.unknown ==> !(IsVarint(f, 1) || IsVarint(f, 2))
  }

  function ReqFields(m: DataReq): seq<Field> {
    OptVarint(1, m.cmd) + (OptVarint(2, m.query) + m.unknown)
  }

  function MergeReq(m: DataReq, fs: seq<Field>): DataReq
    decreases |fs|
  {
    if fs == [] then m
    else
      var f := fs[0];
      MergeReq(
        if IsVarint(f, 1) then m.(cmd := Some(f.value % U32))
        else if IsVarint(f, 2) then m.(query := Some(f.value % U32))
        else m.(unknown := m.unknown + [f]),
        fs[1..])
  }

  function SerializeReq(m: DataReq): Bytes {
    PutFields(ReqFields(m))
  }

  function ParseReq(b: Bytes): Option<DataReq> {
    match GetFields(b)
    case None => None
    case Some(fs) => Some(MergeReq(DataReq(None, None, []), fs))
  }

  lemma {:induction false} MergeReqUnknown(m: DataReq, fs: seq<Field>)
    requires forall f :: f in fs ==> !(IsVarint(f, 1) || IsVarint(f, 2))
    ensures MergeReq(m, fs) == m.(unknown := m.unknown + fs)
    decreases |fs|
  {
    if fs != [] {
      assert fs[0] in fs;
      MergeReqUnknown(m.(unknown := m.unknown + [fs[0]]), fs[1..]);
      assert m.unknown + [fs[0]] + fs[1..] == m.unknown + fs;
    } else {
      assert m.unknown + fs == m.unknown;
    }
  }

  lemma ReqTailMerges(m: DataReq)
    requires ValidReq(m)
    ensures MergeReq(m.(unknown := [], query := None), OptVarint(2, m.query) + m.unknown) == m
  {
    var tail := OptVarint(2, m.query) + m.unknown;
    MergeReqUnknown(m.(unknown := []), m.unknown);
    assert [] + m.unknown == m.unknown;
    if m.query.Some? { assert tail[1..] == m.unknown; } else { assert tail == m.unknown; }
  }

  lemma ReqFieldsValid(m: DataReq)
    requires ValidReq(m)
    ensures AllValid(ReqFields(m))
  {
  }

  lemma ReqMerges(m: DataReq)
    requires ValidReq(m)
    ensures AllValid(ReqFields(m)) && MergeReq(DataReq(None, None, []), ReqFields(m)) == m
  {
    ReqFieldsValid(m);
    ReqTailMerges(m);
    assert ValidU32(m.cmd);
    hide AllValid, ValidReq;
    var tail := OptVarint(2, m.query) + m.unknown;
    if m.cmd.Some? { assert ReqFields(m)[1..] == tail; } else { assert ReqFields(m) == tail; }
  }

  lemma ReqRoundTrip(m: DataReq)
    requires ValidReq(m)
    ensures ParseReq(SerializeReq(m)) == Some(m)
  {
    ReqMerges(m);
    FieldsRoundTrip(ReqFields(m));
  }

  // ---------- DataRsp ----------

  predicate KnownToRsp(f: Field) {
    IsVarint(f, 1) || IsVarint(f, 2) || IsBytes(f, 3)
  }

  ghost predicate ValidRsp(m: DataRsp) {
    && ValidU32(m.cmd) && ValidU32(m.data) && ValidBytes(m.msg)
    && AllValid(m.unknown) && forall f :: f in m.unknown ==> !KnownToRsp(f)
  }

  function RspFields(m: DataRsp): seq<Field> {
    OptVarint(1, m.cmd) + (OptVarint(2, m.data) + (OptBytes(3, m.msg) + m.unknown))
  }

  function MergeRsp(m: DataRsp, fs: seq<Field>): DataRsp
    decreases |fs|
  {
    if fs == [] then m
    else
      var f := fs[0];
      MergeRsp(
        if IsVarint(f, 1) then m.(cmd := Some(f.value % U32))
        else if IsVarint(f, 2) then m.(data := Some(f.value % U32))
        else if IsBytes(f, 3) then m.(msg := Some(f.data))
        else m.(unknown := m.unknown + [f]),
        fs[1..])
  }

  function SerializeRsp(m: DataRsp): Bytes {
    PutFields(RspFields(m))
  }

  function ParseRsp(b: Bytes): Option<DataRsp> {
    match GetFields(b)
    case None => None
    case Some(fs) => Some(MergeRsp(DataRsp(None, None, None, []), fs))
  }

  lemma {:induction false} MergeRspUnknown(m: DataRsp, fs: seq<Field>)
    requires forall f :: f in fs ==> !KnownToRsp(f)
    ensures MergeRsp(m, fs) == m.(unknown := m.unknown + fs)
    decreases |fs|
  {
    if fs != [] {
      assert fs[0] in fs;
      MergeRspUnknown(m.(unknown := m.unknown + [fs[0]]), fs[1..]);
      assert m.unknown + [fs[0]] + fs[1..] == m.unknown + fs;
    } else {
      assert m.unknown + fs == m.unknown;
    }
  }

  lemma RspTailMerges(m: DataRsp)
    requires ValidRsp(m)
    ensures MergeRsp(m.(unknown := [], msg := None), OptBytes(3, m.msg) + m.unknown) == m
  {
    var tail := OptBytes(3, m.msg) + m.unknown;
    MergeRspUnknown(m.(unknown := []), m.unknown);
    assert [] + m.unknown == m.unknown;
    if m.msg.Some? { assert tail[1..] == m.unknown; } else { assert tail == m.unknown; }
  }

  lemma RspMerges(m: DataRsp)
    requires ValidRsp(m)
    ensures MergeRsp(DataRsp(None, None, None, []), RspFields(m)) == m
  {
    var tail := OptBytes(3, m.msg) + m.unknown;
    var two := OptVarint(2, m.data) + tail;
    RspTailMerges(m);
    assert MergeRsp(m.(unknown := [], msg := None, data := None), two) == m by {
      if m.data.Some? { assert two[1..] == tail; } else { assert two == tail; }
    }
    if m.cmd.Some? { assert RspFields(m)[1..] == two; } else { assert RspFields(m) == two; }
  }

  lemma RspRoundTrip(m: DataRsp)
    requires ValidRsp(m)
    ensures ParseRsp(SerializeRsp(m)) == Some(m)
  {
    RspMerges(m);
    assert AllValid(RspFields(m));
    FieldsRoundTrip(RspFields(m));
  }

  // ---------- what parses can be serialized again ----------

  lemma {:induction false} ParsedFieldsValid(b: Bytes)
    requires |b| < MAX_LENGTH && GetFields(b).Some?
    ensures AllValid(GetFields(b).value)
    decreases |b|
  {
    if b != [] {
      var (f, rest) := GetField(b).value;
      var tag := GetVarint(b, VarintBytes(32)).value.0;
      assert tag % U32 / 8 < 0x2000_0000;
      assert ValidField(f);
      ParsedFieldsValid(rest);
    }
  }

  lemma {:induction false} MergeHeadValid(h: Head, fs: seq<Field>)
    requires ValidHead(h) && AllValid(fs)
    ensures ValidHead(MergeHead(h, fs))
    decreases |fs|
  {
    if fs != [] {
      var f := fs[0];
      assert ValidField(f);
      MergeHeadValid(
        if IsVarint(f, 1) then h.(seq_ := Some(f.value % U32))
        else if IsBytes(f, 2) then h.(data := Some(f.data))
        else h.(unknown := h.unknown + [f]),
        fs[1..]);
    }
  }

  /** Decoding and encoding again changes nothing a receiver can see. */
  lemma ParsedHeadSurvives(b: Bytes)
    requires |b| < MAX_LENGTH && ParseHead(b).Some?
    ensures ValidHead(ParseHead(b).value)
    ensures ParseHead(SerializeHead(ParseHead(b).value)) == ParseHead(b)
  {
    ParsedFieldsValid(b);
    MergeHeadValid(Head(None, None, []), GetFields(b).value);
    HeadRoundTrip(ParseHead(b).value);
  }

  lemma {:induction false} MergeReqValid(m: DataReq, fs: seq<Field>)
    requires ValidReq(m) && AllValid(fs)
    ensures ValidReq(MergeReq(m, fs))
    decreases |fs|
  {
    if fs != [] {
      var f := fs[0];
      assert ValidField(f);
      MergeReqValid(
        if IsVarint(f, 1) then m.(cmd := Some(f.value % U32))
        else if IsVarint(f, 2) then m.(query := Some(f.value % U32))
        else m.(unknown := m.unknown + [f]),
        fs[1..]);
    }
  }

  lemma ParsedReqValid(b: Bytes)
    requires |b| < MAX_LENGTH && ParseReq(b).Some?
    ensures ValidReq(ParseReq(b).value)
  {
    ParsedFieldsValid(b);
    MergeReqValid(DataReq(None, None, []), GetFields(b).value);
  }
}
