/** Heads and frames whose last one to four bytes read as zeros. */
module PaddedHeads {
  import opened Options
  import opened Wire
  import opened Messages
  import opened Framing
  import opened Padding
  import opened Merging

  /** What a head whose last m bytes read as zeros decodes to. */
  function PaddedHead(h: Head, m: nat): Option<Head>
    requires ValidHead(h) && 1 <= m <= 4 && HeadFields(h) != []
  {
    HeadFieldsValid(h);
    match PaddedFields(HeadFields(h), m)
    case None => None
    case Some(fs) => Some(MergeHead(Head(None, None, []), fs))
  }

  lemma PaddedHeadOf(h: Head, m: nat)
    requires ValidHead(h) && 1 <= m <= 4 && m <= |SerializeHead(h)|
    ensures AllValid(HeadFields(h)) && HeadFields(h) != [] && SerializeHead(h) == PutFields(HeadFields(h))
    ensures ParseHead(ZeroEnd(SerializeHead(h), m)) ==
            match GetFields(ZeroEnd(SerializeHead(h), m))
            case None => None
            case Some(fs) => Some(MergeHead(Head(None, None, []), fs))
    ensures PaddedHead(h, m) ==
            match PaddedFields(HeadFields(h), m)
            case None => None
            case Some(fs) => Some(MergeHead(Head(None, None, []), fs))
  {
    HeadFieldsValid(h);
    hide GetFields, PaddedFields, MergeHead, ZeroEnd, ValidField;
  }

  lemma HeadPadded(h: Head, m: nat)
    requires ValidHead(h) && 1 <= m <= 4 && m <= |SerializeHead(h)|
    ensures HeadFields(h) != [] && ParseHead(ZeroEnd(SerializeHead(h), m)) == PaddedHead(h, m)
  {
    hide *;
    PaddedHeadOf(h, m);
    FieldsPadded(HeadFields(h), m);
  }

  /** Both fields of a head with small data, and nothing else, take at most this many bytes. */
  lemma SmallHeadsFit(h: Head)
    requires ValidU32(h.seq_) && h.unknown == []
    requires h.data.Some? ==> |h.data.value| < MAX_LENGTH - 16
    ensures Fits(h) && |Frame(h)| <= 16 + if h.data.Some? then |h.data.value| else 0
  {
    HeadBytes(h);
    assert PutFields(h.unknown) == [];
    Pow128Bounds();
    if h.seq_.Some? { VarintLength(h.seq_.value, VarintBytes(32)); }
    if h.data.Some? { VarintLength(|h.data.value|, VarintBytes(32)); }
  }

  lemma KnownFieldPadded(f: Field, m: nat)
    requires ValidField(f) && 1 <= m <= 4 && f.number < 16
    requires f.VarintField? || f.BytesField?
    ensures |PutField(f)| == 1 + |PutPayload(f)|
    ensures f.VarintField? ==> |PutField(f)| == 1 + |PutVarint(f.value)|
    ensures f.BytesField? && |f.data| < 128 ==> |PutField(f)| == 2 + |f.data|
    ensures f.BytesField? ==> |PutField(f)| >= 2 + |f.data|
  {
    assert PutVarint(TagNumber(f)) == [TagNumber(f)];
  }

  lemma NumberLastPadded(n: nat, m: nat)
    requires n < U32 && 1 <= m <= 4
    ensures var f := VarintField(1, n);
            PaddedFields([f], m) == if m == 1 then Some([VarintField(1, Low(n, |PutVarint(n)| - 1))]) else None
  {
    var f := VarintField(1, n);
    KnownFieldPadded(f, m);
    hide PutField, PutVarint, Low, Pow128;
    assert [f][..0] + [VarintField(1, Low(n, |PutVarint(n)| - 1))] == [VarintField(1, Low(n, |PutVarint(n)| - 1))];
  }

  lemma DataLastPadded(first: seq<Field>, d: Bytes, m: nat)
    requires AllValid(first) && |d| < MAX_LENGTH && 1 <= m <= 4
    ensures var fs := first + [BytesField(2, d)];
            AllValid(fs) &&
            PaddedFields(fs, m) ==
            if m <= |d| then Some(first + [BytesField(2, ZeroEnd(d, m))])
            else if m == 1 then Some(fs)
            else None
  {
    var f := BytesField(2, d);
    KnownFieldPadded(f, m);
    assert (first + [f])[..|first|] == first;
    hide PutField, PutVarint, ZeroEnd;
  }

  /** In particular, without unknown fields: the data ends in zeros if the zeros are all in it;
      without data the number loses its last seven bits and everything above; a single zero for
      the length of empty data is what was sent; and nothing else decodes. */
  lemma PlainHeadPadded(h: Head, m: nat)
    requires ValidHead(h) && h.unknown == [] && (h.seq_.Some? || h.data.Some?) && 1 <= m <= 4
    ensures HeadFields(h) != []
    ensures PaddedHead(h, m) ==
            if h.data.Some? then
              if m <= |h.data.value| then Some(h.(data := Some(ZeroEnd(h.data.value, m))))
              else if m == 1 then Some(h)
              else None
            else if m == 1 then Some(h.(seq_ := Some(Low(h.seq_.value, |PutVarint(h.seq_.value)| - 1))))
            else None
  {
    HeadFieldsValid(h);
    hide PutVarint, PutField, PaddedField, PaddedFields, ZeroEnd, Low;
    if h.data.Some? {
      var d := h.data.value;
      assert HeadFields(h) == OptVarint(1, h.seq_) + [BytesField(2, d)];
      DataLastPadded(OptVarint(1, h.seq_), d, m);
      HeadMerges(h);
      if m <= |d| {
        var t := h.(data := Some(ZeroEnd(d, m)));
        assert HeadFields(t) == OptVarint(1, h.seq_) + [BytesField(2, ZeroEnd(d, m))];
        HeadMerges(t);
      }
    } else {
      var n := h.seq_.value;
      assert HeadFields(h) == [VarintField(1, n)];
      NumberLastPadded(n, m);
      var t := h.(seq_ := Some(Low(n, |PutVarint(n)| - 1)));
      assert HeadFields(t) == [VarintField(1, Low(n, |PutVarint(n)| - 1))];
      HeadMerges(t);
    }
  }

  // ---------- what is intact ----------

  lemma EndsIn(a: Bytes, b: Bytes, m: nat)
    requires m <= |b|
    ensures (a + b)[|a + b| - m..] == b[|b| - m..]
  {
  }

  lemma ZeroEndsIn(d: Bytes, m: nat)
    requires m <= |d| && ZeroEnd(d, m) == d
    ensures d[|d| - m..] == Zeros(m)
  {
    assert ZeroEnd(d, m)[|d| - m..] == Zeros(m);
  }

  lemma NotReduced(n: nat, j: nat)
    requires Low(n, j) == n
    ensures n < Pow128(j)
  {
  }

  lemma ReducedNumber(n: nat)
    requires Low(n, |PutVarint(n)| - 1) == n
    ensures PutVarint(n) == [0]
  {
    var j := |PutVarint(n)| - 1;
    NotReduced(n, j);
    if j > 0 {
      hide Low, Pow128;
      VarintLength(n, j);
    }
  }

  lemma CutTagDiffers(f: Field, a: nat)
    requires ValidField(f) && |PutPayload(f)| < a < |PutField(f)|
    ensures CutTag(f, a) / 8 != f.number
  {
    TagCutType(f, a);
    var j := |PutField(f)| - a;
    assert 1 <= j < |PutVarint(TagNumber(f))|;
    assert TagNumber(f) / 8 == f.number && TagNumber(f) % 8 == WireType(f);
    hide PutField, PutVarint, Pow128, ValidField, WireType, PutPayload;
    if CutTag(f, a) / 8 == f.number {
      assert CutTag(f, a) == TagNumber(f);
      NotReduced(TagNumber(f), j);
      VarintLength(TagNumber(f), j);
    }
  }

  lemma FieldIntact(f: Field, m: nat)
    requires ValidField(f) && 1 <= m <= 4 && m < |PutField(f)|
    requires PaddedField(f, m) == Some((f, 0))
    ensures PutField(f)[|PutField(f)| - m..] == Zeros(m)
  {
    assert PutField(f) == PutTag(f) + PutPayload(f);
    if m <= |PutPayload(f)| {
      PayloadIntact(f, m);
      hide *;
      EndsIn(PutTag(f), PutPayload(f), m);
    } else {
      hide *;
      CutTagDiffers(f, m);
      TagCutField(f, m);
      assert false;
    }
  }

  lemma SingleZero()
    ensures [0] == Zeros(1)
  {
  }

  lemma VarintIntact(f: Field, m: nat)
    requires ValidField(f) && f.VarintField? && 1 <= m <= 4 && m <= |PutPayload(f)| && m < |PutField(f)|
    requires PaddedField(f, m) == Some((f, 0))
    ensures PutPayload(f)[|PutPayload(f)| - m..] == Zeros(m)
  {
    hide *;
    PaddedPayload(f, m);
    VarintFieldFacts(f);
    ReducedNumber(f.value);
    SingleZero();
  }

  lemma BytesFieldFacts(f: Field)
    requires ValidField(f) && f.BytesField?
    ensures PutPayload(f) == PutVarint(|f.data|) + f.data
    ensures f.data == [] ==> PutPayload(f) == [0]
  {
  }

  lemma BytesIntact(f: Field, m: nat)
    requires ValidField(f) && f.BytesField? && 1 <= m <= 4 && m <= |PutPayload(f)| && m < |PutField(f)|
    requires PaddedField(f, m) == Some((f, 0))
    ensures PutPayload(f)[|PutPayload(f)| - m..] == Zeros(m)
  {
    hide *;
    PaddedPayload(f, m);
    BytesFieldFacts(f);
    if m <= |f.data| {
      ZeroEndsIn(f.data, m);
      EndsIn(PutVarint(|f.data|), f.data, m);
    } else {
      SingleZero();
    }
  }

  lemma PayloadIntact(f: Field, m: nat)
    requires ValidField(f) && 1 <= m <= 4 && m <= |PutPayload(f)| && m < |PutField(f)|
    requires PaddedField(f, m) == Some((f, 0))
    ensures PutPayload(f)[|PutPayload(f)| - m..] == Zeros(m)
  {
    FixedFieldFacts(f);
    hide *;
    match f {
      case VarintField(_, _) => VarintIntact(f, m);
      case BytesField(_, _) => BytesIntact(f, m);
      case _ =>
        PaddedPayload(f, m);
        ZeroEndsIn(f.data, m);
    }
  }

  lemma FixedFieldFacts(f: Field)
    ensures f.Fixed64Field? || f.Fixed32Field? ==> PutPayload(f) == f.data
  {
  }

  lemma LastIsUnknown(h: Head)
    requires h.unknown != []
    ensures var n := |h.unknown| - 1; var first := h.(unknown := h.unknown[..n]);
            HeadFields(h) == HeadFields(first) + [h.unknown[n]] && h.unknown == first.unknown + [h.unknown[n]]
  {
    assert h.unknown == h.unknown[..|h.unknown| - 1] + [h.unknown[|h.unknown| - 1]];
  }

  lemma LastIsKnown(h: Head)
    requires h.unknown == []
    ensures HeadFields(h) == OptVarint(1, h.seq_) + OptBytes(2, h.data)
    ensures HeadFields(h.(data := None)) == OptVarint(1, h.seq_)
    ensures HeadFields(Head(None, None, [])) == []
  {
  }

  lemma SplitsAtLast(fs: seq<Field>, first: seq<Field>, last: Field)
    requires fs == first + [last]
    ensures fs != [] && fs[..|fs| - 1] == first && fs[|fs| - 1] == last
  {
  }

  lemma FirstIsValid(h: Head)
    requires ValidHead(h)
    ensures h.unknown != [] ==> ValidHead(h.(unknown := h.unknown[..|h.unknown| - 1]))
    ensures h.unknown != [] ==> !KnownToHead(h.unknown[|h.unknown| - 1])
    ensures ValidHead(h.(data := None)) && ValidHead(Head(None, None, []))
  {
  }

  /** The head of everything but the last field. */
  lemma HeadBeforeLast(h: Head) returns (first: Head)
    requires ValidHead(h) && HeadFields(h) != []
    ensures ValidHead(first) && HeadFields(first) == HeadFields(h)[..|HeadFields(h)| - 1]
    ensures var last := HeadFields(h)[|HeadFields(h)| - 1];
            if h.unknown != [] then h.unknown == first.unknown + [last] && !KnownToHead(last)
            else if h.data.Some? then first == h.(data := None) && last == BytesField(2, h.data.value)
            else first == Head(None, None, []) && h.seq_.Some? && last == VarintField(1, h.seq_.value)
  {
    FirstIsValid(h);
    hide ValidHead, HeadFields, KnownToHead;
    if h.unknown != [] {
      LastIsUnknown(h);
      first := h.(unknown := h.unknown[..|h.unknown| - 1]);
      SplitsAtLast(HeadFields(h), HeadFields(first), h.unknown[|h.unknown| - 1]);
    } else {
      LastIsKnown(h);
      if h.data.Some? {
        first := h.(data := None);
        SplitsAtLast(HeadFields(h), HeadFields(first), BytesField(2, h.data.value));
      } else {
        first := Head(None, None, []);
        SplitsAtLast(HeadFields(h), [], VarintField(1, h.seq_.value)) by {
          assert HeadFields(h) == OptVarint(1, h.seq_);
        }
      }
    }
  }

  /** Only its own last field completes a head. */
  lemma LastCompletes(h: Head, g: Field)
    requires ValidHead(h) && HeadFields(h) != []
    requires var last := HeadFields(h)[|HeadFields(h)| - 1];
             g.VarintField? && last.VarintField? ==> g.value <= last.value
    requires MergeHead(Head(None, None, []), HeadFields(h)[..|HeadFields(h)| - 1] + [g]) == h
    ensures g == HeadFields(h)[|HeadFields(h)| - 1]
  {
    var first := HeadBeforeLast(h);
    HeadMerges(first);
    assert h.seq_.Some? ==> h.seq_.value < U32;
    hide MergeHead, HeadFields, ValidHead;
    MergeHeadSplits(Head(None, None, []), HeadFields(first), g);
    MergeOneHead(first, g);
    assert g.VarintField? && h.seq_.Some? && g.value <= h.seq_.value ==> g.value % U32 == g.value;
  }

  lemma PaddedSmaller(f: Field, m: nat)
    requires ValidField(f) && 1 <= m <= 4 && m < |PutField(f)| && PaddedField(f, m).Some?
    ensures var g := PaddedField(f, m).value.0; g.VarintField? && f.VarintField? ==> g.value <= f.value
  {
    hide PutField, PutPayload, CutTag, ZeroEnd;
  }

  lemma LastPadded(h: Head, m: nat)
    requires ValidHead(h) && 1 <= m <= 4 && m <= |SerializeHead(h)|
    requires HeadFields(h) != [] && PaddedHead(h, m) == Some(h)
    ensures var fs := HeadFields(h); var first, last := fs[..|fs| - 1], fs[|fs| - 1];
            && ValidField(last) && m < |PutField(last)|
            && PaddedField(last, m).Some? && PaddedField(last, m).value.1 == 0
            && MergeHead(Head(None, None, []), first + [PaddedField(last, m).value.0]) == h
  {
    PaddedHeadOf(h, m);
    var fs := HeadFields(h);
    assert fs[|fs| - 1] in fs;
    hide PaddedHead, HeadFields, MergeHead, PutField, PaddedField, SerializeHead;
    assert PaddedFields(fs, m).Some?;
  }

  lemma HeadIntact(h: Head, m: nat)
    requires ValidHead(h) && 1 <= m <= 4 && m <= |SerializeHead(h)|
    requires HeadFields(h) != [] && PaddedHead(h, m) == Some(h)
    ensures SerializeHead(h)[|SerializeHead(h)| - m..] == Zeros(m)
  {
    hide *;
    var fs := HeadFields(h);
    var first, last := fs[..|fs| - 1], fs[|fs| - 1];
    LastPadded(h, m);
    PaddedSmaller(last, m);
    LastCompletes(h, PaddedField(last, m).value.0);
    FieldIntact(last, m);
    PaddedHeadOf(h, m);
    PutFieldsSplits(fs);
    EndsIn(PutFields(first), PutField(last), m);
  }

  // ---------- frames ----------

  lemma PaddedBody(f: Bytes, m: nat)
    requires Whole(f) && m <= |f| - 4
    ensures Readable(ZeroEnd(f, m)) && DecodeHead(ZeroEnd(f, m)) == ParseHead(ZeroEnd(f[4..], m))
  {
    assert ZeroEnd(f, m)[4..] == ZeroEnd(f[4..], m);
  }

  lemma PaddedFrameDecodes(h: Head, m: nat)
    requires Fits(h) && 1 <= m <= 4 && m <= |SerializeHead(h)|
    ensures HeadFields(h) != []
    ensures Readable(ZeroEnd(Frame(h), m)) && DecodeHead(ZeroEnd(Frame(h), m)) == PaddedHead(h, m)
  {
    assert ValidHead(h);
    hide *;
    FramesAreWhole(h);
    PaddedBody(Frame(h), m);
    HeadPadded(h, m);
  }

  /** The head that was sent is decoded exactly when the missing bytes are zeros. */
  lemma PaddedFrameIntactIff(h: Head, m: nat)
    requires Fits(h) && 1 <= m <= 4 && m <= |SerializeHead(h)|
    ensures Readable(ZeroEnd(Frame(h), m))
    ensures DecodeHead(ZeroEnd(Frame(h), m)) == Some(h) <==> Frame(h)[|Frame(h)| - m..] == Zeros(m)
  {
    var f := Frame(h);
    assert ValidHead(h);
    hide DecodeHead, SerializeHead, PaddedHead, Frame, ValidHead, HeadFields, Fits, Zeros;
    PaddedFrameDecodes(h, m);
    FrameRoundTrip(h);
    FramesAreWhole(h);
    if f[|f| - m..] == Zeros(m) {
      assert ZeroEnd(f, m) == f;
    }
    if PaddedHead(h, m) == Some(h) {
      HeadIntact(h, m);
      assert f[|f| - m..] == f[4..][|f[4..]| - m..];
    }
  }
}
