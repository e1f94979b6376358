/** Frames: a 4-byte length in network byte order, then a serialized `Head`. */
module Framing {
  import opened Options
  import opened Wire
  import opened Messages

  /** `htonl` and its inverse, as the bytes that travel. */
  function PutLength(n: nat): (b: Bytes)
    requires n < U32
    ensures |b| == 4
  {
    [n / 0x100_0000, n / 0x1_0000 % 256, n / 256 % 256, n % 256]
  }

  function GetLength(b: Bytes): (n: nat)
    requires |b| >= 4
    ensures n < U32
  {
    var b0: nat, b1: nat, b2: nat, b3: nat := b[0], b[1], b[2], b[3];
    ((b0 * 256 + b1) * 256 + b2) * 256 + b3
  }

  lemma LengthRoundTrip(n: nat, rest: Bytes)
    requires n < U32
    ensures GetLength(PutLength(n) + rest) == n
  {
    var h, m := n / 256, n / 0x1_0000;
    assert m == h / 256 && n / 0x100_0000 == m / 256;
    assert h == 256 * m + h % 256 && m == 256 * (m / 256) + m % 256;
  }

  /** Network byte order: of two length words the one that comes first byte by byte is the
      smaller number. */
  lemma LengthOrder(a: Bytes, b: Bytes, k: nat)
    requires 4 <= |a| && 4 <= |b| && k < 4 && a[..k] == b[..k] && a[k] < b[k]
    ensures GetLength(a) < GetLength(b)
  {
    assert forall j :: 0 <= j < k ==> a[j] == a[..k][j] && b[j] == b[..k][j];
  }

  /** Conversion of an unsigned result to `int`. */
  function AsInt(n: nat): (i: int)
    ensures -0x8000_0000 <= i < 0x8000_0000
  {
    var low := n % U32;
    if low < 0x8000_0000 then low else low - U32
  }

  /** The caller hands over the bytes it has: nothing, or at least the length word. */
  predicate Readable(src: Bytes) {
    (src == [] || 4 <= |src|) && |src| < U32
  }

  /** 0 while more bytes are needed, otherwise the size of the frame.  The guard compares
      the length word alone, without its own four bytes, with what is there. */
  function Check(src: Bytes): int
    requires Readable(src)
  {
    if src == [] then 0
    else if GetLength(src) > |src| then 0
    else AsInt(GetLength(src) + 4)
  }

  function DecodeHead(src: Bytes): Option<Head>
    requires Readable(src)
  {
    if src == [] then None else ParseHead(src[4..])
  }

  function Seq(src: Bytes): int
    requires Readable(src)
  {
    if Check(src) < 1 then -1
    else
      match DecodeHead(src)
      case None => -2
      case Some(h) => AsInt(if h.seq_.Some? then h.seq_.value else 0)
  }

  /** The length word, a uint32, and the bytes it counts. */
  function Prefixed(body: Bytes): (f: Bytes)
    ensures |f| == |body| + 4
  {
    PutLength(|body| % U32) + body
  }

  /** What `Encode` leaves in `m_data` for a head with its sequence number set. */
  function Frame(h: Head): (f: Bytes)
    ensures |f| == |SerializeHead(h)| + 4
  {
    Prefixed(SerializeHead(h))
  }

  /** The sizes for which the result of `Check` is an `int`. */
  ghost predicate Fits(h: Head) {
    ValidHead(h) && |SerializeHead(h)| + 4 < MAX_LENGTH
  }

  /** A frame that is there completely and has a size `Check` can report. */
  predicate Whole(f: Bytes) {
    4 <= |f| < MAX_LENGTH && GetLength(f) + 4 == |f|
  }

  lemma PrefixedIsWhole(body: Bytes)
    requires |body| + 4 < MAX_LENGTH
    ensures Whole(Prefixed(body)) && Prefixed(body)[4..] == body
  {
    LengthRoundTrip(|body|, body);
    assert |body| % U32 == |body|;
    hide PutLength, GetLength;
  }

  lemma FramesAreWhole(h: Head)
    requires Fits(h)
    ensures Whole(Frame(h)) && Frame(h)[4..] == SerializeHead(h)
  {
    PrefixedIsWhole(SerializeHead(h));
  }

  lemma FrameRoundTrip(h: Head)
    requires Fits(h)
    ensures Readable(Frame(h)) && DecodeHead(Frame(h)) == Some(h)
  {
    FramesAreWhole(h);
    HeadRoundTrip(h);
  }

  // ---------- Check ----------

  lemma LengthOfPrefix(a: Bytes, b: Bytes)
    requires 4 <= |a| && a <= b
    ensures GetLength(a) == GetLength(b)
  {
  }

  /** `Check` while a frame arrives, and when more follows it: 0 until all but four bytes are
      there, the size of the frame from then on. */
  lemma CheckWhileGrowing(f: Bytes, more: Bytes, k: nat)
    requires Whole(f) && 4 <= k <= |f + more| && k < U32
    ensures Check((f + more)[..k]) == if k < |f| - 4 then 0 else |f|
  {
    assert f[..4] == (f + more)[..k][..4];
    LengthOfPrefix(f[..4], f);
    LengthOfPrefix(f[..4], (f + more)[..k]);
  }

  /** On any bytes: a positive verdict is given for an incomplete frame exactly when between
      one and four of its bytes are missing. */
  lemma CheckEarlyIff(src: Bytes)
    requires Readable(src) && src != [] && |src| < MAX_LENGTH - 4
    ensures Check(src) > |src| <==> |src| < GetLength(src) + 4 <= |src| + 4
    ensures Check(src) > 0 <==> GetLength(src) <= |src|
  {
  }

  // ---------- what Seq says ----------

  lemma CheckOfWhole(f: Bytes, k: nat)
    requires Whole(f) && 4 <= k <= |f|
    ensures Check(f[..k]) == if k < |f| - 4 then 0 else |f|
  {
    CheckWhileGrowing(f, [], k);
    assert f + [] == f;
  }

  lemma SeqOfWhole(f: Bytes, h: Head)
    requires Whole(f) && DecodeHead(f) == Some(h) && h.seq_.Some?
    ensures Seq(f) == AsInt(h.seq_.value)
  {
    CheckOfWhole(f, |f|);
    assert f[..|f|] == f;
  }

  lemma AsIntKeeps(n: nat)
    requires n < U32
    ensures AsInt(n) == n <==> n < MAX_LENGTH
    ensures AsInt(n) == if n < 0x8000_0000 then n else n - 0x1_0000_0000
    ensures AsInt(n) in {-1, -2} <==> n in {U32 - 1, U32 - 2}
  {
  }

  /** `Seq` gives the number a frame carries exactly when it is below 2^31; the two largest
      numbers come out as the two error codes. */
  lemma SeqOfFrame(h: Head)
    requires Fits(h) && h.seq_.Some?
    ensures Seq(Frame(h)) == h.seq_.value <==> h.seq_.value < MAX_LENGTH
    ensures h.seq_.value >= MAX_LENGTH ==> Seq(Frame(h)) == h.seq_.value - 0x1_0000_0000
    ensures Seq(Frame(h)) in {-1, -2} <==> h.seq_.value in {U32 - 1, U32 - 2}
  {
    FramesAreWhole(h);
    FrameRoundTrip(h);
    SeqOfWhole(Frame(h), h);
    AsIntKeeps(h.seq_.value);
  }

  /** Before that, and of a frame without a number. */
  lemma SeqWhileGrowing(h: Head, k: nat)
    requires Fits(h) && 4 <= k <= |Frame(h)|
    ensures Seq([]) == -1
    ensures k < |Frame(h)| - 4 ==> Seq(Frame(h)[..k]) == -1
    ensures h.seq_.None? ==> Seq(Frame(h)) == 0
  {
    var f := Frame(h);
    FramesAreWhole(h);
    FrameRoundTrip(h);
    assert f[..|f|] == f;
    hide Frame, Check, DecodeHead, Whole, Fits;
    CheckOfWhole(f, k);
    CheckOfWhole(f, |f|);
    assert Check([]) == 0 by { NothingYet(); }
  }

  lemma NothingYet()
    ensures Check([]) == 0
  {
  }

  lemma CutBody(f: Bytes, k: nat)
    requires Whole(f) && 4 <= k < |f|
    ensures DecodeHead(f[..k]) == ParseHead(f[4..][..k - 4])
  {
    assert f[..k][4..] == f[4..][..k - 4];
  }

  /** Of the frames `Check` reports too early, exactly those cut between two fields of the
      head decode, and they decode to the fields before the cut. */
  lemma EarlyFrameDecodesIff(h: Head, k: nat)
    requires Fits(h) && 4 <= k < |Frame(h)| <= k + 4
    ensures Check(Frame(h)[..k]) == |Frame(h)|
    ensures DecodeHead(Frame(h)[..k]).Some? <==>
              exists m :: 0 <= m <= |HeadFields(h)| && k - 4 == |PutFields(HeadFields(h)[..m])|
    ensures forall m :: 0 <= m <= |HeadFields(h)| && k - 4 == |PutFields(HeadFields(h)[..m])| ==>
              DecodeHead(Frame(h)[..k]) == Some(MergeHead(Head(None, None, []), HeadFields(h)[..m]))
  {
    var f := Frame(h);
    FramesAreWhole(h);
    CheckOfWhole(f, k);
    CutBody(f, k);
    hide Check, DecodeHead, Frame, HeadFields, MergeHead, SerializeHead, ParseHead, PutFields, Whole, Fits;
    CutHeadParsesIff(h, k - 4);
  }

  /** Such a frame exists: four bytes before its end, the head with sequence number 1 and
      two bytes of data is reported complete and decodes without its data. */
  lemma EarlyFrameLosesData()
    ensures var f := Frame(Head(Some(1), Some([7, 7]), []));
            |f| == 10 && Check(f[..6]) == 10 && DecodeHead(f[..6]) == Some(Head(Some(1), None, []))
  {
    var h := Head(Some(1), Some([7, 7]), []);
    var seqField, dataField := VarintField(1, 1), BytesField(2, [7, 7]);
    assert HeadFields(h) == [seqField, dataField];
    assert PutFields([seqField]) == PutField(seqField) + PutFields([]) == [8, 1];
    assert PutFields([dataField]) == PutField(dataField) + PutFields([]) == [18, 2, 7, 7];
    assert [seqField, dataField][1..] == [dataField];
    assert SerializeHead(h) == [8, 1] + [18, 2, 7, 7];
    assert HeadFields(h)[..1] == [seqField];
    EarlyFrameDecodesIff(h, 6);
    assert MergeHead(Head(None, None, []), [seqField]) == Head(Some(1), None, []);
  }

  // ---------- a stream of frames ----------

  /** Cutting at the size `Check` reports, again and again, until nothing is left. */
  function Split(stream: Bytes): Option<seq<Bytes>>
    decreases |stream|
  {
    if stream == [] then Some([])
    else if !Readable(stream) then None
    else
      var n := Check(stream);
      if n < 1 || n > |stream| then None
      else
        match Split(stream[n..])
        case None => None
        case Some(fs) => Some([stream[..n]] + fs)
  }

  function Concat(fs: seq<Bytes>): Bytes {
    if fs == [] then [] else fs[0] + Concat(fs[1..])
  }

  lemma {:induction false} SplitConcat(fs: seq<Bytes>)
    requires forall f :: f in fs ==> Whole(f)
    requires |Concat(fs)| < U32
    ensures Split(Concat(fs)) == Some(fs)
    decreases |fs|
  {
    if fs != [] {
      var stream := Concat(fs);
      var f, rest := fs[0], Concat(fs[1..]);
      assert Whole(f);
      CheckWhileGrowing(f, rest, |stream|);
      assert stream[..|stream|] == stream && stream[..|f|] == f && stream[|f|..] == rest;
      SplitConcat(fs[1..]);
      assert [f] + fs[1..] == fs;
    }
  }

  lemma CheckCutsWhole(stream: Bytes)
    requires Readable(stream) && |stream| < MAX_LENGTH && 1 <= Check(stream) <= |stream|
    ensures Whole(stream[..Check(stream)])
  {
    LengthOfPrefix(stream[..4], stream);
    LengthOfPrefix(stream[..4], stream[..Check(stream)]);
    hide GetLength;
  }

  lemma {:induction false} SplitPieces(stream: Bytes)
    requires Split(stream).Some? && |stream| < MAX_LENGTH
    ensures Concat(Split(stream).value) == stream
    ensures forall f :: f in Split(stream).value ==> Whole(f)
    decreases |stream|
  {
    hide Check, Whole;
    if stream != [] {
      var n := Check(stream);
      SplitPieces(stream[n..]);
      assert stream == stream[..n] + stream[n..];
      CheckCutsWhole(stream);
    }
  }

  /** A stream splits into exactly the frames it was made of, and into nothing else. */
  lemma SplitIffConcat(stream: Bytes, fs: seq<Bytes>)
    requires |stream| < MAX_LENGTH
    ensures Split(stream) == Some(fs) <==> stream == Concat(fs) && forall f :: f in fs ==> Whole(f)
  {
    if Split(stream) == Some(fs) {
      SplitPieces(stream);
    }
    if stream == Concat(fs) && forall f :: f in fs ==> Whole(f) {
      SplitConcat(fs);
    }
  }
}
