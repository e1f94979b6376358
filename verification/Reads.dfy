/** One read from a connection.  `RunOnce` makes a single `recv` into a new buffer of zeros,
    takes at most one frame out of it and drops the rest with the buffer. */
module Reads {
  import opened Options
  import opened Wire
  import opened Messages
  import opened Framing
  import opened Padding
  import opened PaddedHeads
  import opened Merging
  import opened RequestHandler

  /** DEF_RECV_SIZE */
  const RECV_SIZE: nat := 1024

  /** What one `recv` can give. */
  predicate IsChunk(b: Bytes) {
    1 <= |b| <= RECV_SIZE
  }

  function Buffer(chunk: Bytes): (b: Bytes)
    requires IsChunk(chunk)
    ensures |b| == RECV_SIZE
  {
    chunk + Zeros(RECV_SIZE - |chunk|)
  }

  /** `Check` on the buffer; the length word is read from the zeros if it has not arrived. */
  function CheckRead(chunk: Bytes): (n: nat)
    requires IsChunk(chunk)
    ensures n == 0 || 4 <= n <= |chunk| + 4
  {
    var word := GetLength(Buffer(chunk));
    if word > |chunk| then 0 else word + 4
  }

  lemma CheckReadIsCheck(chunk: Bytes)
    requires IsChunk(chunk) && 4 <= |chunk|
    ensures CheckRead(chunk) == Check(chunk)
  {
    LengthOfPrefix(chunk, Buffer(chunk));
  }

  // ---------- the server ----------

  /** A read gives no request, the bytes of one request, or a size beyond the buffer, where
      copying and erasing that many bytes is undefined. */
  datatype ServerRead = Dropped | Request(src: Bytes) | PastEnd(size: nat)

  /** `DoReadTcp` for a client's connection. */
  function ReadRequest(chunk: Bytes): ServerRead
    requires IsChunk(chunk)
  {
    var size := CheckRead(chunk);
    if size == 0 then Dropped
    else if size > RECV_SIZE then PastEnd(size)
    else Request(Buffer(chunk)[..size])
  }

  lemma BufferedFrame(f: Bytes, more: Bytes, k: nat)
    requires k <= |f + more| && 1 <= k <= RECV_SIZE && |f| <= RECV_SIZE
    ensures Buffer((f + more)[..k])[..|f|] == if k >= |f| then f else ZeroEnd(f, |f| - k)
  {
    if k < |f| {
      ZerosSplit(|f| - k, RECV_SIZE - |f|);
      assert (f + more)[..k] == f[..k];
    }
  }

  /** What one read makes of a frame it starts with: nothing unless all but four bytes are
      there; then its bytes, with zeros for those that are missing and without whatever follows
      it, if the whole frame fits the buffer. */
  lemma ReadOfFrame(f: Bytes, more: Bytes, k: nat)
    requires Whole(f) && 4 <= k <= |f + more| && k <= RECV_SIZE
    ensures ReadRequest((f + more)[..k]) ==
            if k < |f| - 4 then Dropped
            else if |f| > RECV_SIZE then PastEnd(|f|)
            else Request(if k >= |f| then f else ZeroEnd(f, |f| - k))
  {
    var chunk := (f + more)[..k];
    assert IsChunk(chunk);
    hide Check, CheckRead, Buffer, Zeros, ZeroEnd;
    CheckWhileGrowing(f, more, k);
    CheckReadIsCheck(chunk);
    if |f| <= RECV_SIZE {
      BufferedFrame(f, more, k);
    }
  }

  lemma WordOfFew(b0: Byte, b1: Byte, b2: Byte)
    ensures GetLength([b0, b1, b2, 0]) < 4 <==> b0 == 0 && b1 == 0 && b2 == 0
    ensures GetLength([b0, b1, b2, 0]) < 4 ==> GetLength([b0, b1, b2, 0]) == 0
  {
  }

  /** A read of one to three bytes is a request of four zeros if they are zeros, and dropped
      otherwise. */
  lemma ReadOfFew(chunk: Bytes)
    requires 1 <= |chunk| <= 3
    ensures IsChunk(chunk)
    ensures ReadRequest(chunk) == if chunk == Zeros(|chunk|) then Request(Zeros(4)) else Dropped
  {
    var b := Buffer(chunk);
    assert b[..4] == [b[0], b[1], b[2], 0];
    LengthOfPrefix(b[..4], b);
    WordOfFew(b[0], b[1], b[2]);
    hide GetLength;
    if chunk == Zeros(|chunk|) {
      assert b[..4] == Zeros(4);
    } else {
      var k :| 0 <= k < |chunk| && chunk[k] != 0;
      assert b[k] != 0;
    }
  }

  /** Four zeros are a request without a command or a query, and are answered. */
  lemma ZerosAreRequest()
    ensures Readable(Zeros(4)) && Received(Zeros(4)) == Some(DataReq(None, None, []))
  {
    assert Zeros(4)[4..] == [];
  }

  /** A frame of any size, sent in one piece: the size is reported up to four bytes beyond the
      buffer, a larger frame is never seen, and only a frame that fits the buffer is handled. */
  lemma ReadOfWholeFrame(h: Head)
    requires Fits(h)
    ensures var f := Frame(h); var chunk := f[..if |f| < 1024 then |f| else 1024];
            && IsChunk(chunk)
            && CheckRead(chunk) == Check(chunk) == (if |f| <= 1028 then |f| else 0)
            && (CheckRead(chunk) > 1024 <==> 1024 < |f| <= 1028)
            && (ReadRequest(chunk) == Request(f) <==> |f| <= 1024)
            && (ReadRequest(chunk) == PastEnd(|f|) <==> 1024 < |f| <= 1028)
            && (ReadRequest(chunk) == Dropped <==> |f| > 1028)
  {
    var f := Frame(h);
    FramesAreWhole(h);
    var k := if |f| < RECV_SIZE then |f| else RECV_SIZE;
    assert f + [] == f;
    hide Check, CheckRead, ReadRequest, Frame, Fits, Whole;
    assert 4 <= |f| by { LongEnough(h); }
    CheckOfWhole(f, k);
    CheckReadIsCheck(f[..k]);
    ReadOfFrame(f, [], k);
  }

  lemma LongEnough(h: Head)
    ensures |Frame(h)| >= 4
  {
  }

  /** The handler, if a frame that fits the buffer is read one to four bytes short: it gets zeros
      for the missing bytes, and the head that was sent if and only if those are zeros. */
  lemma EarlyReadIntactIff(h: Head, m: nat)
    requires Fits(h) && |Frame(h)| <= RECV_SIZE && 1 <= m <= 4 && m <= |SerializeHead(h)|
    ensures var f := Frame(h); var got := ZeroEnd(f, m);
            && IsChunk(f[..|f| - m]) && ReadRequest(f[..|f| - m]) == Request(got)
            && HeadFields(h) != [] && Readable(got) && DecodeHead(got) == PaddedHead(h, m)
            && (DecodeHead(got) == Some(h) <==> f[|f| - m..] == Zeros(m))
  {
    hide *;
    FitsIsValid(h);
    FramesAreWhole(h);
    ReadOfEarly(Frame(h), m);
    PaddedFrameDecodes(h, m);
    PaddedFrameIntactIff(h, m);
  }

  lemma FitsIsValid(h: Head)
    requires Fits(h)
    ensures ValidHead(h)
  {
  }

  lemma ReadOfEarly(f: Bytes, m: nat)
    requires Whole(f) && |f| <= RECV_SIZE && 1 <= m <= 4 && m <= |f| - 4
    ensures IsChunk(f[..|f| - m]) && ReadRequest(f[..|f| - m]) == Request(ZeroEnd(f, m))
  {
    assert IsChunk(f[..|f| - m]);
    assert f + [] == f;
    hide ReadRequest, ZeroEnd, Whole;
    ReadOfFrame(f, [], |f| - m);
  }

  /** Such a frame exists: two bytes before its end, the head with number 1 and two bytes of
      data makes a request, and the handler finds two zeros where the data was. */
  lemma ExampleFrame()
    ensures var h := Head(Some(1), Some([7, 7]), []); Fits(h) && |Frame(h)| == 10 && |SerializeHead(h)| == 6
  {
    var none: seq<Field> := [];
    HeadBytes(Head(Some(1), Some([7, 7]), none));
    assert PutFields(none) == [];
    assert PutVarint(1) == [1] && PutVarint(2) == [2];
    SmallHeadsFit(Head(Some(1), Some([7, 7]), []));
  }

  lemma TwoZeros(f: Bytes)
    requires |f| == 10
    ensures ZeroEnd(f, 2) == f[..8] + [0, 0] && ZeroEnd([7, 7], 2) == [0, 0]
  {
    assert Zeros(2) == [0, 0];
  }

  lemma EarlyReadAltersData()
    ensures var f := Frame(Head(Some(1), Some([7, 7]), []));
            |f| == 10 && ReadRequest(f[..8]) == Request(f[..8] + [0, 0]) &&
            DecodeHead(f[..8] + [0, 0]) == Some(Head(Some(1), Some([0, 0]), []))
  {
    var h := Head(Some(1), Some([7, 7]), []);
    ExampleFrame();
    assert ValidHead(h);
    hide *;
    EarlyReadIntactIff(h, 2);
    PlainHeadPadded(h, 2);
    TwoZeros(Frame(h));
  }

  // ---------- a stream of requests ----------

  /** The requests of successive reads, in order. */
  function Requests(chunks: seq<Bytes>): seq<Bytes>
    requires forall c :: c in chunks ==> IsChunk(c)
    decreases |chunks|
  {
    if chunks == [] then []
    else
      var later := Requests(chunks[1..]);
      match ReadRequest(chunks[0])
      case Request(src) => [src] + later
      case _ => later
  }

  /** Whole frames that one read gets together. */
  datatype Batch = Batch(first: Bytes, others: seq<Bytes>)

  function Frames(b: Batch): seq<Bytes> {
    [b.first] + b.others
  }

  ghost predicate Fetched(b: Batch) {
    |Concat(Frames(b))| <= RECV_SIZE && forall f :: f in Frames(b) ==> Whole(f)
  }

  ghost predicate AllFetched(batches: seq<Batch>) {
    forall b :: b in batches ==> Fetched(b)
  }

  function Chunks(batches: seq<Batch>): seq<Bytes> {
    if batches == [] then [] else [Concat(Frames(batches[0]))] + Chunks(batches[1..])
  }

  function Firsts(batches: seq<Batch>): seq<Bytes> {
    if batches == [] then [] else [batches[0].first] + Firsts(batches[1..])
  }

  function Sent(batches: seq<Batch>): seq<Bytes> {
    if batches == [] then [] else Frames(batches[0]) + Sent(batches[1..])
  }

  lemma ReadOfBatch(b: Batch)
    requires Fetched(b)
    ensures IsChunk(Concat(Frames(b))) && ReadRequest(Concat(Frames(b))) == Request(b.first)
  {
    var more := Concat(b.others);
    assert b.first in Frames(b) && Frames(b)[1..] == b.others;
    assert Concat(Frames(b)) == b.first + more && Whole(b.first) && |b.first| >= 4;
    assert (b.first + more)[..|b.first + more|] == b.first + more;
    hide ReadRequest, Whole, Concat;
    ReadOfFrame(b.first, more, |b.first + more|);
  }

  /** Of the frames a client sends, exactly the first of each read gets a coroutine. */
  lemma {:induction false} ReadsServeFirsts(batches: seq<Batch>)
    requires AllFetched(batches)
    ensures forall c :: c in Chunks(batches) ==> IsChunk(c)
    ensures Requests(Chunks(batches)) == Firsts(batches)
    decreases |batches|
  {
    hide Fetched, IsChunk, ReadRequest, Concat;
    if batches != [] {
      assert batches[0] in batches;
      ReadOfBatch(batches[0]);
      ReadsServeFirsts(batches[1..]);
      var chunks := Chunks(batches);
      assert chunks[0] == Concat(Frames(batches[0])) && chunks[1..] == Chunks(batches[1..]);
      forall c | c in chunks
        ensures IsChunk(c)
      {
        if c != chunks[0] { assert c in chunks[1..]; }
      }
    }
  }

  lemma {:induction false} SentAtLeast(batches: seq<Batch>)
    ensures |Sent(batches)| >= |batches| == |Firsts(batches)|
    ensures |Sent(batches)| == |batches| ==> forall b :: b in batches ==> b.others == []
    decreases |batches|
  {
    if batches != [] {
      SentAtLeast(batches[1..]);
      forall b | b in batches && |Sent(batches)| == |batches|
        ensures b.others == []
      {
        if b != batches[0] { assert b in batches[1..]; }
      }
    }
  }

  lemma {:induction false} SinglesAreSent(batches: seq<Batch>)
    requires forall b :: b in batches ==> b.others == []
    ensures Sent(batches) == Firsts(batches)
    decreases |batches|
  {
    if batches != [] {
      assert batches[0] in batches;
      SinglesAreSent(batches[1..]);
    }
  }

  /** So every frame gets its coroutine if and only if no two come in one read. */
  lemma AllServedIff(batches: seq<Batch>)
    requires AllFetched(batches)
    ensures forall c :: c in Chunks(batches) ==> IsChunk(c)
    ensures Requests(Chunks(batches)) == Sent(batches) <==> forall b :: b in batches ==> b.others == []
  {
    ReadsServeFirsts(batches);
    SentAtLeast(batches);
    if forall b :: b in batches ==> b.others == [] {
      SinglesAreSent(batches);
    }
  }

  // ---------- the client ----------

  /** A read gives nothing to a coroutine, or the bytes received to the one that waits under
      the number found, or a size beyond the buffer. */
  datatype ClientRead = Ignored | Delivered(number: int, data: Bytes) | BeyondEnd(size: nat)

  /** `DoReadTcp` for a connection to another server, with coroutines waiting under some
      numbers.  `Seq` looks at as many bytes as `Check` said, but what was received is
      delivered. */
  function ReadReply(chunk: Bytes, waiting: set<int>): ClientRead
    requires IsChunk(chunk)
  {
    var size := CheckRead(chunk);
    if size == 0 then Ignored
    else if size > RECV_SIZE then BeyondEnd(size)
    else
      var number := Seq(Buffer(chunk)[..size]);
      if number in waiting then Delivered(number, chunk) else Ignored
  }

  lemma ReplyOfFrame(f: Bytes, more: Bytes, k: nat, waiting: set<int>)
    requires Whole(f) && |f| <= RECV_SIZE && 4 <= k <= |f + more| && k <= RECV_SIZE
    ensures var src := if k >= |f| then f else ZeroEnd(f, |f| - k);
            Readable(src) &&
            ReadReply((f + more)[..k], waiting) ==
            if k >= |f| - 4 && Seq(src) in waiting then Delivered(Seq(src), (f + more)[..k]) else Ignored
  {
    var chunk := (f + more)[..k];
    assert IsChunk(chunk);
    assert |f| >= 4;
    hide Check, CheckRead, Buffer, Zeros, ZeroEnd, Seq, Whole;
    CheckWhileGrowing(f, more, k);
    CheckReadIsCheck(chunk);
    BufferedFrame(f, more, k);
  }

  /** A frame that is cut early decodes from the bytes received, or with zeros for the missing
      ones, but not both. */
  lemma EarlyDecodesOnce(h: Head, m: nat)
    requires Fits(h) && 1 <= m <= 4 && m <= |SerializeHead(h)|
    ensures var f := Frame(h);
            && Readable(f[..|f| - m]) && Readable(ZeroEnd(f, m))
            && (DecodeHead(f[..|f| - m]).Some? ==> DecodeHead(ZeroEnd(f, m)).None?)
  {
    var f := Frame(h);
    FramesAreWhole(h);
    assert ValidHead(h);
    var k := |f| - m;
    hide *;
    PaddedBody(f, m);
    CutBody(f, k);
    CutThenPadded(h, m);
  }

  lemma FieldsCutThenPadded(fs: seq<Field>, m: nat)
    requires AllValid(fs) && 1 <= m <= |PutFields(fs)|
    requires GetFields(PutFields(fs)[..|PutFields(fs)| - m]).Some?
    ensures GetFields(ZeroEnd(PutFields(fs), m)) == None
  {
    var k := |PutFields(fs)| - m;
    assert ZeroEnd(PutFields(fs), m) == PutFields(fs)[..k] + Zeros(m);
    hide GetFields, PutFields, ZeroEnd, Zeros, ValidField;
    var n := ParsedCutIsBetweenFields(fs, k);
    PrefixOfFields(fs, n);
    assert PutFields(fs)[..k] == PutFields(fs[..n]);
    FieldsThenZeros(fs[..n], m);
  }

  lemma ParsesIff(b: Bytes)
    ensures ParseHead(b).Some? <==> GetFields(b).Some?
  {
    hide GetFields;
  }

  lemma FieldsOfHead(h: Head)
    requires ValidHead(h)
    ensures AllValid(HeadFields(h)) && SerializeHead(h) == PutFields(HeadFields(h))
  {
    HeadFieldsValid(h);
  }

  lemma CutThenPadded(h: Head, m: nat)
    requires ValidHead(h) && 1 <= m <= |SerializeHead(h)|
    ensures ParseHead(SerializeHead(h)[..|SerializeHead(h)| - m]).Some? ==> ParseHead(ZeroEnd(SerializeHead(h), m)).None?
  {
    hide *;
    FieldsOfHead(h);
    var b := SerializeHead(h);
    ParsesIff(b[..|b| - m]);
    ParsesIff(ZeroEnd(b, m));
    if GetFields(b[..|b| - m]).Some? {
      FieldsCutThenPadded(HeadFields(h), m);
    }
  }

  lemma {:induction false} PrefixOfFields(fs: seq<Field>, n: nat)
    requires n <= |fs|
    ensures PutFields(fs[..n]) <= PutFields(fs)
    decreases n
  {
    if n > 0 {
      hide PutField;
      PutFieldsPrefix(fs, n);
      PrefixOfFields(fs[1..], n - 1);
    }
  }

  lemma MoreThanHead(h: Head, more: Bytes)
    requires ValidHead(h) && more != [] && more[0] == 0
    ensures ParseHead(SerializeHead(h) + more) == None
  {
    assert more == [0] + more[1..];
    hide *;
    FieldsOfHead(h);
    ZeroTag(more[1..]);
    FieldsThen(HeadFields(h), more);
    ParsesIff(SerializeHead(h) + more);
  }

  lemma StartsWithZero(g: Bytes)
    requires Whole(g) && |g| < 0x100_0000
    ensures g[0] == 0
  {
    assert GetLength(g) >= g[0] * 0x100_0000;
  }

  lemma EarlySeq(f: Bytes, m: nat)
    requires Whole(f) && 1 <= m <= 4 && m <= |f| - 4
    ensures Readable(ZeroEnd(f, m))
    ensures DecodeHead(ZeroEnd(f, m)).None? ==> Seq(ZeroEnd(f, m)) == -2
  {
    var got := ZeroEnd(f, m);
    assert f[..4] == got[..4];
    LengthOfPrefix(f[..4], f);
    LengthOfPrefix(f[..4], got);
    hide DecodeHead, ZeroEnd;
  }

  lemma EarlyChunk(f: Bytes, more: Bytes, k: nat)
    requires |f| <= RECV_SIZE && 4 <= k < |f|
    ensures (f + more)[..k] == f[..k] && IsChunk(f[..k]) && Readable(f[..k])
  {
  }

  /** A reply read early is not delivered as a head. */
  lemma EarlyReply(h: Head, more: Bytes, k: nat, waiting: set<int>)
    requires Fits(h) && |Frame(h)| <= RECV_SIZE && 4 <= k < |Frame(h)| && -2 !in waiting
    ensures k <= |Frame(h) + more|
    ensures IsChunk((Frame(h) + more)[..k]) && Readable((Frame(h) + more)[..k])
    ensures ReadReply((Frame(h) + more)[..k], waiting).Delivered? ==> DecodeHead((Frame(h) + more)[..k]).None?
  {
    hide *;
    var f := Frame(h);
    FramesAreWhole(h);
    EarlyChunk(f, more, k);
    ReplyOfFrame(f, more, k, waiting);
    if k >= |f| - 4 {
      EarlyDecodesOnce(h, |f| - k);
      EarlySeq(f, |f| - k);
    }
  }

  lemma WholeReply(h: Head, more: Bytes, waiting: set<int>)
    requires Fits(h) && |Frame(h)| <= RECV_SIZE && h.seq_.Some? && AsInt(h.seq_.value) in waiting
    ensures |Frame(h)| <= |Frame(h) + more| && (Frame(h) + more)[..|Frame(h)|] == Frame(h)
    ensures IsChunk(Frame(h)) && Readable(Frame(h))
    ensures ReadReply(Frame(h), waiting) == Delivered(AsInt(h.seq_.value), Frame(h))
    ensures DecodeHead(Frame(h)) == Some(h)
  {
    var f := Frame(h);
    FramesAreWhole(h);
    assert |f| >= 4 && (f + more)[..|f|] == f;
    assert IsChunk(f);
    hide *;
    FrameRoundTrip(h);
    SeqOfWhole(f, h);
    ReplyOfFrame(f, more, |f|, waiting);
  }

  lemma CrowdedReply(h: Head, g: Bytes, k: nat)
    requires Fits(h) && Whole(g) && |g| < 0x100_0000 && |Frame(h)| < k <= |Frame(h) + g| && k <= RECV_SIZE
    ensures Readable((Frame(h) + g)[..k]) && DecodeHead((Frame(h) + g)[..k]) == None
  {
    var f := Frame(h);
    var more := g[..k - |f|];
    FramesAreWhole(h);
    StartsWithZero(g);
    assert (f + g)[..k][4..] == f[4..] + more && more[0] == 0;
    MoreThanHead(h, more) by { FitsIsValid(h); }
    hide ParseHead, SerializeHead, Frame, Fits, Whole;
  }

  /** The coroutine that waits for a reply gets its head from a read if and only if the read
      ends where the reply's frame does, provided nobody waits under the number that comes out
      as the error code of `Seq`. */
  lemma ClientGetsReplyIff(h: Head, g: Bytes, k: nat, waiting: set<int>)
    requires Fits(h) && |Frame(h)| <= RECV_SIZE && h.seq_.Some?
    requires Whole(g) && |g| < 0x100_0000
    requires 4 <= k <= |Frame(h) + g| && k <= RECV_SIZE
    requires AsInt(h.seq_.value) in waiting && -2 !in waiting
    ensures var chunk := (Frame(h) + g)[..k];
            && IsChunk(chunk) && Readable(chunk)
            && (ReadReply(chunk, waiting).Delivered? && DecodeHead(chunk).Some? <==> k == |Frame(h)|)
            && (k == |Frame(h)| ==>
                  ReadReply(chunk, waiting) == Delivered(AsInt(h.seq_.value), chunk) && DecodeHead(chunk) == Some(h))
  {
    var chunk := (Frame(h) + g)[..k];
    assert IsChunk(chunk) && Readable(chunk);
    hide *;
    if k < |Frame(h)| {
      EarlyReply(h, g, k, waiting);
    } else if k == |Frame(h)| {
      WholeReply(h, g, waiting);
    } else {
      CrowdedReply(h, g, k);
    }
  }
}
