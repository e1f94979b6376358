/** pb/head.h: class `HeadPkg` and its process-wide sequence counter. */
module HeadPackage {
  import opened Options
  import opened Wire
  import opened Messages
  import opened Framing

  /** `static uint32_t id` */
  class SeqCounter {
    var id: nat

    ghost predicate Valid()
      reads this
    {
      id < U32
    }

    constructor ()
      ensures Valid() && id == 0
    {
      id := 0;
    }
  }

  function NextSeq(id: nat): nat {
    (id + 1) % U32
  }

  class HeadPkg {
    const counter: SeqCounter
    var head: Head
    var data: Bytes

    constructor (counter: SeqCounter)
      ensures this.counter == counter && head == Head(None, None, []) && data == []
    {
      this.counter := counter;
      head := Head(None, None, []);
      data := [];
    }

    /** An empty buffer leaves the head alone.  What bytes that do not parse leave in the head
        is left open. */
    method Decode(src: Bytes) returns (ok: bool)
      requires Readable(src)
      modifies this`head
      ensures ok <==> DecodeHead(src).Some?
      ensures ok ==> Some(head) == DecodeHead(src)
      ensures src == [] ==> !ok && head == old(head)
    {
      if src == [] {
        return false;
      }
      var parsed := ParseHead(src[4..]);
      head := if parsed.Some? then parsed.value else Head(None, None, []);
      ok := parsed.Some?;
    }

    method SetData(data: Bytes)
      modifies this`head
      ensures head == old(head).(data := Some(data))
    {
      head := head.(data := Some(data));
    }

    /** The frame carries the next number whatever number the head had before, and decodes
        to exactly this head. */
    method Encode()
      requires counter.Valid()
      modifies this, counter
      ensures counter.Valid() && counter.id == NextSeq(old(counter.id))
      ensures head == old(head).(seq_ := Some(counter.id))
      ensures data == Frame(head)
      ensures Fits(head) ==> DecodeHead(data) == Some(head)
    {
      counter.id := (counter.id + 1) % U32;
      head := head.(seq_ := Some(counter.id));
      var pb := SerializeHead(head);
      data := [];
      data := data + PutLength(|pb| % U32);
      data := data + pb;
      EncodedDecodes(head);
    }

    /** `*m_head.mutable_data()`: reading the body marks the field as present. */
    method Body() returns (body: Bytes)
      modifies this`head
      ensures body == if old(head).data.Some? then old(head).data.value else []
      ensures head == old(head).(data := Some(body))
    {
      if head.data.None? {
        head := head.(data := Some([]));
      }
      body := head.data.value;
    }
  }

  lemma EncodedDecodes(h: Head)
    ensures Fits(h) ==> DecodeHead(Frame(h)) == Some(h)
  {
    if Fits(h) {
      FrameRoundTrip(h);
    }
  }

  // ---------- numbers over a run ----------

  function Iterate(id: nat, n: nat): nat {
    if n == 0 then id else NextSeq(Iterate(id, n - 1))
  }

  lemma NextModulo(a: nat)
    ensures (a % U32 + 1) % U32 == (a + 1) % U32
  {
  }

  /** The counter after n calls of `Encode`. */
  lemma {:induction false} IterateCounts(id: nat, n: nat)
    requires id < U32
    ensures Iterate(id, n) == (id + n) % U32
    decreases n
  {
    if n > 0 {
      IterateCounts(id, n - 1);
      NextModulo(id + n - 1);
    }
  }

  /** The head with the number that call n of `Encode`, counting from 0, gives it. */
  function Numbered(id: nat, heads: seq<Head>, n: nat): Head
    requires n < |heads|
  {
    heads[n].(seq_ := Some(Iterate(id, n + 1)))
  }

  function Encoded(id: nat, heads: seq<Head>): (fs: seq<Bytes>)
    ensures |fs| == |heads|
    ensures forall n :: 0 <= n < |fs| ==> fs[n] == Frame(Numbered(id, heads, n))
  {
    seq(|heads|, n requires 0 <= n < |heads| => Frame(Numbered(id, heads, n)))
  }

  /** Successive calls of `Encode`, each on a package of its own, for heads prepared in any
      way. */
  method EncodeAll(counter: SeqCounter, heads: seq<Head>) returns (fs: seq<Bytes>)
    requires counter.Valid()
    modifies counter
    ensures counter.Valid() && counter.id == Iterate(old(counter.id), |heads|)
    ensures fs == Encoded(old(counter.id), heads)
  {
    fs := [];
    var n := 0;
    while n < |heads|
      invariant 0 <= n <= |heads| && |fs| == n
      invariant counter.Valid() && counter.id == Iterate(old(counter.id), n)
      invariant forall m :: 0 <= m < n ==> fs[m] == Frame(Numbered(old(counter.id), heads, m))
    {
      var pkg := new HeadPkg(counter);
      pkg.head := heads[n];
      pkg.Encode();
      fs := fs + [pkg.data];
      n := n + 1;
    }
  }

  /** The n-th frame decodes to the head it was encoded from, with the counter's start plus
      n + 1, modulo 2^32, as its number. */
  lemma EncodedNumbers(id: nat, heads: seq<Head>, n: nat)
    requires id < U32 && n < |heads| && Fits(Numbered(id, heads, n))
    ensures var f := Encoded(id, heads)[n];
            Readable(f) && DecodeHead(f) == Some(heads[n].(seq_ := Some((id + n + 1) % U32)))
  {
    hide Readable, DecodeHead, Frame, Fits;
    IterateCounts(id, n + 1);
    FrameRoundTrip(Numbered(id, heads, n));
  }

  lemma CountsRepeatIff(id: nat, m: nat, n: nat)
    requires m <= n
    ensures (id + m + 1) % U32 == (id + n + 1) % U32 <==> (n - m) % U32 == 0
  {
    var a, b := id + m + 1, id + n + 1;
    EqualModulo(a, b);
    assert b - a == n - m;
  }

  lemma FramesRepeatIff(id: nat, m: nat, n: nat, a: Head, b: Head)
    requires id < U32 && m <= n && Fits(a) && Fits(b)
    requires a.seq_ == Some(Iterate(id, m + 1)) && b.seq_ == Some(Iterate(id, n + 1))
    ensures Readable(Frame(a)) && Readable(Frame(b))
    ensures DecodeHead(Frame(a)) == Some(a) && DecodeHead(Frame(b)) == Some(b)
    ensures a.seq_ == b.seq_ <==> (n - m) % U32 == 0
  {
    hide *;
    FrameRoundTrip(a);
    FrameRoundTrip(b);
    IterateCounts(id, m + 1);
    IterateCounts(id, n + 1);
    CountsRepeatIff(id, m, n);
  }

  /** Two frames of one process decode to heads with the same number exactly when the calls of
      `Encode` that made them are a multiple of 2^32 apart. */
  lemma NumbersRepeatIff(id: nat, heads: seq<Head>, m: nat, n: nat)
    requires id < U32 && m <= n < |heads|
    requires Fits(Numbered(id, heads, m)) && Fits(Numbered(id, heads, n))
    ensures var fs := Encoded(id, heads);
            && Readable(fs[m]) && Readable(fs[n]) && DecodeHead(fs[m]).Some? && DecodeHead(fs[n]).Some?
            && (DecodeHead(fs[m]).value.seq_ == DecodeHead(fs[n]).value.seq_ <==> (n - m) % 0x1_0000_0000 == 0)
  {
    hide Readable, DecodeHead, Frame, Fits, Iterate;
    FramesRepeatIff(id, m, n, Numbered(id, heads, m), Numbered(id, heads, n));
  }

  lemma EqualModulo(a: nat, b: nat)
    requires a <= b
    ensures a % U32 == b % U32 <==> (b - a) % U32 == 0
  {
    assert a == a / U32 * U32 + a % U32 && b == b / U32 * U32 + b % U32;
    if a % U32 == b % U32 {
      assert b - a == (b / U32 - a / U32) * U32;
    }
    if (b - a) % U32 == 0 {
      assert b == a + (b - a) / U32 * U32;
    }
  }

  // ---------- nested messages ----------

  lemma NestedReqRoundTrip(h: Head, req: DataReq)
    requires ValidReq(req) && Fits(h) && h.data == Some(SerializeReq(req))
    ensures DecodeHead(Frame(h)) == Some(h) && ParseReq(h.data.value) == Some(req)
  {
    FrameRoundTrip(h);
    ReqRoundTrip(req);
  }

  lemma NestedRspRoundTrip(h: Head, rsp: DataRsp)
    requires ValidRsp(rsp) && Fits(h) && h.data == Some(SerializeRsp(rsp))
    ensures DecodeHead(Frame(h)) == Some(h) && ParseRsp(h.data.value) == Some(rsp)
  {
    FrameRoundTrip(h);
    RspRoundTrip(rsp);
  }
}
