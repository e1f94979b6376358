/** The request handler of test2/main2.cpp: it parses the request, waits ten seconds, and
    replies.  Other handlers run during the wait, so the handler is two calls here. */
module RequestHandler {
  import opened Options
  import opened Wire
  import opened Messages
  import opened Framing
  import opened HeadPackage

  function BodyOf(h: Head): Bytes {
    if h.data.Some? then h.data.value else []
  }

  function OrZero(v: Option<nat>): nat {
    if v.Some? then v.value else 0
  }

  /** The request a handler gets out of what was received. */
  function Received(src: Bytes): Option<DataReq>
    requires Readable(src)
  {
    match DecodeHead(src)
    case None => None
    case Some(h) => ParseReq(BodyOf(h))
  }

  const CRLF: Bytes := [13, 10]

  function Answer(req: DataReq, date: Bytes): DataRsp {
    DataRsp(Some(OrZero(req.cmd)), Some(OrZero(req.query)), Some(date + CRLF), [])
  }

  /** The received head with its number and data replaced. */
  function ReplyHead(src: Bytes, number: nat, date: Bytes): Head
    requires Readable(src) && Received(src).Some?
  {
    DecodeHead(src).value.(seq_ := Some(number), data := Some(SerializeRsp(Answer(Received(src).value, date))))
  }

  /** `process` up to its wait: the package and the request it holds, if it holds one.  No
      number is used. */
  method Receive(counter: SeqCounter, src: Bytes) returns (pkg: HeadPkg, req: Option<DataReq>)
    requires Readable(src)
    ensures fresh(pkg) && pkg.counter == counter
    ensures req == Received(src)
    ensures req == match DecodeHead(src)
                   case None => None
                   case Some(h) => ParseReq(if h.data.Some? then h.data.value else [])
    ensures req.Some? ==> pkg.head == DecodeHead(src).value.(data := Some(BodyOf(DecodeHead(src).value)))
  {
    pkg := new HeadPkg(counter);
    var ok := pkg.Decode(src);
    if !ok {
      return pkg, None;
    }
    var body := pkg.Body();
    req := ParseReq(body);
  }

  /** `process` behind its wait: the reply carries the number after the one the counter has
      now, whatever it was when the request came. */
  method Reply(pkg: HeadPkg, req: DataReq, date: Bytes) returns (sent: Bytes)
    requires pkg.counter.Valid()
    modifies pkg, pkg.counter
    ensures pkg.counter.Valid() && pkg.counter.id == NextSeq(old(pkg.counter.id))
    ensures sent == Frame(old(pkg.head).(seq_ := Some(pkg.counter.id), data := Some(SerializeRsp(Answer(req, date)))))
    ensures ValidU32(req.cmd) && ValidU32(req.query) && |date| + 2 < MAX_LENGTH && Fits(pkg.head) ==>
              && Readable(sent) && DecodeHead(sent) == Some(pkg.head) && pkg.head.data.Some?
              && pkg.head.unknown == old(pkg.head).unknown && pkg.head.seq_ == Some(pkg.counter.id)
              && ParseRsp(pkg.head.data.value) ==
                 Some(DataRsp(Some(if req.cmd.Some? then req.cmd.value else 0),
                              Some(if req.query.Some? then req.query.value else 0), Some(date + [13, 10]), []))
  {
    pkg.SetData(SerializeRsp(Answer(req, date)));
    pkg.Encode();
    AnswerArrives(req, date);
    sent := pkg.data;
  }

  /** The answer in terms of the request, as the client parses it: the command comes back, the
      query is the data, what was absent is 0, and the time ends in a new line. */
  lemma AnswerArrives(req: DataReq, date: Bytes)
    ensures ValidU32(req.cmd) && ValidU32(req.query) && |date| + 2 < MAX_LENGTH ==>
              ParseRsp(SerializeRsp(Answer(req, date))) ==
              Some(DataRsp(Some(if req.cmd.Some? then req.cmd.value else 0),
                           Some(if req.query.Some? then req.query.value else 0), Some(date + [13, 10]), []))
  {
    if ValidU32(req.cmd) && ValidU32(req.query) && |date| + 2 < MAX_LENGTH {
      RspRoundTrip(Answer(req, date));
    }
  }

  lemma ReplyDecodes(src: Bytes, number: nat, date: Bytes)
    requires Readable(src) && |src| < MAX_LENGTH && Received(src).Some?
    requires number < U32 && |date| + 2 < MAX_LENGTH
    requires |SerializeHead(ReplyHead(src, number, date))| + 4 < MAX_LENGTH
    requires |SerializeRsp(Answer(Received(src).value, date))| < MAX_LENGTH
    ensures var h := ReplyHead(src, number, date);
            && Readable(Frame(h)) && DecodeHead(Frame(h)) == Some(h)
            && ParseRsp(h.data.value) == Some(Answer(Received(src).value, date))
  {
    ParsedHeadSurvives(src[4..]);
    var body := BodyOf(DecodeHead(src).value);
    ParsedReqValid(body);
    NestedRspRoundTrip(ReplyHead(src, number, date), Answer(Received(src).value, date));
  }

  lemma ReceivedFromFrame(sent: Head, req: DataReq)
    requires ValidReq(req) && Fits(sent) && sent.data == Some(SerializeReq(req))
    ensures Readable(Frame(sent)) && DecodeHead(Frame(sent)) == Some(sent)
    ensures Received(Frame(sent)) == Some(req)
  {
    FramesAreWhole(sent);
    NestedReqRoundTrip(sent, req);
  }

  /** A request and its reply, end to end: whatever number the request carries, the handler
      finds the request in its frame, and the client finds the answer to it in the reply. */
  lemma RequestReply(req: DataReq, sent: Head, number: nat, date: Bytes)
    requires ValidReq(req) && Fits(sent) && sent.data == Some(SerializeReq(req))
    requires number < U32 && |date| + 2 < MAX_LENGTH
    requires |SerializeRsp(Answer(req, date))| < MAX_LENGTH
    requires |SerializeHead(sent.(seq_ := Some(number), data := Some(SerializeRsp(Answer(req, date)))))| + 4 < MAX_LENGTH
    ensures Received(Frame(sent)) == Some(req)
    ensures var h := ReplyHead(Frame(sent), number, date);
            && Readable(Frame(h)) && DecodeHead(Frame(h)) == Some(h)
            && h.seq_ == Some(number) && h.unknown == sent.unknown && h.data.Some?
            && ParseRsp(h.data.value) ==
               Some(DataRsp(Some(if req.cmd.Some? then req.cmd.value else 0),
                            Some(if req.query.Some? then req.query.value else 0), Some(date + [13, 10]), []))
  {
    var f := Frame(sent);
    var reply := sent.(seq_ := Some(number), data := Some(SerializeRsp(Answer(req, date))));
    ReceivedFromFrame(sent, req);
    ReplyDecodes(f, number, date);
    AnswerArrives(req, date);
    assert ReplyHead(f, number, date) == reply;
  }

  // ---------- handlers that wait at the same time ----------

  /** A request arrives and is handled up to the wait; or the wait of handler k is over. */
  datatype HandlerStep = Arrive(src: Bytes) | WakeUp(k: nat, date: Bytes)

  datatype SentReply = SentReply(handler: nat, date: Bytes, frame: Bytes)

  /** The counter, what the handlers received in order of arrival, who is in the wait, and what
      has been sent. */
  datatype Traffic = Traffic(id: nat, received: seq<Bytes>, waiting: set<nat>, sent: seq<SentReply>)

  predicate StepReadable(step: HandlerStep) {
    step.Arrive? ==> Readable(step.src)
  }

  predicate Sound(s: Traffic) {
    && (forall src :: src in s.received ==> Readable(src))
    && (forall k :: k in s.waiting ==> k < |s.received| && Received(s.received[k]).Some?)
  }

  function Handle(s: Traffic, step: HandlerStep): (t: Traffic)
    requires Sound(s) && StepReadable(step)
    ensures Sound(t)
  {
    match step
    case Arrive(src) =>
      s.(received := s.received + [src],
         waiting := s.waiting + if Received(src).Some? then {|s.received|} else {})
    case WakeUp(k, date) =>
      if k !in s.waiting then s
      else
        var id := NextSeq(s.id);
        s.(id := id, waiting := s.waiting - {k},
           sent := s.sent + [SentReply(k, date, Frame(ReplyHead(s.received[k], id, date)))])
  }

  function HandleAll(s: Traffic, steps: seq<HandlerStep>): (t: Traffic)
    requires Sound(s) && forall step :: step in steps ==> StepReadable(step)
    ensures Sound(t)
    decreases |steps|
  {
    if steps == [] then s else HandleAll(Handle(s, steps[0]), steps[1..])
  }

  /** A handler in its wait: its stack holds the package and the request. */
  ghost predicate InWait(pkg: HeadPkg, req: DataReq, counter: SeqCounter, src: Bytes)
    reads pkg
    requires Readable(src) && Received(src).Some?
  {
    && pkg.counter == counter && Some(req) == Received(src)
    && pkg.head == DecodeHead(src).value.(data := Some(BodyOf(DecodeHead(src).value)))
  }

  lemma WaitingHead(src: Bytes, head: Head, req: DataReq, number: nat, date: Bytes)
    requires Readable(src) && Some(req) == Received(src)
    requires head == DecodeHead(src).value.(data := Some(BodyOf(DecodeHead(src).value)))
    ensures head.(seq_ := Some(number), data := Some(SerializeRsp(Answer(req, date)))) == ReplyHead(src, number, date)
  {
  }

  /** The stacks of the handlers that wait, each with a package of its own. */
  ghost predicate Stacks(pkgs: map<nat, HeadPkg>, reqs: map<nat, DataReq>, counter: SeqCounter, s: Traffic)
    reads pkgs.Values
    requires Sound(s)
  {
    && pkgs.Keys == reqs.Keys == s.waiting
    && (forall k :: k in s.waiting ==> InWait(pkgs[k], reqs[k], counter, s.received[k]))
    && (forall j, k :: j in s.waiting && k in s.waiting && j != k ==> pkgs[j] != pkgs[k])
  }

  method Begin(pkgs: map<nat, HeadPkg>, reqs: map<nat, DataReq>, counter: SeqCounter, ghost s: Traffic, n: nat, src: Bytes)
    returns (pkgs': map<nat, HeadPkg>, reqs': map<nat, DataReq>)
    requires Sound(s) && Stacks(pkgs, reqs, counter, s) && n == |s.received| && Readable(src)
    ensures Stacks(pkgs', reqs', counter, Handle(s, Arrive(src)))
    ensures forall k :: k in pkgs' ==> fresh(pkgs'[k]) || (k in pkgs && pkgs'[k] == pkgs[k])
  {
    hide Received, DecodeHead, ReplyHead, Readable, Frame, SerializeRsp, Answer, BodyOf;
    pkgs', reqs' := pkgs, reqs;
    var pkg, req := Receive(counter, src);
    if req.Some? {
      pkgs', reqs' := pkgs[n := pkg], reqs[n := req.value];
    }
  }

  method Finish(pkgs: map<nat, HeadPkg>, reqs: map<nat, DataReq>, counter: SeqCounter, ghost s: Traffic, k: nat, date: Bytes)
    returns (reply: SentReply)
    requires Sound(s) && Stacks(pkgs, reqs, counter, s) && k in pkgs
    requires counter.Valid() && counter.id == s.id
    modifies pkgs[k], counter
    ensures Stacks(pkgs - {k}, reqs - {k}, counter, Handle(s, WakeUp(k, date)))
    ensures var t := Handle(s, WakeUp(k, date)); counter.Valid() && counter.id == t.id && t.sent == s.sent + [reply]
  {
    hide Received, DecodeHead, ReplyHead, Readable, Frame, SerializeRsp, Answer, BodyOf;
    WaitingHead(s.received[k], pkgs[k].head, reqs[k], NextSeq(s.id), date);
    var frame := Reply(pkgs[k], reqs[k], date);
    reply := SentReply(k, date, frame);
  }

  /** Handlers of one process, interleaved at their waits, sharing its counter. */
  method ServeAll(counter: SeqCounter, steps: seq<HandlerStep>) returns (sent: seq<SentReply>)
    requires counter.Valid() && forall step :: step in steps ==> StepReadable(step)
    modifies counter
    ensures counter.Valid()
    ensures var t := HandleAll(Traffic(old(counter.id), [], {}, []), steps); sent == t.sent && counter.id == t.id
  {
    sent := [];
    var pkgs: map<nat, HeadPkg>, reqs: map<nat, DataReq> := map[], map[];
    var n := 0;
    ghost var s := Traffic(counter.id, [], {}, []);
    ghost var end := HandleAll(s, steps);
    for i := 0 to |steps|
      invariant Sound(s) && Stacks(pkgs, reqs, counter, s)
      invariant counter.Valid() && counter.id == s.id && sent == s.sent && n == |s.received|
      invariant forall k :: k in pkgs ==> fresh(pkgs[k])
      invariant HandleAll(s, steps[i..]) == end
    {
      assert steps[i] in steps && steps[i..][1..] == steps[i + 1..];
      assert HandleAll(Handle(s, steps[i]), steps[i + 1..]) == end;
      hide HandleAll, InWait, Received, ReplyHead;
      match steps[i] {
        case Arrive(src) =>
          pkgs, reqs := Begin(pkgs, reqs, counter, s, n, src);
          n := n + 1;
        case WakeUp(k, date) =>
          if k in pkgs {
            var reply := Finish(pkgs, reqs, counter, s, k, date);
            sent := sent + [reply];
            pkgs, reqs := pkgs - {k}, reqs - {k};
          }
      }
      s := Handle(s, steps[i]);
    }
  }

  // ---------- what the interleaved handlers send ----------

  /** Reply n, counting from 0, is the answer to what its handler received, under number n + 1
      behind the counter's start. */
  ghost predicate IsReply(id: nat, s: Traffic, n: nat)
    requires Sound(s) && n < |s.sent|
  {
    var r := s.sent[n];
    && r.handler < |s.received| && r.handler !in s.waiting && Received(s.received[r.handler]).Some?
    && r.frame == Frame(ReplyHead(s.received[r.handler], Iterate(id, n + 1), r.date))
  }

  ghost predicate HasReplied(s: Traffic, k: nat) {
    exists n :: 0 <= n < |s.sent| && s.sent[n].handler == k
  }

  ghost predicate OneReplyEach(s: Traffic) {
    forall m, n :: 0 <= m < n < |s.sent| ==> s.sent[m].handler != s.sent[n].handler
  }

  ghost predicate NoneForgotten(s: Traffic)
    requires Sound(s)
  {
    forall k :: 0 <= k < |s.received| && Received(s.received[k]).Some? ==> k in s.waiting || HasReplied(s, k)
  }

  /** Every handler whose bytes held a request is in its wait or has sent one reply. */
  ghost predicate Answered(id: nat, s: Traffic)
    requires Sound(s)
  {
    && s.id == Iterate(id, |s.sent|)
    && (forall n :: 0 <= n < |s.sent| ==> IsReply(id, s, n))
    && OneReplyEach(s) && NoneForgotten(s)
  }

  lemma ArriveKeepsAnswered(id: nat, s: Traffic, src: Bytes)
    requires Sound(s) && Answered(id, s) && Readable(src)
    ensures Answered(id, Handle(s, Arrive(src)))
  {
    hide Received, ReplyHead, Frame, Iterate, Readable;
    var t := Handle(s, Arrive(src));
    forall n | 0 <= n < |t.sent|
      ensures IsReply(id, t, n)
    {
      assert IsReply(id, s, n);
    }
    forall k | 0 <= k < |t.received| && Received(t.received[k]).Some?
      ensures k in t.waiting || HasReplied(t, k)
    {
      if k < |s.received| && HasReplied(s, k) {
        var n :| 0 <= n < |s.sent| && s.sent[n].handler == k;
        assert t.sent[n].handler == k;
      }
    }
  }

  lemma RepliesRemain(s: Traffic, k: nat, date: Bytes, j: nat)
    requires Sound(s) && k in s.waiting && (HasReplied(s, j) || j == k)
    ensures HasReplied(Handle(s, WakeUp(k, date)), j)
  {
    hide Received, ReplyHead, Frame, NextSeq;
    var t := Handle(s, WakeUp(k, date));
    if HasReplied(s, j) {
      var n :| 0 <= n < |s.sent| && s.sent[n].handler == j;
      assert t.sent[n].handler == j;
    } else {
      assert t.sent[|s.sent|].handler == k;
    }
  }

  lemma WakeUpForgetsNone(s: Traffic, k: nat, date: Bytes)
    requires Sound(s) && NoneForgotten(s) && k in s.waiting
    ensures NoneForgotten(Handle(s, WakeUp(k, date)))
  {
    var t := Handle(s, WakeUp(k, date));
    assert t.received == s.received && t.waiting == s.waiting - {k};
    hide HasReplied, Received, Handle;
    forall j | 0 <= j < |t.received| && Received(t.received[j]).Some?
      ensures j in t.waiting || HasReplied(t, j)
    {
      if j !in t.waiting { RepliesRemain(s, k, date, j); }
    }
  }

  lemma ReplyFollows(id: nat, s: Traffic, k: nat, date: Bytes, n: nat)
    requires Sound(s) && s.id == Iterate(id, |s.sent|) && k in s.waiting && n <= |s.sent|
    requires n < |s.sent| ==> IsReply(id, s, n)
    ensures IsReply(id, Handle(s, WakeUp(k, date)), n)
  {
    var t := Handle(s, WakeUp(k, date));
    assert NextSeq(s.id) == Iterate(id, |s.sent| + 1);
    assert t.sent[n] == if n < |s.sent| then s.sent[n]
                        else SentReply(k, date, Frame(ReplyHead(s.received[k], NextSeq(s.id), date)));
    assert t.received == s.received && t.waiting == s.waiting - {k};
    hide Received, ReplyHead, Frame, Iterate, Readable, NextSeq, Handle;
  }

  lemma WaitingHasNotReplied(id: nat, s: Traffic, k: nat, m: nat)
    requires Sound(s) && k in s.waiting && m < |s.sent| && IsReply(id, s, m)
    ensures s.sent[m].handler != k
  {
    hide Received, ReplyHead, Frame, Iterate;
  }

  lemma WakeUpAnswersOnce(s: Traffic, k: nat, date: Bytes)
    requires Sound(s) && OneReplyEach(s) && k in s.waiting
    requires forall m :: 0 <= m < |s.sent| ==> s.sent[m].handler != k
    ensures OneReplyEach(Handle(s, WakeUp(k, date)))
  {
    var t := Handle(s, WakeUp(k, date));
    assert t.sent[..|s.sent|] == s.sent && |t.sent| == |s.sent| + 1 && t.sent[|s.sent|].handler == k;
    hide Sound, Handle;
    forall m, n | 0 <= m < n < |t.sent|
      ensures t.sent[m].handler != t.sent[n].handler
    {
      assert t.sent[m] == s.sent[m];
      if n < |s.sent| { assert t.sent[n] == s.sent[n]; }
    }
  }

  lemma WakeUpKeepsAnswered(id: nat, s: Traffic, k: nat, date: Bytes)
    requires Sound(s) && Answered(id, s) && k in s.waiting
    ensures Answered(id, Handle(s, WakeUp(k, date)))
  {
    var t := Handle(s, WakeUp(k, date));
    assert t.id == Iterate(id, |t.sent|);
    assert |t.sent| == |s.sent| + 1;
    WakeUpForgetsNone(s, k, date);
    forall m | 0 <= m < |s.sent|
      ensures s.sent[m].handler != k
    {
      WaitingHasNotReplied(id, s, k, m);
    }
    WakeUpAnswersOnce(s, k, date);
    hide Handle, IsReply, OneReplyEach, NoneForgotten, Iterate, Received;
    forall n | 0 <= n < |t.sent|
      ensures IsReply(id, t, n)
    {
      ReplyFollows(id, s, k, date, n);
    }
  }

  lemma {:induction false} HandleAllKeepsAnswered(id: nat, s: Traffic, steps: seq<HandlerStep>)
    requires Sound(s) && Answered(id, s) && forall step :: step in steps ==> StepReadable(step)
    ensures Answered(id, HandleAll(s, steps))
    decreases |steps|
  {
    if steps != [] {
      assert StepReadable(steps[0]);
      hide Answered, Sound, Readable, Received;
      match steps[0] {
        case Arrive(src) => ArriveKeepsAnswered(id, s, src);
        case WakeUp(k, date) =>
          if k in s.waiting { WakeUpKeepsAnswered(id, s, k, date); }
      }
      HandleAllKeepsAnswered(id, Handle(s, steps[0]), steps[1..]);
    }
  }

  /** However the handlers of a process are interleaved, each one whose bytes hold a request
      waits or has sent one reply, and reply n is the answer to what its own handler received
      under the n-th number used. */
  lemma InterleavedReplies(id: nat, steps: seq<HandlerStep>)
    requires forall step :: step in steps ==> StepReadable(step)
    ensures Answered(id, HandleAll(Traffic(id, [], {}, []), steps))
  {
    var s := Traffic(id, [], {}, []);
    assert Answered(id, s);
    HandleAllKeepsAnswered(id, s, steps);
  }

  /** The head of reply n. */
  function HeadOfReply(id: nat, s: Traffic, n: nat): Head
    requires Sound(s) && n < |s.sent| && s.sent[n].handler < |s.received|
    requires Received(s.received[s.sent[n].handler]).Some?
  {
    ReplyHead(s.received[s.sent[n].handler], Iterate(id, n + 1), s.sent[n].date)
  }

  /** Two replies of interleaved handlers decode to heads with the same number exactly when
      they were sent a multiple of 2^32 replies apart. */
  lemma ReplyNumbersRepeatIff(id: nat, s: Traffic, m: nat, n: nat)
    requires Sound(s) && Answered(id, s) && id < U32 && m <= n < |s.sent|
    requires IsReply(id, s, m) && Fits(HeadOfReply(id, s, m))
    requires IsReply(id, s, n) && Fits(HeadOfReply(id, s, n))
    ensures var a, b := s.sent[m].frame, s.sent[n].frame;
            && Readable(a) && Readable(b) && DecodeHead(a).Some? && DecodeHead(b).Some?
            && (DecodeHead(a).value.seq_ == DecodeHead(b).value.seq_ <==> (n - m) % U32 == 0)
  {
    hide Readable, DecodeHead, Frame, Fits, Iterate, Received;
    FramesRepeatIff(id, m, n, HeadOfReply(id, s, m), HeadOfReply(id, s, n));
  }

  // ---------- the steps and what comes of them ----------

  /** What arrives, in order. */
  function Sources(steps: seq<HandlerStep>): seq<Bytes> {
    if steps == [] then []
    else
      var last := steps[|steps| - 1];
      Sources(steps[..|steps| - 1]) + if last.Arrive? then [last.src] else []
  }

  ghost predicate AllReadable(steps: seq<HandlerStep>) {
    forall step :: step in steps ==> StepReadable(step)
  }

  /** Step i wakes handler k after its request has arrived. */
  ghost predicate Wakes(steps: seq<HandlerStep>, k: nat, i: nat) {
    i < |steps| && steps[i].WakeUp? && steps[i].k == k && k < |Sources(steps[..i])|
  }

  ghost predicate WakesFirst(steps: seq<HandlerStep>, k: nat, i: nat) {
    Wakes(steps, k, i) && forall j :: 0 <= j < i ==> !Wakes(steps, k, j)
  }

  ghost predicate Woken(steps: seq<HandlerStep>, k: nat) {
    exists i: nat :: Wakes(steps, k, i)
  }

  lemma {:induction false} HandleAllThen(s: Traffic, steps: seq<HandlerStep>, step: HandlerStep)
    requires Sound(s) && AllReadable(steps) && StepReadable(step)
    ensures AllReadable(steps + [step]) && HandleAll(s, steps + [step]) == Handle(HandleAll(s, steps), step)
    decreases |steps|
  {
    hide Handle, Sound, StepReadable;
    if steps == [] {
      assert steps + [step] == [step] && [step][1..] == [];
    } else {
      HandleAllThen(Handle(s, steps[0]), steps[1..], step);
      assert (steps + [step])[0] == steps[0] && (steps + [step])[1..] == steps[1..] + [step];
    }
  }

  lemma WakesBefore(steps: seq<HandlerStep>, step: HandlerStep, k: nat, i: nat)
    requires i < |steps|
    ensures Wakes(steps + [step], k, i) <==> Wakes(steps, k, i)
  {
    assert (steps + [step])[..i] == steps[..i];
  }

  lemma WakesLast(steps: seq<HandlerStep>, step: HandlerStep, k: nat)
    ensures Wakes(steps + [step], k, |steps|) <==> step.WakeUp? && step.k == k && k < |Sources(steps)|
  {
    assert (steps + [step])[..|steps|] == steps;
  }

  lemma WokenThen(steps: seq<HandlerStep>, step: HandlerStep, k: nat)
    ensures Woken(steps + [step], k) <==> Woken(steps, k) || (step.WakeUp? && step.k == k && k < |Sources(steps)|)
  {
    WakesLast(steps, step, k);
    if Woken(steps, k) {
      var i: nat :| Wakes(steps, k, i);
      WakesBefore(steps, step, k, i);
    }
    if Woken(steps + [step], k) {
      var i: nat :| Wakes(steps + [step], k, i);
      if i < |steps| { WakesBefore(steps, step, k, i); }
    }
  }

  lemma WakesFirstThen(steps: seq<HandlerStep>, step: HandlerStep, k: nat, i: nat)
    requires WakesFirst(steps, k, i)
    ensures WakesFirst(steps + [step], k, i)
  {
    WakesBefore(steps, step, k, i);
    forall j | 0 <= j < i
      ensures !Wakes(steps + [step], k, j)
    {
      WakesBefore(steps, step, k, j);
    }
  }

  lemma WakesFirstLast(steps: seq<HandlerStep>, step: HandlerStep, k: nat)
    requires step.WakeUp? && step.k == k && k < |Sources(steps)| && !Woken(steps, k)
    ensures WakesFirst(steps + [step], k, |steps|)
  {
    WakesLast(steps, step, k);
    forall j | 0 <= j < |steps|
      ensures !Wakes(steps + [step], k, j)
    {
      WakesBefore(steps, step, k, j);
    }
  }

  ghost predicate WaitsAsItShould(s: Traffic, steps: seq<HandlerStep>, k: nat)
    requires Sound(s)
  {
    k in s.waiting <==> k < |s.received| && Received(s.received[k]).Some? && !Woken(steps, k)
  }

  /** What has arrived has been received, and a handler waits if and only if its bytes hold a
      request and it has not been woken since they arrived. */
  ghost predicate Follows(s: Traffic, steps: seq<HandlerStep>)
    requires Sound(s)
  {
    s.received == Sources(steps) && forall k: nat :: WaitsAsItShould(s, steps, k)
  }

  ghost predicate SentBy(r: SentReply, steps: seq<HandlerStep>, i: nat) {
    WakesFirst(steps, r.handler, i) && r.date == steps[i].date
  }

  /** Every reply was sent at the first wake-up of its handler, with the date of that step. */
  ghost predicate SentAt(sent: seq<SentReply>, steps: seq<HandlerStep>, at: seq<nat>) {
    && |at| == |sent|
    && (forall n :: 0 <= n < |at| ==> SentBy(sent[n], steps, at[n]))
    && (forall m, n :: 0 <= m < n < |at| ==> at[m] < at[n])
  }

  lemma SourcesThen(steps: seq<HandlerStep>, step: HandlerStep)
    ensures Sources(steps + [step]) == Sources(steps) + if step.Arrive? then [step.src] else []
  {
    assert (steps + [step])[..|steps|] == steps;
  }

  lemma HandleChanges(s: Traffic, step: HandlerStep, k: nat)
    requires Sound(s) && StepReadable(step)
    ensures var t := Handle(s, step);
            && t.received == s.received + (if step.Arrive? then [step.src] else [])
            && (k in t.waiting <==>
                  || (k in s.waiting && !(step.WakeUp? && step.k == k))
                  || (step.Arrive? && k == |s.received| && Received(step.src).Some?))
  {
    hide Received, ReplyHead, Frame, NextSeq, Readable;
  }

  lemma WaitsThen(s: Traffic, steps: seq<HandlerStep>, step: HandlerStep, k: nat)
    requires Sound(s) && s.received == Sources(steps) && WaitsAsItShould(s, steps, k) && StepReadable(step)
    ensures WaitsAsItShould(Handle(s, step), steps + [step], k)
  {
    hide Received, Handle, Woken, Sources, Readable, Sound, StepReadable;
    HandleChanges(s, step, k);
    WokenThen(steps, step, k);
    if step.Arrive? && k == |s.received| { NotWokenYet(steps, k); }
  }

  lemma FollowsThen(s: Traffic, steps: seq<HandlerStep>, step: HandlerStep)
    requires Sound(s) && Follows(s, steps) && StepReadable(step)
    ensures Follows(Handle(s, step), steps + [step])
  {
    hide Handle, WaitsAsItShould, Sources, Sound, StepReadable;
    SourcesThen(steps, step);
    HandleChanges(s, step, 0);
    forall k: nat
      ensures WaitsAsItShould(Handle(s, step), steps + [step], k)
    {
      WaitsThen(s, steps, step, k);
    }
  }

  lemma {:induction false} SourcesGrow(steps: seq<HandlerStep>, i: nat)
    requires i <= |steps|
    ensures |Sources(steps[..i])| <= |Sources(steps)|
    decreases |steps|
  {
    if i < |steps| {
      SourcesGrow(steps[..|steps| - 1], i);
      assert steps[..|steps| - 1][..i] == steps[..i];
    } else {
      assert steps[..i] == steps;
    }
  }

  lemma NotWokenYet(steps: seq<HandlerStep>, k: nat)
    requires k >= |Sources(steps)|
    ensures !Woken(steps, k)
  {
    forall i: nat
      ensures !Wakes(steps, k, i)
    {
      if i < |steps| { SourcesGrow(steps, i); }
    }
  }

  lemma SentByThen(r: SentReply, steps: seq<HandlerStep>, step: HandlerStep, i: nat)
    requires SentBy(r, steps, i)
    ensures i < |steps| && SentBy(r, steps + [step], i)
  {
    WakesFirstThen(steps, step, r.handler, i);
  }

  lemma SentAtKept(sent: seq<SentReply>, steps: seq<HandlerStep>, step: HandlerStep, at: seq<nat>)
    requires SentAt(sent, steps, at)
    ensures SentAt(sent, steps + [step], at) && forall n :: 0 <= n < |at| ==> at[n] < |steps|
  {
    hide SentBy;
    forall n | 0 <= n < |at|
      ensures at[n] < |steps| && SentBy(sent[n], steps + [step], at[n])
    {
      SentByThen(sent[n], steps, step, at[n]);
    }
  }

  lemma SentLast(steps: seq<HandlerStep>, step: HandlerStep, r: SentReply)
    requires step.WakeUp? && step.k == r.handler && step.date == r.date
    requires r.handler < |Sources(steps)| && !Woken(steps, r.handler)
    ensures SentBy(r, steps + [step], |steps|)
  {
    WakesFirstLast(steps, step, r.handler);
  }

  lemma SentAtGrows(sent: seq<SentReply>, r: SentReply, steps: seq<HandlerStep>, at: seq<nat>, i: nat)
    requires SentAt(sent, steps, at) && SentBy(r, steps, i) && forall n :: 0 <= n < |at| ==> at[n] < i
    ensures SentAt(sent + [r], steps, at + [i])
  {
    hide SentBy;
  }

  lemma SentAtThen(s: Traffic, steps: seq<HandlerStep>, step: HandlerStep, at: seq<nat>) returns (at': seq<nat>)
    requires Sound(s) && Follows(s, steps) && StepReadable(step) && SentAt(s.sent, steps, at)
    ensures SentAt(Handle(s, step).sent, steps + [step], at')
  {
    hide Received, ReplyHead, Frame, NextSeq, Sources, Readable, SentAt, Woken;
    SentAtKept(s.sent, steps, step, at);
    if step.WakeUp? && step.k in s.waiting {
      assert WaitsAsItShould(s, steps, step.k);
      var r := Handle(s, step).sent[|s.sent|];
      assert Handle(s, step).sent == s.sent + [r];
      SentLast(steps, step, r);
      SentAtGrows(s.sent, r, steps + [step], at, |steps|);
      at' := at + [|steps|];
    } else {
      at' := at;
    }
  }

  lemma {:induction false} StepsFollowed(id: nat, steps: seq<HandlerStep>) returns (at: seq<nat>)
    requires AllReadable(steps)
    ensures var t := HandleAll(Traffic(id, [], {}, []), steps); Follows(t, steps) && SentAt(t.sent, steps, at)
    decreases |steps|
  {
    if steps == [] {
      at := [];
    } else {
      var first, last := steps[..|steps| - 1], steps[|steps| - 1];
      assert steps == first + [last] && last in steps && AllReadable(first);
      hide Handle, HandleAll, Follows, SentAt;
      var before := StepsFollowed(id, first);
      HandleAllThen(Traffic(id, [], {}, []), first, last);
      var s := HandleAll(Traffic(id, [], {}, []), first);
      FollowsThen(s, first, last);
      at := SentAtThen(s, first, last, before);
    }
  }

  /** What was sent, in terms of the steps alone: the bytes received are those that arrived, a
      handler has replied if and only if its bytes hold a request and it was woken after they
      arrived, and the replies were sent in the order of those wake-ups, each with the date of
      its own. */
  lemma RepliesFollowSteps(id: nat, steps: seq<HandlerStep>) returns (at: seq<nat>)
    requires AllReadable(steps)
    ensures var t := HandleAll(Traffic(id, [], {}, []), steps);
            && t.received == Sources(steps)
            && (forall k: nat :: HasReplied(t, k) <==>
                  k < |Sources(steps)| && Received(t.received[k]).Some? && Woken(steps, k))
            && SentAt(t.sent, steps, at)
  {
    at := StepsFollowed(id, steps);
    InterleavedReplies(id, steps);
    var t := HandleAll(Traffic(id, [], {}, []), steps);
    hide HandleAll, Received, ReplyHead, Frame, Iterate, Sources, Woken, SentAt;
    forall k: nat
      ensures HasReplied(t, k) <==> k < |Sources(steps)| && Received(t.received[k]).Some? && Woken(steps, k)
    {
      assert WaitsAsItShould(t, steps, k);
      if HasReplied(t, k) {
        var n :| 0 <= n < |t.sent| && t.sent[n].handler == k;
        assert IsReply(id, t, n);
      }
    }
  }
}
