/** What the io_uring server answers, byte for byte, and when it closes. */
module UringAnswers {
  import opened Text
  import opened Segments
  import opened Payload
  import opened Accumulator
  import opened AccumulatorTheorems
  import opened UringTransmit
  import opened UringInvariant
  import opened UringTheorems

  // ------------------------------------------------------------ one frame

  /** What is decided for each frame, with `served` as it was when the frame was cut. */
  function Decisions(fs: seq<Frame>, at: seq<nat>, limit: nat): (ks: seq<bool>)
    requires |fs| == |at|
    ensures |ks| == |fs| && forall k :: 0 <= k < |fs| ==> ks[k] == Kept(fs[k].keep, at[k], limit)
  {
    seq(|fs|, k requires 0 <= k < |fs| => Kept(fs[k].keep, at[k], limit))
  }

  lemma AnswerIsResponse(keep: bool, served: nat, limit: nat)
    ensures Answering(Answer(keep, served, limit), [Kept(keep, served, limit)])
  {
    ConstantsAreTexts();
  }

  lemma AnsweringAppend(q: seq<OwnedBuf>, ks: seq<bool>, r: seq<OwnedBuf>, ls: seq<bool>)
    requires Answering(q, ks) && Answering(r, ls)
    ensures Answering(q + r, ks + ls)
  {
    hide HeadText;
    forall k | 0 <= k < |ks + ls| ensures IsHead((q + r)[2 * k], (ks + ls)[k]) && IsBody((q + r)[2 * k + 1]) {
      if k >= |ks| {
        assert IsHead(r[2 * (k - |ks|)], ls[k - |ks|]) && IsBody(r[2 * (k - |ks|) + 1]);
      }
    }
  }

  lemma {:induction false} AnswersAreResponses(fs: seq<Frame>, served: nat, limit: nat)
    ensures Answering(Answers(fs, served, limit), Decisions(fs, seq(|fs|, _ => served), limit))
    decreases |fs|
  {
    hide Answer, Answering;
    var ks := Decisions(fs, seq(|fs|, _ => served), limit);
    if fs == [] {
      NoAnswers();
      assert ks == [];
    } else {
      var rest := fs[1..];
      AnswerIsResponse(fs[0].keep, served, limit);
      AnswersAreResponses(rest, served, limit);
      AnsweringAppend(Answer(fs[0].keep, served, limit), [Kept(fs[0].keep, served, limit)],
                      Answers(rest, served, limit), Decisions(rest, seq(|rest|, _ => served), limit));
      assert ks == [Kept(fs[0].keep, served, limit)] + Decisions(rest, seq(|rest|, _ => served), limit);
    }
  }

  // ------------------------------------------------------------ runs

  ghost predicate Rising(at: seq<nat>, top: nat) {
    (forall k :: 0 <= k < |at| ==> at[k] <= top) && (forall j, k :: 0 <= j < k < |at| ==> at[j] <= at[k])
  }

  /** What is enqueued answers the requests received, in order, and `served` only rose meanwhile. */
  ghost predicate Answered(w: World, at: seq<nat>, limit: nat) {
    var fs := Receive(FRESH_RX, w.log.received).frames;
    |fs| == |at| && Answering(w.log.enqueued, Decisions(fs, at, limit)) && Rising(at, w.tx.served)
  }

  lemma StepReceives(w: World, i: Input, limit: nat)
    requires Enabled(w, i.e) && !i.e.Generate?
    ensures var v := Step(w, i.e, i.sqes, limit);
            && v.tx.served >= w.tx.served
            && (if w.open && i.e.Recv?
                then v.log.received == w.log.received + i.e.bytes && v.tx.served == w.tx.served
                     && v.log.enqueued == w.log.enqueued + Answers(Receive(w.rx, i.e.bytes).frames, w.tx.served, limit)
                else v.log.received == w.log.received && v.log.enqueued == w.log.enqueued)
  {
    hide SendKick, PostKick, Receive, Answers, MustClose, Left;
    var v := Delivered(w, OpOf(i.e));
    match i.e
    case Recv(bytes) => KickServes(Parsed(v, bytes, limit).tx, v.ring, i.sqes);
    case SendOk(_) => KickServes(Retire(v.tx), v.ring, i.sqes);
    case PollOut => KickServes(v.tx.(polloutArmed := false), v.ring, i.sqes);
    case Task => KickServes(v.tx, v.ring, i.sqes);
    case _ =>
  }

  lemma {:induction false} KickServes(t: Tx, ring: multiset<Op>, sqes: seq<bool>)
    ensures SendKick(t, ring, sqes).tx.served == t.served && PostKick(t, ring, sqes).tx.served == t.served
    decreases |sqes|
  {
    if sqes != [] {
      KickServes(t, ring, sqes[1..]);
      KickServes(Rollback(Load(t)), ring, sqes[1..]);
    }
  }

  lemma {:induction false} MoreAnswered(q: seq<OwnedBuf>, fs: seq<Frame>, at: seq<nat>, gs: seq<Frame>, served: nat, limit: nat)
    requires |fs| == |at| && Rising(at, served) && Answering(q, Decisions(fs, at, limit))
    ensures var all := at + seq(|gs|, _ => served);
            Rising(all, served) && Answering(q + Answers(gs, served, limit), Decisions(fs + gs, all, limit))
  {
    hide Answering, Answers, Kept;
    var all := at + seq(|gs|, _ => served);
    AnswersAreResponses(gs, served, limit);
    AnsweringAppend(q, Decisions(fs, at, limit), Answers(gs, served, limit), Decisions(gs, seq(|gs|, _ => served), limit));
    assert Decisions(fs + gs, all, limit) == Decisions(fs, at, limit) + Decisions(gs, seq(|gs|, _ => served), limit);
  }

  lemma {:induction false} RunAnswers(w: World, at: seq<nat>, ins: seq<Input>, limit: nat) returns (all: seq<nat>)
    requires Inv(w) && Possible(w, ins, limit) && NoGenerate(ins) && Answered(w, at, limit)
    ensures Answered(Run(w, ins, limit), all, limit)
    decreases |ins|
  {
    hide Step, Inv, Answering, Answers, Receive, Decisions;
    if ins == [] {
      all := at;
    } else {
      var i := ins[0];
      assert i in ins;
      StepKeepsInv(w, i, limit);
      StepReceives(w, i, limit);
      var v := Step(w, i.e, i.sqes, limit);
      var next := at;
      if w.open && i.e.Recv? {
        FramesReceived(w, i.e.bytes);
        var gs := Receive(w.rx, i.e.bytes).frames;
        MoreAnswered(w.log.enqueued, Receive(FRESH_RX, w.log.received).frames, at, gs, w.tx.served, limit);
        next := at + seq(|gs|, _ => w.tx.served);
      }
      all := RunAnswers(v, next, ins[1..], limit);
    }
  }

  lemma {:induction false} FramesReceived(w: World, bytes: string)
    requires Inv(w) && !w.stuck
    ensures Receive(FRESH_RX, w.log.received + bytes).frames
         == Receive(FRESH_RX, w.log.received).frames + Receive(w.rx, bytes).frames
  {
    hide Reframe, TxOk, Conserved, RingOk;
    ReceiveTwice(FRESH_RX, w.log.received, bytes);
  }

  lemma {:induction false} NothingAnswered(limit: nat)
    ensures Answered(START, [], limit)
  {
    EmptyFront("");
    NothingToFrame(true);
  }

  /**
    Over every run of the server: what is retired, in flight and queued is one head and one marked body
    for every request received, in order. The head keeps the connection exactly where the request asks
    for it and `served` was below the limit less one.
  */
  lemma {:induction false} AnswersInOrder(ins: seq<Input>, limit: nat) returns (at: seq<nat>)
    requires Possible(START, ins, limit) && NoGenerate(ins)
    ensures var w := Run(START, ins, limit); var fs := Receive(FRESH_RX, w.log.received).frames;
            var q := w.log.retired + (w.tx.inflight + w.tx.txq);
            && |fs| == |at| && |q| == 2 * |fs| && Rising(at, w.tx.served)
            && (forall k :: 0 <= k < |fs| ==>
                  && IsHead(q[2 * k], fs[k].keep && at[k] < (if limit == 0 then 0xFFFF_FFFF else limit - 1))
                  && IsBody(q[2 * k + 1]))
  {
    hide Run, Receive, Eors, HeadText;
    StartHasInv();
    NothingAnswered(limit);
    at := RunAnswers(START, [], ins, limit);
    RunKeepsInv(START, ins, limit);
  }

  /**
    From bytes to bytes: a pipeline of messages that has arrived in any pieces is, when nothing is
    outstanding on a live connection, answered by one response a message, and if the kernel took every
    batch whole the responses are what is on the wire.
  */
  lemma {:induction false} PipelineIsServed(ins: seq<Input>, limit: nat, ms: seq<Message>) returns (at: seq<nat>)
    requires Possible(START, ins, limit) && NoGenerate(ins) && NeverAbandoned(START, ins, limit)
    requires var w := Run(START, ins, limit);
             w.open && !w.tx.closing && Quiet(w) && w.log.received == BytesOf(FramesOf(ms))
    requires forall m :: m in ms ==> GoodMessage(m)
    ensures var w := Run(START, ins, limit);
            && |at| == |ms| == w.tx.served && Rising(at, w.tx.served)
            && Wire(w.log.retired) == Responses(Decisions(FramesOf(ms), at, limit))
            && (AllWhole(START, ins, limit) ==> w.log.wire == Responses(Decisions(FramesOf(ms), at, limit)))
  {
    hide Run, Receive, BytesOf, FramesOf, GoodMessage, Wire, AllWhole, HeadText, Responses;
    var w := Run(START, ins, limit);
    var received := w.log.received;
    assert Flatten([received]) == received by { FlattenOne(received); }
    PipelineIsFramed(ms, [received]);
    OneSegment(FRESH_RX, received);
    QuiescenceMeansServed(ins, limit);
    at := AnswersInOrder(ins, limit);
    assert w.log.retired + ([] + []) == w.log.retired;
    AnsweringWire(w.log.retired, Decisions(FramesOf(ms), at, limit));
    WireIsRetiredIff(ins, limit);
  }

  lemma FlattenOne(s: string)
    ensures Flatten([s]) == s
  {
    assert [s][1..] == [];
    EmptyBack(s);
  }
}
