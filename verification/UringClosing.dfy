/** When the io_uring server closes a connection, and that it does so when it was asked to. */
module UringClosing {
  import opened Segments
  import opened Accumulator
  import opened UringTransmit
  import opened UringInvariant
  import opened UringTheorems
  import opened UringAnswers

  /**
    A completion marks the connection as closing if and only if it was so before, the input has ended,
    a send has failed, or a batch has been retired whose last segment ends a response while the limit is
    reached or the connection is not to be kept.
  */
  lemma {:induction false} ClosingIff(w: World, i: Input, limit: nat)
    requires Inv(w) && w.open && Enabled(w, i.e)
    ensures Step(w, i.e, i.sqes, limit).tx.closing <==>
              || w.tx.closing || i.e.RecvEnd? || i.e.SendError?
              || (i.e.SendOk? && w.tx.inflight != [] && w.tx.inflight[|w.tx.inflight| - 1].eor
                  && (w.tx.served + 1 >= limit || !w.rx.keepAlive))
  {
    hide SendKick, PostKick, Receive, Answers, Retire, Rollback, Left, Step, Parsed, Enqueue, Conserved;
    StepCases(w, i.e, i.sqes, limit);
    var v := Delivered(w, OpOf(i.e));
    assert OpOf(i.e) == multiset{} ==> v == w;
    match i.e
    case Recv(bytes) =>
      ParsedIsOpen(v, bytes, limit);
      KickLeavesClosing(Parsed(v, bytes, limit).tx, v.ring, i.sqes);
    case SendOk(_) =>
      assert w.ring[SendOp] > 0;
      RetireLeavesClosing(v.tx);
      KickLeavesClosing(Retire(v.tx), v.ring, i.sqes);
    case SendAgain => RetireLeavesClosing(v.tx);
    case PollOut => KickLeavesClosing(v.tx.(polloutArmed := false), v.ring, i.sqes);
    case Task => KickLeavesClosing(v.tx, v.ring, i.sqes);
    case Generate(texts) =>
      EnqueueIsOpen(v, Unmarked(texts));
      KickLeavesClosing(Enqueue(v, Unmarked(texts)).tx, v.ring, i.sqes);
    case _ =>
  }

  // ------------------------------------------------------------ a close that was asked for

  /** A connection that is to be closed and has no request half received still owes a response. */
  ghost predicate Owes(w: World) {
    w.open && !w.stuck && !w.tx.closing && !w.rx.keepAlive && w.rx.need == 0 ==>
      Eors(w.tx.inflight) + Eors(w.tx.txq) > 0
  }

  /** What a segment does to the policy of the connection, when it completes no request. */
  lemma {:induction false} NothingCut(r: Rx, s: string)
    requires Receive(r, s).frames == []
    ensures var o := Receive(r, s); o.rx.need > 0 || (o.rx.need == r.need && o.rx.keepAlive == r.keepAlive)
  {
    hide ScanLines;
  }

  lemma {:induction false} RecvOwes(w: World, bytes: string, limit: nat)
    requires Owes(w) && w.open && !w.stuck
    ensures Owes(Parsed(w, bytes, limit))
  {
    hide Receive, Eors, Answers;
    var o := Receive(w.rx, bytes);
    OneMarkPerFrame(o.frames, w.tx.served, limit);
    EorsAppend(w.tx.txq, Answers(o.frames, w.tx.served, limit));
    if o.frames == [] { NothingCut(w.rx, bytes); }
  }

  /** A kick moves segments, and no mark gets lost. */
  lemma {:induction false} KickOwes(t: Tx, ring: multiset<Op>, sqes: seq<bool>)
    requires TxOk(t)
    ensures var a := SendKick(t, ring, sqes);
            Eors(a.tx.inflight) + Eors(a.tx.txq) == Eors(t.inflight) + Eors(t.txq) && a.tx.closing == t.closing
  {
    hide Eors, SendKick;
    KickLeavesClosing(t, ring, sqes);
    if CanKick(t) {
      KickEnds(t, ring, sqes);
      var n := BatchCount(t.txq, MAX_IOV);
      EorsAppend(t.txq[..n], t.txq[n..]);
      assert t.txq[..n] + t.txq[n..] == t.txq;
      NoEors();
    } else {
      NoKick(t, ring, sqes);
    }
  }

  lemma NoEors()
    ensures Eors([]) == 0
  {
  }

  /** A batch that does not close the connection carries no mark, or the connection is to be kept. */
  lemma {:induction false} SentOwes(w: World, sent: nat, sqes: seq<bool>, limit: nat)
    requires Owes(w) && SendTaken(w)
    ensures Owes(StepSent(w, sent, sqes, limit))
  {
    hide Eors, SendKick, Conserved, Receive, Left, StartClose;
    var t := Retire(w.tx);
    NoEors();
    if MustClose(w.tx, w.rx.keepAlive, limit) {
      ShutCloses(t, w.ring, sqes);
    } else {
      EorsOfBatch(w.tx.inflight);
      KickOwes(t, w.ring, sqes);
    }
  }

  lemma ShutCloses(t: Tx, ring: multiset<Op>, sqes: seq<bool>)
    ensures StartClose(t, ring, sqes).tx.closing
  {
  }

  lemma {:induction false} StepOwes(w: World, i: Input, limit: nat)
    requires Inv(w) && Owes(w) && Enabled(w, i.e)
    ensures Owes(Step(w, i.e, i.sqes, limit))
  {
    hide Eors, SendKick, PostKick, Receive, Answers, Left, Step, Parsed, Conserved, StepSent, TxOk, SendTaken;
    StepCases(w, i.e, i.sqes, limit);
    var v := Delivered(w, OpOf(i.e));
    assert OpOf(i.e) == multiset{} ==> v == w;
    if w.open {
      match i.e
      case Recv(bytes) => RecvThenKickOwes(w, bytes, i.sqes, limit);
      case SendOk(sent) =>
        SendIsTaken(w);
        SentOwes(v, sent, i.sqes, limit);
      case SendAgain =>
        NoEors();
        EorsAppend(v.tx.inflight, v.tx.txq);
      case PollOut =>
        ArmedIsFree(v.tx, v.log);
        KickOwes(v.tx.(polloutArmed := false), v.ring, i.sqes);
      case Task => KickOwes(v.tx, v.ring, i.sqes);
      case Generate(texts) => GenerateOwes(w, texts, i.sqes);
      case _ =>
    }
  }

  lemma {:induction false} RecvThenKickOwes(w: World, bytes: string, sqes: seq<bool>, limit: nat)
    requires Inv(w) && Owes(w) && w.open && !w.stuck
    ensures Owes(StepRecv(w, bytes, sqes, limit))
  {
    hide Eors, SendKick, Receive, Parsed, TxOk, Conserved;
    RecvOwes(w, bytes, limit);
    ParsedKeeps(w, bytes, limit);
    var p := Parsed(w, bytes, limit);
    KickOwes(p.tx, p.ring, sqes);
  }

  lemma {:induction false} GenerateOwes(w: World, texts: seq<string>, sqes: seq<bool>)
    requires Inv(w) && Owes(w) && w.open && !w.stuck
    ensures Owes(StepGenerate(w, texts, sqes))
  {
    hide Eors, SendKick, Receive, TxOk, Conserved, RxOk;
    UnmarkedKeeps(w, texts);
    var p := Enqueue(w, Unmarked(texts));
    EorsAppend(w.tx.txq, Unmarked(texts));
    if !Granted(sqes) { KickOwes(p.tx, p.ring, Later(sqes)); }
  }

  lemma {:induction false} RunOwes(w: World, ins: seq<Input>, limit: nat)
    requires Inv(w) && Owes(w) && Possible(w, ins, limit)
    ensures Owes(Run(w, ins, limit))
    decreases |ins|
  {
    hide Step, Inv, Owes;
    if ins != [] {
      StepKeepsInv(w, ins[0], limit);
      StepOwes(w, ins[0], limit);
      RunOwes(Step(w, ins[0].e, ins[0].sqes, limit), ins[1..], limit);
    }
  }

  // ------------------------------------------------------------ the limit

  /** Until the connection closes, fewer responses have been served than the limit allows. */
  ghost predicate BelowTheLimit(w: World, limit: nat) {
    w.open && !w.tx.closing ==> w.tx.served == 0 || w.tx.served < limit
  }

  lemma {:induction false} ServedBy(w: World, i: Input, limit: nat)
    requires Inv(w) && w.open && Enabled(w, i.e)
    ensures var v := Step(w, i.e, i.sqes, limit);
            v.tx.served == w.tx.served + B(i.e.SendOk? && w.tx.inflight != [] && w.tx.inflight[|w.tx.inflight| - 1].eor)
  {
    hide SendKick, PostKick, Receive, Answers, Left, Conserved, MustClose;
    var v := Delivered(w, OpOf(i.e));
    match i.e
    case Recv(bytes) => KickServes(Parsed(v, bytes, limit).tx, v.ring, i.sqes);
    case SendOk(_) =>
      assert w.ring[SendOp] > 0;
      KickServes(Retire(v.tx), v.ring, i.sqes);
    case PollOut => KickServes(v.tx.(polloutArmed := false), v.ring, i.sqes);
    case Task => KickServes(v.tx, v.ring, i.sqes);
    case Generate(texts) => KickServes(Enqueue(v, Unmarked(texts)).tx, v.ring, i.sqes);
    case _ =>
  }

  lemma {:induction false} RunStaysBelow(w: World, ins: seq<Input>, limit: nat)
    requires Inv(w) && BelowTheLimit(w, limit) && Possible(w, ins, limit)
    ensures BelowTheLimit(Run(w, ins, limit), limit)
    decreases |ins|
  {
    hide Step, Inv;
    if ins != [] {
      var i := ins[0];
      StepKeepsInv(w, i, limit);
      if w.open {
        ClosingIff(w, i, limit);
        ServedBy(w, i, limit);
      } else {
        GoneStays(w, i, limit);
      }
      RunStaysBelow(Step(w, i.e, i.sqes, limit), ins[1..], limit);
    }
  }

  lemma GoneStays(w: World, i: Input, limit: nat)
    requires !w.open && Enabled(w, i.e)
    ensures !Step(w, i.e, i.sqes, limit).open
  {
  }

  /**
    The connection does close: over every run an open connection that is not closing has served fewer
    responses than the limit, and at rest, when the last request received asked for it to be closed, it
    is closing.
  */
  lemma {:induction false} ClosesWhenAsked(ins: seq<Input>, limit: nat)
    requires Possible(START, ins, limit)
    ensures BelowTheLimit(Run(START, ins, limit), limit)
    ensures NeverAbandoned(START, ins, limit) ==>
              var w := Run(START, ins, limit); var rx := Receive(FRESH_RX, w.log.received).rx;
              w.open && Quiet(w) && !rx.keepAlive && rx.need == 0 ==> w.tx.closing
  {
    hide Run, Receive, Eors;
    StartHasInv();
    assert Owes(START);
    RunKeepsInv(START, ins, limit);
    RunOwes(START, ins, limit);
    RunStaysBelow(START, ins, limit);
    NoEors();
  }
}
