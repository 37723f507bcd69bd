/** What every completion keeps on an io_uring connection, and exactly when it leaves the connection alone. */
module UringInvariant {
  import opened Segments
  import opened Accumulator
  import opened AccumulatorTheorems
  import opened UringTransmit

  const FRESH_RX := Rx("", true, 0)
  const FRESH_TX := Tx([], [], false, false, false, false, 0)
  const START := World(FRESH_RX, FRESH_TX, multiset{}, true, false, NO_LOG)

  // ------------------------------------------------------------ the invariant

  /** One to eight segments, and an end-of-response mark only on the last, which `inflightEor` repeats. */
  ghost predicate Batch(t: Tx) {
    && 0 < |t.inflight| <= MAX_IOV
    && (forall k :: 0 <= k < |t.inflight| - 1 ==> !t.inflight[k].eor)
    && t.inflightEor == t.inflight[|t.inflight| - 1].eor
  }

  ghost predicate TxOk(t: Tx) {
    if t.sendInflight then Batch(t) else t.inflight == [] && !t.inflightEor
  }

  /** Everything enqueued is retired, in flight or queued, in order; marks are counted exactly. */
  ghost predicate Conserved(t: Tx, g: Log) {
    && g.retired + (t.inflight + t.txq) == g.enqueued
    && t.served == Eors(g.retired)
    && g.framed == Eors(g.enqueued)
  }

  /** Flags and outstanding operations agree; a send that failed leaves its flag set for good. */
  ghost predicate RingOk(t: Tx, ring: multiset<Op>) {
    && (ring[SendOp] == 1 ==> t.sendInflight)
    && (t.sendInflight && !t.closing ==> ring[SendOp] == 1)
    && ring[PollOutOp] == B(t.polloutArmed)
    && (ring[CloseOp] > 0 ==> t.closing)
  }

  /** The receive side is what the bytes received so far make of it, and the requests in them are counted. */
  ghost predicate RxOk(w: World) {
    var o := Receive(FRESH_RX, w.log.received);
    o.rx == w.rx && |o.frames| == w.log.framed && o.spins == w.stuck
  }

  ghost predicate Inv(w: World) {
    && TxOk(w.tx) && Conserved(w.tx, w.log) && RxOk(w)
    && w.ring[SendOp] <= 1
    && (w.open ==> RingOk(w.tx, w.ring))
  }

  /**
    The worker comes back for completions; segments that wait have an operation outstanding that will
    send or discard them; and a connection that is to be closed has its close outstanding.
  */
  ghost predicate Awake(w: World) {
    w.open ==> !w.stuck && (w.tx.txq != [] ==> InCharge(w)) && Closes(w)
  }

  ghost predicate InCharge(w: World) {
    w.ring[SendOp] > 0 || w.ring[PollOutOp] > 0 || w.ring[KickOp] > 0 || w.ring[CloseOp] > 0
  }

  ghost predicate Closes(w: World) { w.open && w.tx.closing ==> w.ring[CloseOp] > 0 }

  // ------------------------------------------------------------ attempts to send

  /** Refusals in front of the first granted entry. */
  function Refusals(sqes: seq<bool>): nat {
    if Granted(sqes) then 0 else 1 + Refusals(sqes[1..])
  }

  lemma RollbackUndoesLoad(t: Tx)
    requires TxOk(t) && CanKick(t)
    ensures Rollback(Load(t)) == t && TxOk(Load(t))
  {
    BatchShape(t.txq, MAX_IOV);
  }

  /**
    The two mutually recursive functions end with exactly one operation submitted: the send when the
    number of refusals is even, the kick task when it is odd.
  */
  lemma {:induction false} KickEnds(t: Tx, ring: multiset<Op>, sqes: seq<bool>)
    requires TxOk(t) && CanKick(t)
    ensures var a := SendKick(t, ring, sqes); var even := Refusals(sqes) % 2 == 0;
            && a.tx == (if even then Load(t) else t)
            && a.ring == ring + multiset{if even then SendOp else KickOp}
    decreases |sqes|
  {
    hide Load, Rollback;
    RollbackUndoesLoad(t);
    if !Granted(sqes) && !Granted(sqes[1..]) {
      KickEnds(t, ring, sqes[2..]);
      assert sqes[1..][1..] == sqes[2..];
    }
  }

  lemma CutInTwo(q: seq<OwnedBuf>, n: nat)
    requires n <= |q|
    ensures q[..n] + q[n..] == [] + q
  {
  }

  lemma LoadKeeps(t: Tx, g: Log)
    requires TxOk(t) && CanKick(t) && Conserved(t, g)
    ensures TxOk(Load(t)) && Conserved(Load(t), g)
  {
    hide Eors, BatchCount;
    RollbackUndoesLoad(t);
    CutInTwo(t.txq, BatchCount(t.txq, MAX_IOV));
  }

  /** A kick keeps everything, and afterwards segments that wait are not forgotten. */
  lemma KickKeeps(w: World, sqes: seq<bool>)
    requires Inv(w) && w.open && !w.stuck
    ensures var v := Done(w, SendKick(w.tx, w.ring, sqes));
            Inv(v) && (Closes(w) ==> Awake(v))
  {
    hide Load, Conserved, Receive, TxOk, SendKick;
    if CanKick(w.tx) {
      KickEnds(w.tx, w.ring, sqes);
      LoadKeeps(w.tx, w.log);
      LoadFlags(w.tx);
      assert w.ring[SendOp] == 0;
    } else {
      NoKick(w.tx, w.ring, sqes);
    }
  }

  lemma LoadFlags(t: Tx)
    ensures var u := Load(t); u.sendInflight && u.polloutArmed == t.polloutArmed && u.closing == t.closing
  {
  }

  lemma PostKeeps(w: World, sqes: seq<bool>)
    requires Inv(w) && w.open && !w.stuck
    ensures var v := Done(w, PostKick(w.tx, w.ring, sqes));
            Inv(v) && (Closes(w) ==> Awake(v))
  {
    hide Conserved, Receive, TxOk, SendKick;
    if !Granted(sqes) {
      KickKeeps(w, Later(sqes));
    }
  }

  // ------------------------------------------------------------ each completion keeps the invariant

  lemma EnqueueKeeps(w: World, q: seq<OwnedBuf>, marks: nat)
    requires Inv(w) && Eors(q) == marks
    ensures var v := Enqueue(w, q);
            && TxOk(v.tx)
            && v.log.retired + (v.tx.inflight + v.tx.txq) == v.log.enqueued
            && v.tx.served == Eors(v.log.retired)
            && w.log.framed + marks == Eors(v.log.enqueued)
  {
    hide Eors, RxOk;
    EorsAppend(w.log.enqueued, q);
    assert w.log.retired + (w.tx.inflight + (w.tx.txq + q)) == (w.log.retired + (w.tx.inflight + w.tx.txq)) + q;
  }

  lemma ReceivedMore(w: World, bytes: string)
    requires RxOk(w) && !w.stuck
    ensures var o := Receive(w.rx, bytes); var all := Receive(FRESH_RX, w.log.received + bytes);
            all.rx == o.rx && |all.frames| == w.log.framed + |o.frames| && all.spins == o.spins
  {
    hide Reframe;
    ReceiveTwice(FRESH_RX, w.log.received, bytes);
  }

  lemma ParsedKeeps(w: World, bytes: string, limit: nat)
    requires Inv(w) && !w.stuck
    ensures Inv(Parsed(w, bytes, limit))
  {
    hide Eors, Receive, Answers, TxOk;
    var o := Receive(w.rx, bytes);
    ReceivedMore(w, bytes);
    OneMarkPerFrame(o.frames, w.tx.served, limit);
    EnqueueKeeps(w, Answers(o.frames, w.tx.served, limit), |o.frames|);
  }

  lemma {:induction false} NoMarks(texts: seq<string>)
    ensures Eors(Unmarked(texts)) == 0
    decreases |texts|
  {
    if texts != [] {
      assert Unmarked(texts)[1..] == Unmarked(texts[1..]);
      NoMarks(texts[1..]);
    }
  }

  lemma UnmarkedKeeps(w: World, texts: seq<string>)
    requires Inv(w)
    ensures Inv(Enqueue(w, Unmarked(texts)))
  {
    hide Eors, Receive, TxOk;
    NoMarks(texts);
    EnqueueKeeps(w, Unmarked(texts), 0);
  }

  /** The state between a delivered send completion and what follows: the flag is set, the operation is gone. */
  ghost predicate SendTaken(w: World) {
    && w.open && !w.stuck && w.tx.sendInflight && TxOk(w.tx) && Conserved(w.tx, w.log) && RxOk(w)
    && w.ring[SendOp] == 0 && w.ring[PollOutOp] == B(w.tx.polloutArmed)
    && (w.ring[CloseOp] > 0 ==> w.tx.closing)
  }

  lemma SendIsTaken(w: World)
    requires Inv(w) && w.open && !w.stuck && multiset{SendOp} <= w.ring
    ensures SendTaken(Delivered(w, multiset{SendOp}))
  {
    hide TxOk, Conserved, Receive;
    assert w.ring[SendOp] >= 1;
  }

  lemma RetireKeeps(t: Tx, g: Log, wire: string)
    requires t.sendInflight && TxOk(t) && Conserved(t, g)
    ensures TxOk(Retire(t)) && Conserved(Retire(t), g.(retired := g.retired + t.inflight, wire := wire))
  {
    hide Eors;
    EorsOfBatch(t.inflight);
    EorsAppend(g.retired, t.inflight);
    assert (g.retired + t.inflight) + ([] + t.txq) == g.retired + (t.inflight + t.txq);
  }

  lemma SentKeeps(w: World, sent: nat, sqes: seq<bool>, limit: nat)
    requires SendTaken(w)
    ensures var v := StepSent(w, sent, sqes, limit);
            && Inv(v)
            && (if MustClose(w.tx, w.rx.keepAlive, limit) then Awake(v) <==> w.ring[CloseOp] > 0 || Granted(sqes)
                else Closes(w) ==> Awake(v))
  {
    hide TxOk, Conserved, Receive, SendKick, Left;
    var g := w.log.(retired := w.log.retired + w.tx.inflight, wire := w.log.wire + Left(w.tx.inflight, sent));
    var t := Retire(w.tx);
    RetireKeeps(w.tx, w.log, g.wire);
    if MustClose(w.tx, w.rx.keepAlive, limit) {
      ShutKeeps(w.(tx := t, log := g), sqes);
    } else {
      KickKeeps(w.(tx := t, log := g), sqes);
    }
  }

  lemma ClosingIsFree(t: Tx, g: Log)
    requires TxOk(t) && Conserved(t, g)
    ensures TxOk(t.(closing := true)) && Conserved(t.(closing := true), g)
  {
  }

  /** Closing keeps everything; the close is outstanding if it got an entry, or if there was one already. */
  lemma ShutKeeps(w: World, sqes: seq<bool>)
    requires Inv(w) || SendTaken(w)
    requires w.open && !w.stuck
    ensures var v := Done(w, StartClose(w.tx, w.ring, sqes));
            Inv(v) && (Awake(v) <==> w.ring[CloseOp] > 0 || Granted(sqes))
  {
    hide TxOk, Conserved, Receive;
    ClosingIsFree(w.tx, w.log);
  }

  lemma RollbackKeeps(t: Tx, g: Log)
    requires t.sendInflight && TxOk(t) && Conserved(t, g)
    ensures var u := Rollback(t); u.txq != [] && TxOk(u) && Conserved(u, g)
  {
    hide Eors;
    assert [] + (t.inflight + t.txq) == t.inflight + t.txq;
  }

  /** A send that would block: nothing is lost, and only a refused entry for the poll can leave nobody in charge. */
  lemma RefusedKeeps(w: World, sqes: seq<bool>)
    requires SendTaken(w)
    ensures var v := StepRefused(w, true, sqes);
            && Inv(v)
            && (Awake(v) <==> Closes(w) && (w.ring[CloseOp] > 0 || w.tx.polloutArmed || w.ring[KickOp] > 0 || Granted(sqes)))
  {
    hide TxOk, Conserved, Receive;
    RollbackKeeps(w.tx, w.log);
    var u := Rollback(w.tx);
    assert u.(polloutArmed := true).inflight == u.inflight;
    ArmedIsFree(u, w.log);
  }

  lemma ArmedIsFree(t: Tx, g: Log)
    requires TxOk(t) && Conserved(t, g)
    ensures forall b :: TxOk(t.(polloutArmed := b)) && Conserved(t.(polloutArmed := b), g)
  {
  }

  lemma PollOutKeeps(w: World, sqes: seq<bool>)
    requires Inv(w) && w.open && !w.stuck && multiset{PollOutOp} <= w.ring
    ensures var v := StepPollOut(Delivered(w, multiset{PollOutOp}), sqes); Inv(v) && (Closes(w) ==> Awake(v))
  {
    hide TxOk, Conserved, Receive, SendKick;
    ArmedIsFree(w.tx, w.log);
    var v := Delivered(w, multiset{PollOutOp});
    KickKeeps(v.(tx := v.tx.(polloutArmed := false)), sqes);
  }

  /** A send that would block and gets no entry for its poll, with nobody else in charge. */
  ghost predicate Stalls(w: World, e: Event, sqes: seq<bool>) {
    && w.open && e.SendAgain?
    && w.ring[CloseOp] == 0 && !w.tx.polloutArmed && w.ring[KickOp] == 0 && !Granted(sqes)
  }

  /** A segment on which the framing loop never ends. */
  ghost predicate Hangs(w: World, e: Event) { w.open && e.Recv? && Receive(w.rx, e.bytes).spins }

  /** A completion after which the connection is to be closed. */
  predicate ClosesOn(w: World, e: Event, limit: nat) {
    w.open && (e.RecvEnd? || e.SendError? || (e.SendOk? && MustClose(w.tx, w.rx.keepAlive, limit)))
  }

  /** A close that gets no entry, when none is outstanding. */
  ghost predicate Unclosed(w: World, e: Event, sqes: seq<bool>, limit: nat) {
    ClosesOn(w, e, limit) && w.ring[CloseOp] == 0 && !Granted(sqes)
  }

  /** The three situations in which a connection is left alone. */
  ghost predicate Abandons(w: World, i: Input, limit: nat) {
    Stalls(w, i.e, i.sqes) || Hangs(w, i.e) || Unclosed(w, i.e, i.sqes, limit)
  }

  /** A completion and the answers to the attempts to get a submission entry while it is handled. */
  datatype Input = Input(e: Event, sqes: seq<bool>)

  /** Every completion keeps the invariant, and the connection is left alone in exactly three situations. */
  lemma {:induction false} StepKeepsInv(w: World, i: Input, limit: nat)
    requires Inv(w) && Enabled(w, i.e)
    ensures var v := Step(w, i.e, i.sqes, limit);
            Inv(v) && (Awake(w) ==> (Awake(v) <==> !Abandons(w, i, limit)))
  {
    hide Inv, SendKick, PostKick, SendCase, Delivered, Receive, InCharge;
    if !w.open {
      GoneKeeps(w, OpOf(i.e));
    } else {
      OpenStep(w, i, limit);
    }
  }

  lemma GoneKeeps(w: World, op: multiset<Op>)
    requires Inv(w) && !w.open
    ensures Inv(Delivered(w, op)) && Awake(Delivered(w, op))
  {
    hide TxOk, Conserved, Receive;
  }

  lemma OpenStep(w: World, i: Input, limit: nat)
    requires Inv(w) && w.open && Enabled(w, i.e)
    ensures var v := Step(w, i.e, i.sqes, limit);
            && Inv(v)
            && (Closes(w) ==> (Awake(v) <==> !Abandons(w, i, limit)))
  {
    hide Inv, Awake, Receive, Step, StepRecv, StepGenerate, SendCase, StepPollOut, StepTask, StepEnd, MustClose, Delivered;
    StepCases(w, i.e, i.sqes, limit);
    match i.e
    case Recv(bytes) => RecvKeeps(w, bytes, i.sqes, limit);
    case RecvEnd => EndKeeps(w, i.sqes);
    case PollOut => PollOutKeeps(w, i.sqes);
    case Task => TaskKeeps(w, i.sqes);
    case Closed => ClosedKeeps(w);
    case Generate(texts) => GenerateKeeps(w, texts, i.sqes);
    case _ => SendKeeps(w, i, limit);
  }

  lemma EndKeeps(w: World, sqes: seq<bool>)
    requires Inv(w) && w.open && !w.stuck
    ensures var v := StepEnd(w, sqes); Inv(v) && (Awake(v) <==> w.ring[CloseOp] > 0 || Granted(sqes))
  {
    hide Inv, Awake;
    ShutKeeps(w, sqes);
  }

  lemma SendKeeps(w: World, i: Input, limit: nat)
    requires Inv(w) && w.open && !w.stuck && multiset{SendOp} <= w.ring
    requires i.e.SendOk? || i.e.SendAgain? || i.e.SendError?
    ensures var v := SendCase(Delivered(w, multiset{SendOp}), i.e, i.sqes, limit);
            && Inv(v)
            && (Closes(w) ==> (Awake(v) <==> !Abandons(w, i, limit)))
  {
    hide Inv, Awake, Receive, StepSent, StepRefused, SendTaken, MustClose;
    SendIsTaken(w);
    var d := Delivered(w, multiset{SendOp});
    match i.e
    case SendOk(sent) => SentKeeps(d, sent, i.sqes, limit);
    case SendAgain => RefusedKeeps(d, i.sqes);
    case SendError => ErrorKeeps(d, i.sqes);
  }

  lemma RecvKeeps(w: World, bytes: string, sqes: seq<bool>, limit: nat)
    requires Inv(w) && w.open && !w.stuck
    ensures var v := StepRecv(w, bytes, sqes, limit);
            Inv(v) && (Closes(w) ==> (Awake(v) <==> !Receive(w.rx, bytes).spins))
  {
    hide Inv, Receive, Parsed, SendKick;
    ParsedKeeps(w, bytes, limit);
    ParsedIsOpen(w, bytes, limit);
    if !Receive(w.rx, bytes).spins {
      KickKeeps(Parsed(w, bytes, limit), sqes);
    }
  }

  lemma GenerateKeeps(w: World, texts: seq<string>, sqes: seq<bool>)
    requires Inv(w) && w.open && !w.stuck
    ensures var v := StepGenerate(w, texts, sqes); Inv(v) && (Closes(w) ==> Awake(v))
  {
    hide Inv, Awake, Enqueue, PostKick;
    UnmarkedKeeps(w, texts);
    EnqueueIsOpen(w, Unmarked(texts));
    PostKeeps(Enqueue(w, Unmarked(texts)), sqes);
  }

  lemma TaskKeeps(w: World, sqes: seq<bool>)
    requires Inv(w) && w.open && !w.stuck && multiset{KickOp} <= w.ring
    ensures var v := StepTask(Delivered(w, multiset{KickOp}), sqes); Inv(v) && (Closes(w) ==> Awake(v))
  {
    hide TxOk, Conserved, Receive, SendKick;
    KickKeeps(Delivered(w, multiset{KickOp}), sqes);
  }

  lemma ParsedIsOpen(w: World, bytes: string, limit: nat)
    ensures Parsed(w, bytes, limit).open == w.open && Parsed(w, bytes, limit).ring == w.ring
    ensures Parsed(w, bytes, limit).stuck == Receive(w.rx, bytes).spins
    ensures Parsed(w, bytes, limit).tx.closing == w.tx.closing
  {
    hide Receive;
  }

  lemma EnqueueIsOpen(w: World, q: seq<OwnedBuf>)
    ensures Enqueue(w, q).open == w.open && Enqueue(w, q).stuck == w.stuck
    ensures Enqueue(w, q).tx.closing == w.tx.closing && Enqueue(w, q).ring == w.ring
  {
  }

  lemma ErrorKeeps(w: World, sqes: seq<bool>)
    requires SendTaken(w)
    ensures var v := StepRefused(w, false, sqes); Inv(v) && (Awake(v) <==> w.ring[CloseOp] > 0 || Granted(sqes))
  {
    hide TxOk, Conserved, Receive;
    ShutKeeps(w, sqes);
  }

  lemma ClosedKeeps(w: World)
    requires Inv(w) && !w.stuck
    ensures var v := Delivered(w, multiset{CloseOp}).(open := false); Inv(v) && Awake(v)
  {
    hide TxOk, Conserved, Receive;
  }

  // ------------------------------------------------------------ closing

  lemma {:induction false} KickLeavesClosing(t: Tx, ring: multiset<Op>, sqes: seq<bool>)
    ensures var a := SendKick(t, ring, sqes); a.tx.closing == t.closing && a.ring[CloseOp] == ring[CloseOp]
    ensures var a := PostKick(t, ring, sqes); a.tx.closing == t.closing && a.ring[CloseOp] == ring[CloseOp]
    decreases |sqes|
  {
    if sqes != [] {
      KickLeavesClosing(t, ring, sqes[1..]);
      KickLeavesClosing(Rollback(Load(t)), ring, sqes[1..]);
    }
  }

  /**
    A connection that is to be closed has its close outstanding after a completion if and only if it had
    it before, or the completion asks for a close and the entry is granted.
  */
  lemma {:induction false} ClosesIff(w: World, i: Input, limit: nat)
    requires w.open && Enabled(w, i.e)
    ensures Closes(Step(w, i.e, i.sqes, limit)) <==>
              if ClosesOn(w, i.e, limit) then w.ring[CloseOp] > 0 || Granted(i.sqes) else Closes(w)
  {
    hide SendKick, PostKick, Receive, Answers, MustClose, Retire, Rollback, Left, Step, Parsed, Enqueue;
    StepCases(w, i.e, i.sqes, limit);
    var v := Delivered(w, OpOf(i.e));
    assert OpOf(i.e) == multiset{} ==> v == w;
    match i.e
    case Recv(bytes) =>
      ParsedIsOpen(v, bytes, limit);
      KickLeavesClosing(Parsed(v, bytes, limit).tx, v.ring, i.sqes);
    case SendOk(_) =>
      RetireLeavesClosing(v.tx);
      KickLeavesClosing(Retire(v.tx), v.ring, i.sqes);
    case SendAgain => RetireLeavesClosing(v.tx);
    case PollOut => KickLeavesClosing(v.tx.(polloutArmed := false), v.ring, i.sqes);
    case Task => KickLeavesClosing(v.tx, v.ring, i.sqes);
    case Generate(texts) =>
      EnqueueIsOpen(v, Unmarked(texts));
      KickLeavesClosing(Enqueue(v, Unmarked(texts)).tx, v.ring, i.sqes);
    case _ =>
  }

  lemma RetireLeavesClosing(t: Tx)
    ensures Retire(t).closing == t.closing && Rollback(t).closing == t.closing
  {
  }
}
