/**
  The io_uring transmit pipeline: batches of at most eight segments, roll-back when the kernel or the
  submission ring refuses, and the completions that drive it. `Step` is the effect of one completion on
  the state of a connection; the methods of the worker are proved equal to it. Whether a submission
  entry can be had is an oracle: one answer for every attempt, and entries are free when the answers
  have run out.
*/
module UringTransmit {
  import opened Segments
  import opened Accumulator

  /** Operations handed to the ring and not completed yet. */
  datatype Op = SendOp | PollOutOp | KickOp | CloseOp

  datatype Tx = Tx(txq: seq<OwnedBuf>, inflight: seq<OwnedBuf>, sendInflight: bool, inflightEor: bool,
                   polloutArmed: bool, closing: bool, served: nat)

  // ------------------------------------------------------------ submission entries

  predicate Granted(sqes: seq<bool>) { sqes == [] || sqes[0] }

  function Later(sqes: seq<bool>): seq<bool> { if sqes == [] then [] else sqes[1..] }

  // ------------------------------------------------------------ batches

  /** Moves the next batch from the queue into flight. */
  function Load(t: Tx): Tx {
    var n := BatchCount(t.txq, MAX_IOV);
    t.(txq := t.txq[n..], inflight := t.txq[..n], sendInflight := true,
       inflightEor := n > 0 && t.txq[n - 1].eor)
  }

  /** Puts the batch in flight back at the front of the queue. */
  function Rollback(t: Tx): Tx {
    t.(txq := t.inflight + t.txq, inflight := [], sendInflight := false, inflightEor := false)
  }

  /** State and ring after an attempt, and the answers not used. */
  datatype Attempt = Attempt(tx: Tx, ring: multiset<Op>, sqes: seq<bool>)

  predicate CanKick(t: Tx) { !t.sendInflight && t.txq != [] }

  /** `sendkick_inline`. */
  function SendKick(t: Tx, ring: multiset<Op>, sqes: seq<bool>): Attempt
    decreases |sqes|, 0
  {
    if !CanKick(t) then Attempt(t, ring, sqes)
    else if Granted(sqes) then Attempt(Load(t), ring + multiset{SendOp}, Later(sqes))
    else PostKick(Rollback(Load(t)), ring, Later(sqes))
  }

  /** `post_task` for a kick: without an entry it kicks at once. */
  function PostKick(t: Tx, ring: multiset<Op>, sqes: seq<bool>): Attempt
    decreases |sqes|, 1
  {
    if Granted(sqes) then Attempt(t, ring + multiset{KickOp}, Later(sqes))
    else SendKick(t, ring, Later(sqes))
  }

  function ArmPollout(t: Tx, ring: multiset<Op>, sqes: seq<bool>): Attempt {
    if t.polloutArmed then Attempt(t, ring, sqes)
    else if Granted(sqes) then Attempt(t.(polloutArmed := true), ring + multiset{PollOutOp}, Later(sqes))
    else Attempt(t, ring, Later(sqes))
  }

  /** Closing is decided at once; the close operation itself needs an entry. */
  function StartClose(t: Tx, ring: multiset<Op>, sqes: seq<bool>): Attempt {
    Attempt(t.(closing := true), if Granted(sqes) then ring + multiset{CloseOp} else ring, Later(sqes))
  }

  function Retire(t: Tx): Tx {
    t.(inflight := [], sendInflight := false, inflightEor := false, served := t.served + B(t.inflightEor))
  }

  predicate MustClose(t: Tx, keepAlive: bool, limit: nat) {
    t.inflightEor && (t.served + 1 >= limit || !keepAlive || t.closing)
  }

  // ------------------------------------------------------------ completions

  datatype Event =
    | Recv(bytes: string)              // bytes have arrived
    | RecvEnd                          // end of file or error
    | SendOk(sent: nat)                // a send has completed; so many bytes have left
    | SendAgain | SendError            // a send would block, or has failed
    | PollOut | Task | Closed
    | Generate(texts: seq<string>)     // a handler has answered (library server): unmarked segments and a flush

  /** What the connection has been through; `wire` is what the kernel has taken. */
  datatype Log = Log(received: string, framed: nat, enqueued: seq<OwnedBuf>, retired: seq<OwnedBuf>, wire: string)

  const NO_LOG := Log("", 0, [], [], "")

  /** `stuck` says that the worker is inside a framing loop that never ends. */
  datatype World = World(rx: Rx, tx: Tx, ring: multiset<Op>, open: bool, stuck: bool, log: Log)

  function OpOf(e: Event): multiset<Op> {
    match e
    case SendOk(_) => multiset{SendOp}
    case SendAgain => multiset{SendOp}
    case SendError => multiset{SendOp}
    case PollOut => multiset{PollOutOp}
    case Task => multiset{KickOp}
    case Closed => multiset{CloseOp}
    case _ => multiset{}
  }

  /** A completion can only be delivered for an operation that is outstanding, and to a worker that comes back for it. */
  predicate Enabled(w: World, e: Event) { !w.stuck && OpOf(e) <= w.ring }

  function Unmarked(texts: seq<string>): (q: seq<OwnedBuf>)
    ensures |q| == |texts| && forall i :: 0 <= i < |q| ==> q[i] == OwnedBuf(texts[i], false)
  {
    seq(|texts|, i requires 0 <= i < |texts| => OwnedBuf(texts[i], false))
  }

  /** One completion; a completion for a connection that is gone from the table does nothing. */
  function Step(w: World, e: Event, sqes: seq<bool>, limit: nat): World
    requires Enabled(w, e)
  {
    var v := Delivered(w, OpOf(e));
    if !w.open then v
    else match e
      case Recv(bytes) => StepRecv(v, bytes, sqes, limit)
      case RecvEnd => StepEnd(v, sqes)
      case PollOut => StepPollOut(v, sqes)
      case Task => StepTask(v, sqes)
      case Closed => v.(open := false)
      case Generate(texts) => StepGenerate(v, texts, sqes)
      case _ => SendCase(v, e, sqes, limit)
  }

  function SendCase(w: World, e: Event, sqes: seq<bool>, limit: nat): World {
    match e
    case SendOk(sent) => StepSent(w, sent, sqes, limit)
    case _ => StepRefused(w, e.SendAgain?, sqes)
  }

  function Delivered(w: World, op: multiset<Op>): World { w.(ring := w.ring - op) }

  function Done(w: World, a: Attempt): World { w.(tx := a.tx, ring := a.ring) }

  function Enqueue(w: World, q: seq<OwnedBuf>): World {
    w.(tx := w.tx.(txq := w.tx.txq + q), log := w.log.(enqueued := w.log.enqueued + q))
  }

  /** The segment has been parsed and its requests answered; nothing has been sent yet. */
  function Parsed(w: World, bytes: string, limit: nat): World {
    var o := Receive(w.rx, bytes);
    var v := Enqueue(w, Answers(o.frames, w.tx.served, limit));
    v.(rx := o.rx, stuck := o.spins, log := v.log.(received := w.log.received + bytes, framed := w.log.framed + |o.frames|))
  }

  function StepRecv(w: World, bytes: string, sqes: seq<bool>, limit: nat): World {
    var v := Parsed(w, bytes, limit);
    if v.stuck then v else Done(v, SendKick(v.tx, v.ring, sqes))
  }

  function StepEnd(w: World, sqes: seq<bool>): World { Done(w, StartClose(w.tx, w.ring, sqes)) }

  function StepTask(w: World, sqes: seq<bool>): World { Done(w, SendKick(w.tx, w.ring, sqes)) }

  /** The bytes of a batch that a completion reports. */
  function Left(q: seq<OwnedBuf>, sent: nat): string { Wire(q)[..Min(sent, |Wire(q)|)] }

  /** The whole batch is retired, however many bytes have left. */
  function StepSent(w: World, sent: nat, sqes: seq<bool>, limit: nat): World {
    var v := w.(log := w.log.(retired := w.log.retired + w.tx.inflight, wire := w.log.wire + Left(w.tx.inflight, sent)));
    var t := Retire(w.tx);
    Done(v, if MustClose(w.tx, w.rx.keepAlive, limit) then StartClose(t, v.ring, sqes)
            else SendKick(t, v.ring, sqes))
  }

  function StepRefused(w: World, again: bool, sqes: seq<bool>): World {
    Done(w, if again then ArmPollout(Rollback(w.tx), w.ring, sqes) else StartClose(w.tx, w.ring, sqes))
  }

  function StepPollOut(w: World, sqes: seq<bool>): World {
    Done(w, SendKick(w.tx.(polloutArmed := false), w.ring, sqes))
  }

  function StepGenerate(w: World, texts: seq<string>, sqes: seq<bool>): World {
    var v := Enqueue(w, Unmarked(texts));
    Done(v, PostKick(v.tx, v.ring, sqes))
  }

  // ------------------------------------------------------------ the code

  class Worker {
    const c: PerClientStorage   // the connection under this descriptor
    var known: bool             // it is in the table
    var ring: multiset<Op>
    var sqes: seq<bool>
    ghost var stuck: bool
    ghost var log: Log

    ghost function WorldView(): World
      reads this, c
    {
      World(c.RxView(), TxView(), ring, known, stuck, log)
    }

    ghost function TxView(): Tx
      reads this, c
    {
      Tx(c.txq, c.txInflight, c.sendInflight, c.inflightEor, c.polloutArmed, c.closing, c.served)
    }

    ghost function View(): Attempt
      reads this, c
    {
      Attempt(TxView(), ring, sqes)
    }

    constructor (c: PerClientStorage, sqes: seq<bool>)
      ensures this.c == c && known && ring == multiset{} && this.sqes == sqes && !stuck && log == NO_LOG
    {
      this.c, known, ring, this.sqes, stuck, log := c, true, multiset{}, sqes, false, NO_LOG;
    }

    method GetSqe() returns (ok: bool)
      modifies this`sqes
      ensures ok == Granted(old(sqes)) && sqes == Later(old(sqes))
    {
      if sqes == [] { return true; }
      ok := sqes[0];
      sqes := sqes[1..];
    }

    /** Counts the segments of the next batch. */
    method CountBatch() returns (cnt: nat, eor: bool)
      ensures cnt == BatchCount(c.txq, MAX_IOV) && eor == (cnt > 0 && c.txq[cnt - 1].eor)
    {
      hide BatchCount;
      cnt, eor := 0, false;
      assert c.txq[0..] == c.txq;
      while cnt < |c.txq| && cnt < MAX_IOV
        invariant 0 <= cnt <= |c.txq| && cnt <= MAX_IOV
        invariant !eor && (cnt > 0 ==> !c.txq[cnt - 1].eor)
        invariant BatchCount(c.txq, MAX_IOV) == cnt + BatchCount(c.txq[cnt..], MAX_IOV - cnt)
      {
        BatchGrows(c.txq, MAX_IOV, cnt);
        cnt := cnt + 1;
        if c.txq[cnt - 1].eor {
          eor := true;
          return;
        }
      }
      BatchStops(c.txq[cnt..], MAX_IOV - cnt);
    }

    method MoveBatch(cnt: nat)
      requires cnt <= |c.txq|
      modifies c`txq, c`txInflight
      ensures c.txInflight == old(c.txq)[..cnt] && c.txq == old(c.txq)[cnt..]
    {
      c.txInflight := [];
      var i := 0;
      ghost var q := c.txq;
      assert q[..0] == [] && q[0..] == q;
      while i < cnt && c.txq != []
        invariant 0 <= i <= cnt && c.txInflight == q[..i] && c.txq == q[i..]
      {
        assert q[..i + 1] == q[..i] + [q[i]];
        c.txInflight := c.txInflight + [c.txq[0]];
        c.txq := c.txq[1..];
        i := i + 1;
      }
    }

    /** Pushes the batch in flight to the front of the queue, last segment first. */
    method RollBack()
      modifies c`txq, c`txInflight, c`sendInflight, c`inflightEor
      ensures TxView() == Rollback(old(TxView()))
    {
      var i := 0;
      ghost var batch, q := c.txInflight, c.txq;
      NothingBack(batch, q);
      while i < |c.txInflight|
        invariant 0 <= i <= |batch| && c.txInflight == batch
        invariant c.txq == batch[|batch| - i..] + q
      {
        OneBack(batch, i, q);
        c.txq := [c.txInflight[|c.txInflight| - 1 - i]] + c.txq;
        i := i + 1;
      }
      c.txInflight := [];
      c.sendInflight := false;
      c.inflightEor := false;
    }

    method SendkickInline()
      requires known
      modifies this`sqes, this`ring, c`txq, c`txInflight, c`sendInflight, c`inflightEor
      ensures View() == SendKick(old(TxView()), old(ring), old(sqes))
      decreases |sqes|, 0
    {
      if c.sendInflight || c.txq == [] { return; }
      var cnt, eor := CountBatch();
      if cnt == 0 { return; }
      MoveBatch(cnt);
      c.sendInflight := true;
      c.inflightEor := eor;
      assert TxView() == Load(old(TxView()));
      var ok := GetSqe();
      if !ok {
        RollBack();
        PostTask();
        return;
      }
      ring := ring + multiset{SendOp};
    }

    method PostTask()
      requires known
      modifies this`sqes, this`ring, c`txq, c`txInflight, c`sendInflight, c`inflightEor
      ensures View() == PostKick(old(TxView()), old(ring), old(sqes))
      decreases |sqes|, 1
    {
      var ok := GetSqe();
      if !ok {
        SendkickInline();
        return;
      }
      ring := ring + multiset{KickOp};
    }

    method DoArmPollout()
      modifies this`sqes, this`ring, c`polloutArmed
      ensures View() == ArmPollout(old(TxView()), old(ring), old(sqes))
    {
      if c.polloutArmed { return; }
      var ok := GetSqe();
      if ok {
        ring := ring + multiset{PollOutOp};
        c.polloutArmed := true;
      }
    }

    /** Marks the connection as closing and asks the kernel to close it. */
    method Shut()
      modifies this`sqes, this`ring, c`closing
      ensures View() == StartClose(old(TxView()), old(ring), old(sqes))
    {
      c.closing := true;
      var ok := GetSqe();
      if ok {
        ring := ring + multiset{CloseOp};
      }
    }

    /** When the framing loop spins the worker never comes back; the method stops where it begins to. */
    method OnRecv(bytes: string, late: seq<bool>)
      requires known && !stuck && c.rxq == []
      modifies this`sqes, this`ring, this`stuck, this`log, c
      ensures WorldView() == StepRecv(old(WorldView()), bytes, old(sqes), c.keepaliveLimit)
      ensures c.rxq == []
    {
      hide Reframe, Answers, SendKick, ReceiveAll;
      c.rxq := c.rxq + [bytes];
      assert c.rxq == [bytes];
      ghost var o := Receive(c.RxView(), bytes);
      OneSegment(c.RxView(), bytes);
      var taken, spins := c.ParseStep(late);
      assert [bytes][..1] == [bytes];
      stuck := spins;
      log := log.(received := log.received + bytes, framed := log.framed + |o.frames|,
                  enqueued := log.enqueued + Answers(o.frames, c.served, c.keepaliveLimit));
      if spins { return; }
      if !c.sendInflight && c.txq != [] {
        SendkickInline();
      } else {
        NoKick(TxView(), ring, sqes);
      }
    }

    /** The Send case with a negative result. */
    method OnSendRefused(again: bool)
      requires known && multiset{SendOp} <= ring
      modifies this`sqes, this`ring, c`txq, c`txInflight, c`sendInflight, c`inflightEor, c`polloutArmed, c`closing
      ensures WorldView() == StepRefused(Delivered(old(WorldView()), multiset{SendOp}), again, old(sqes))
    {
      hide ArmPollout, Rollback, StartClose;
      ring := ring - multiset{SendOp};
      if again {
        RollBack();
        DoArmPollout();
      } else {
        Shut();
      }
    }

    /** The Send case with a result that is not negative; nobody looks at how many bytes it reports. */
    method OnSendOk(ghost sent: nat)
      requires known && multiset{SendOp} <= ring
      modifies this`sqes, this`ring, this`log, c`txq, c`txInflight, c`sendInflight, c`inflightEor, c`served, c`closing
      ensures WorldView() == StepSent(Delivered(old(WorldView()), multiset{SendOp}), sent, old(sqes), c.keepaliveLimit)
    {
      hide SendKick, StartClose, BatchCount, Left;
      ghost var w := WorldView();
      ring := ring - multiset{SendOp};
      log := log.(retired := log.retired + c.txInflight, wire := log.wire + Left(c.txInflight, sent));
      var close := c.OnSendComplete();
      assert TxView() == Retire(w.tx);
      assert close == MustClose(w.tx, w.rx.keepAlive, c.keepaliveLimit);
      hide MustClose, Retire;
      if close {
        Shut();
      } else {
        SendkickInline();
      }
    }

    method OnPollOut()
      requires known && multiset{PollOutOp} <= ring
      modifies this`sqes, this`ring, c`polloutArmed, c`txq, c`txInflight, c`sendInflight, c`inflightEor
      ensures WorldView() == StepPollOut(Delivered(old(WorldView()), multiset{PollOutOp}), old(sqes))
    {
      hide SendKick;
      ring := ring - multiset{PollOutOp};
      c.polloutArmed := false;
      SendkickInline();
    }

    method OnKickTask()
      requires known && multiset{KickOp} <= ring
      modifies this`sqes, this`ring, c`sendkickPending, c`txq, c`txInflight, c`sendInflight, c`inflightEor
      ensures WorldView() == StepTask(Delivered(old(WorldView()), multiset{KickOp}), old(sqes))
    {
      hide SendKick;
      ring := ring - multiset{KickOp};
      c.sendkickPending := false;
      SendkickInline();
    }

    method OnClosed()
      requires known && multiset{CloseOp} <= ring
      modifies this`known, this`ring
      ensures WorldView() == Delivered(old(WorldView()), multiset{CloseOp}).(open := false)
    {
      ring := ring - multiset{CloseOp};
      known := false;
    }

    method OnRecvEnd()
      requires known
      modifies this`sqes, this`ring, c`closing
      ensures WorldView() == StepEnd(old(WorldView()), old(sqes))
    {
      hide StartClose;
      Shut();
    }

    /** A handler of the library server has answered: its segments are queued and a flush is posted. */
    method OnGenerate(texts: seq<string>)
      requires known
      modifies this`sqes, this`ring, this`log, c`txq, c`txInflight, c`sendInflight, c`inflightEor
      ensures WorldView() == StepGenerate(old(WorldView()), texts, old(sqes))
    {
      hide PostKick;
      c.txq := c.txq + Unmarked(texts);
      log := log.(enqueued := log.enqueued + Unmarked(texts));
      PostTask();
    }

    /** The Send case. */
    method OnSend(e: Event)
      requires known && (e.SendOk? || e.SendAgain? || e.SendError?) && multiset{SendOp} <= ring
      modifies this`sqes, this`ring, this`log, c`txq, c`txInflight, c`sendInflight, c`inflightEor, c`polloutArmed,
               c`served, c`closing
      ensures WorldView() == SendCase(Delivered(old(WorldView()), multiset{SendOp}), e, old(sqes), c.keepaliveLimit)
    {
      hide StepSent, StepRefused, Delivered;
      match e
      case SendOk(sent) => OnSendOk(sent);
      case SendAgain => OnSendRefused(true);
      case SendError => OnSendRefused(false);
    }

    /** One completion: the switch of the event loop. `late` is the clock of the parser. */
    method OnCqe(e: Event, late: seq<bool>)
      requires Enabled(WorldView(), e) && c.rxq == []
      modifies this`known, this`sqes, this`ring, this`stuck, this`log, c
      ensures WorldView() == Step(old(WorldView()), e, old(sqes), c.keepaliveLimit) && c.rxq == []
    {
      hide StepRecv, StepEnd, SendCase, StepPollOut, StepTask, StepGenerate, Step, Delivered;
      StepCases(WorldView(), e, sqes, c.keepaliveLimit);
      if !known {
        ring := ring - OpOf(e);
        return;
      }
      match e
      case Recv(bytes) => OnRecv(bytes, late);
      case RecvEnd => OnRecvEnd();
      case PollOut => OnPollOut();
      case Task => OnKickTask();
      case Closed => OnClosed();
      case Generate(texts) => OnGenerate(texts);
      case _ => OnSend(e);
    }
  }

  /** The step, case by case. */
  lemma StepCases(w: World, e: Event, sqes: seq<bool>, limit: nat)
    requires Enabled(w, e)
    ensures var v := Step(w, e, sqes, limit);
            && (!w.open ==> v == w.(ring := w.ring - OpOf(e)))
            && (w.open ==>
                 match e
                 case Recv(bytes) => v == StepRecv(w, bytes, sqes, limit)
                 case RecvEnd => v == StepEnd(w, sqes)
                 case PollOut => v == StepPollOut(Delivered(w, multiset{PollOutOp}), sqes)
                 case Task => v == StepTask(Delivered(w, multiset{KickOp}), sqes)
                 case Closed => v == Delivered(w, multiset{CloseOp}).(open := false)
                 case Generate(texts) => v == StepGenerate(w, texts, sqes)
                 case _ => v == SendCase(Delivered(w, multiset{SendOp}), e, sqes, limit))
  {
    hide StepRecv, StepEnd, SendCase, StepPollOut, StepTask, StepGenerate;
    assert Delivered(w, multiset{}) == w;
  }

  lemma OneSegment(r: Rx, s: string)
    ensures ReceiveAll(r, [s]) == Receive(r, s)
  {
    hide Reframe;
    assert [s][1..] == [];
    assert ReceiveAll(Receive(r, s).rx, []) == Framed(Receive(r, s).rx, [], false);
    assert Receive(r, s).frames + [] == Receive(r, s).frames;
  }

  lemma NoKick(t: Tx, ring: multiset<Op>, sqes: seq<bool>)
    requires !CanKick(t)
    ensures SendKick(t, ring, sqes) == Attempt(t, ring, sqes)
  {
  }

  lemma NothingBack(batch: seq<OwnedBuf>, q: seq<OwnedBuf>)
    ensures batch[|batch|..] + q == q && batch[0..] + q == batch + q
  {
    assert batch[|batch|..] == [] && batch[0..] == batch;
  }

  lemma OneBack(batch: seq<OwnedBuf>, i: nat, q: seq<OwnedBuf>)
    requires i < |batch|
    ensures [batch[|batch| - 1 - i]] + (batch[|batch| - i..] + q) == batch[|batch| - (i + 1)..] + q
  {
    assert batch[|batch| - (i + 1)..] == [batch[|batch| - 1 - i]] + batch[|batch| - i..];
  }
}
