/** What every flush and every run of the epoll transmit pipeline keeps. */
module EpollTheorems {
  import opened Text
  import opened Segments
  import opened EpollTransmit

  function SetServed(t: Tx, n: nat): Tx { t.(served := n) }

  // ------------------------------------------------------------ one flush

  /** A response ends at most once per mark taken off the queue. */
  lemma SendMarks(t: Tx, a: Answer)
    requires OffsetOk(t.txq, t.offset)
    ensures var s := SendOnce(t, a);
            Eors(s.tx.txq) + B(s.result.Finished?) <= Eors(t.txq)
            && (s.result.Finished? ==> s.tx.txq == [])
  {
    if t.txq != [] && a.Room? {
      ConsumeMarks(t.txq, t.offset, Min(a.n, |BatchBytes(t.txq, t.offset)|));
    }
  }

  /**
    For every kernel: bytes move from queue to wire one for one; when the connection stays open,
    EPOLLOUT is wanted exactly while something is queued; and `served` never outruns the marks sent.
  */
  lemma {:induction false} FlushIsExact(t: Tx, kernel: Kernel, i: nat, limit: nat)
    requires OffsetOk(t.txq, t.offset)
    ensures var u := Flush(t, kernel, i, limit);
            && OffsetOk(u.txq, u.offset)
            && u.wire + Pending(u.txq, u.offset) == t.wire + Pending(t.txq, t.offset)
            && t.served <= u.served && u.served + Eors(u.txq) <= t.served + Eors(t.txq)
            && u.closing == t.closing
            && (u.open ==> t.open)
            && (u.open ==> (u.wantOut <==> u.txq != []))
            && (u.open ==> u.served == t.served || (u.served < limit && !u.closing))
    decreases |Pending(t.txq, t.offset)|
  {
    hide SendOnce, Pending, Eors;
    SendIsExact(t, kernel(i));
    SendMarks(t, kernel(i));
    var s := SendOnce(t, kernel(i));
    if s.result.Progress? {
      FlushIsExact(s.tx, kernel, i + 1, limit);
    } else if s.result.Finished? {
      var u := SetServed(s.tx, s.tx.served + 1);
      if u.served < limit && !u.closing {
        FlushIsExact(u, kernel, i + 1, limit);
      }
    }
  }

  ghost predicate NoEmptySegment(q: seq<OwnedBuf>) { forall k :: 0 <= k < |q| ==> q[k].bytes != "" }

  lemma BatchIsNotEmpty(q: seq<OwnedBuf>, off: nat)
    requires OffsetOk(q, off) && q != [] && NoEmptySegment(q)
    ensures BatchBytes(q, off) != ""
  {
    assert |q[0].bytes[off..]| > 0;
  }

  lemma SendKeepsSegments(t: Tx, a: Answer)
    requires OffsetOk(t.txq, t.offset) && NoEmptySegment(t.txq)
    ensures NoEmptySegment(SendOnce(t, a).tx.txq)
  {
    if t.txq != [] && a.Room? {
      ConsumeMarks(t.txq, t.offset, Min(a.n, |BatchBytes(t.txq, t.offset)|));
    }
  }

  /**
    A flush that leaves something queued on an open connection was blocked or interrupted in its last
    call. With a kernel that interrupts nothing edge triggering is therefore safe.
  */
  lemma {:induction false} StopsOnlyWhenBlocked(t: Tx, kernel: Kernel, i: nat, limit: nat)
    requires OffsetOk(t.txq, t.offset) && NoEmptySegment(t.txq)
    requires var u := Flush(t, kernel, i, limit); u.open && u.txq != []
    ensures var n := Calls(t, kernel, i, limit);
            n > 0 && kernel(i + n - 1) in {WouldBlock, Interrupted, Room(0)}
    decreases |Pending(t.txq, t.offset)|
  {
    hide Pending, BatchBytes, Consume;
    SendIsExact(t, kernel(i));
    SendKeepsSegments(t, kernel(i));
    var s := SendOnce(t, kernel(i));
    if s.result.Progress? {
      StopsOnlyWhenBlocked(s.tx, kernel, i + 1, limit);
    } else if s.result.Finished? {
      StopsOnlyWhenBlocked(SetServed(s.tx, s.tx.served + 1), kernel, i + 1, limit);
    } else if t.txq != [] {
      BatchIsNotEmpty(t.txq, t.offset);
    }
  }

  // ------------------------------------------------------------ when a flush closes

  /** The last call of a flush, when it made one. */
  ghost predicate LastWasBroken(t: Tx, kernel: Kernel, i: nat, limit: nat)
    requires OffsetOk(t.txq, t.offset)
  {
    var n := Calls(t, kernel, i, limit);
    n > 0 && kernel(i + n - 1) == Broken
  }

  /**
    For every kernel: a flush that starts on an open connection closes it if and only if its last call
    failed with something queued, or it emptied a queue that ends in a mark while the limit is reached
    or the connection is closing.
  */
  lemma {:induction false} FlushClosesIff(t: Tx, kernel: Kernel, i: nat, limit: nat)
    requires OffsetOk(t.txq, t.offset) && t.open
    ensures var u := Flush(t, kernel, i, limit);
            !u.open <==>
              || (u.txq != [] && LastWasBroken(t, kernel, i, limit))
              || (t.txq != [] && u.txq == [] && t.txq[|t.txq| - 1].eor && (u.served >= limit || u.closing))
    decreases |Pending(t.txq, t.offset)|
  {
    hide SendOnce, Pending;
    SendIsExact(t, kernel(i));
    SendFinishesIff(t, kernel(i));
    BrokenIff(t, kernel(i));
    var s := SendOnce(t, kernel(i));
    if s.result.Progress? {
      FlushClosesIff(s.tx, kernel, i + 1, limit);
      FlushOfNothing(s.tx, kernel, i + 1, limit);
    } else if s.result.Finished? {
      var u := SetServed(s.tx, s.tx.served + 1);
      if u.served < limit && !u.closing {
        FlushNothing(u, kernel, i + 1, limit);
      }
    }
  }

  /** A send is fatal if and only if the kernel reports an error for something that was offered. */
  lemma BrokenIff(t: Tx, a: Answer)
    requires OffsetOk(t.txq, t.offset)
    ensures SendOnce(t, a).result == Fatal <==> t.txq != [] && a == Broken
    ensures t.txq == [] ==> SendOnce(t, a).result == NoData
  {
  }

  // ------------------------------------------------------------ runs

  datatype Op = Queue(buf: OwnedBuf) | Ready | Drop

  /** A connection, the kernel calls made so far, and what has been enqueued: bytes and end-of-response marks. */
  datatype World = World(tx: Tx, calls: nat, enqueued: string, marks: nat)

  const START := World(Tx([], 0, 0, false, false, true, ""), 0, "", 0)

  /** A segment is enqueued, the socket is writable, or another path closes the connection. */
  function Step(w: World, op: Op, kernel: Kernel, limit: nat): World
    requires OffsetOk(w.tx.txq, w.tx.offset)
  {
    if !w.tx.open then w
    else match op
      case Queue(buf) =>
        AppendKeepsOffset(w.tx.txq, w.tx.offset, buf);
        World(Enqueue(w.tx, buf, kernel, w.calls, limit),
              w.calls + Calls(w.tx.(txq := w.tx.txq + [buf]), kernel, w.calls, limit),
              w.enqueued + buf.bytes, w.marks + B(buf.eor))
      case Ready =>
        w.(tx := Flush(w.tx, kernel, w.calls, limit), calls := w.calls + Calls(w.tx, kernel, w.calls, limit))
      case Drop => w.(tx := w.tx.(open := false))
  }

  ghost predicate Inv(w: World, limit: nat) {
    && OffsetOk(w.tx.txq, w.tx.offset)
    && w.tx.wire + Pending(w.tx.txq, w.tx.offset) == w.enqueued
    && w.tx.served + Eors(w.tx.txq) <= w.marks
    && (w.tx.open ==> (w.tx.wantOut <==> w.tx.txq != []))
    && (w.tx.open ==> w.tx.served == 0 || w.tx.served < limit)
  }

  lemma StepKeepsInv(w: World, op: Op, kernel: Kernel, limit: nat)
    requires Inv(w, limit)
    ensures Inv(Step(w, op, kernel, limit), limit)
  {
    hide Flush, Calls, Pending, Eors;
    if w.tx.open {
      match op
      case Queue(buf) =>
        AppendKeepsOffset(w.tx.txq, w.tx.offset, buf);
        FlushIsExact(w.tx.(txq := w.tx.txq + [buf]), kernel, w.calls, limit);
        Assoc(w.tx.wire, Pending(w.tx.txq, w.tx.offset), buf.bytes);
        EorsAppend(w.tx.txq, [buf]);
        EorsOne(buf);
      case Ready => FlushIsExact(w.tx, kernel, w.calls, limit);
      case Drop =>
    }
  }

  function Run(w: World, ops: seq<Op>, kernel: Kernel, limit: nat): World
    requires Inv(w, limit)
    decreases |ops|
  {
    if ops == [] then w else
    StepKeepsInv(w, ops[0], kernel, limit);
    Run(Step(w, ops[0], kernel, limit), ops[1..], kernel, limit)
  }

  lemma {:induction false} RunKeepsInv(w: World, ops: seq<Op>, kernel: Kernel, limit: nat)
    requires Inv(w, limit)
    ensures Inv(Run(w, ops, kernel, limit), limit)
    decreases |ops|
  {
    hide Step, Pending, Eors;
    if ops != [] {
      StepKeepsInv(w, ops[0], kernel, limit);
      RunKeepsInv(Step(w, ops[0], kernel, limit), ops[1..], kernel, limit);
    }
  }

  lemma StartHasInv(limit: nat)
    ensures Inv(START, limit)
  {
    EmptyFront("");
  }

  /**
    Byte-exact sending over every run and every kernel: the wire holds a prefix of what was enqueued, the
    rest is what is pending; an open connection waits for EPOLLOUT exactly while something is pending, and
    when nothing is, all of it has been sent.
  */
  lemma {:induction false} WireIsExact(ops: seq<Op>, kernel: Kernel, limit: nat)
    ensures Inv(START, limit)
    ensures var w := Run(START, ops, kernel, limit);
            && OffsetOk(w.tx.txq, w.tx.offset)
            && w.tx.wire + Pending(w.tx.txq, w.tx.offset) == w.enqueued
            && (w.tx.open ==> (w.tx.wantOut <==> w.tx.txq != []))
            && (w.tx.open && !w.tx.wantOut ==> w.tx.wire == w.enqueued)
            && w.tx.served <= w.marks
  {
    hide Run, Eors;
    StartHasInv(limit);
    RunKeepsInv(START, ops, kernel, limit);
    var w := Run(START, ops, kernel, limit);
    EmptyBack(w.tx.wire);
  }

  // ------------------------------------------------------------ staying open

  function MarksOf(ops: seq<Op>): nat {
    if ops == [] then 0 else (if ops[0].Queue? then B(ops[0].buf.eor) else 0) + MarksOf(ops[1..])
  }

  ghost predicate NoDrop(ops: seq<Op>) { forall op :: op in ops ==> !op.Drop? }

  ghost predicate NeverBroken(kernel: Kernel) { forall j: nat :: kernel(j) != Broken }

  lemma {:induction false} FlushStaysOpen(t: Tx, kernel: Kernel, i: nat, limit: nat)
    requires OffsetOk(t.txq, t.offset) && t.open && !t.closing && NeverBroken(kernel) && t.served + Eors(t.txq) < limit
    ensures var u := Flush(t, kernel, i, limit); u.open && !u.closing
  {
    hide Flush, Calls, Pending, Eors;
    FlushIsExact(t, kernel, i, limit);
    FlushClosesIff(t, kernel, i, limit);
  }

  lemma {:induction false} StepStaysOpen(w: World, op: Op, kernel: Kernel, limit: nat)
    requires Inv(w, limit) && w.tx.open && !w.tx.closing && NeverBroken(kernel) && !op.Drop?
    requires w.marks + (if op.Queue? then B(op.buf.eor) else 0) < limit
    ensures var v := Step(w, op, kernel, limit);
            v.tx.open && !v.tx.closing && v.marks == w.marks + if op.Queue? then B(op.buf.eor) else 0
  {
    hide Flush, Calls, Pending, Eors;
    match op
    case Queue(buf) =>
      AppendKeepsOffset(w.tx.txq, w.tx.offset, buf);
      EorsAppend(w.tx.txq, [buf]);
      EorsOne(buf);
      FlushStaysOpen(w.tx.(txq := w.tx.txq + [buf]), kernel, w.calls, limit);
    case Ready => FlushStaysOpen(w.tx, kernel, w.calls, limit);
  }

  lemma {:induction false} RunStaysOpen(w: World, ops: seq<Op>, kernel: Kernel, limit: nat)
    requires Inv(w, limit) && w.tx.open && !w.tx.closing && NeverBroken(kernel) && NoDrop(ops)
    requires w.marks + MarksOf(ops) < limit
    ensures Run(w, ops, kernel, limit).tx.open
    decreases |ops|
  {
    hide Step, Pending, Eors, NeverBroken;
    if ops != [] {
      assert ops[0] in ops;
      StepKeepsInv(w, ops[0], kernel, limit);
      StepStaysOpen(w, ops[0], kernel, limit);
      RunStaysOpen(Step(w, ops[0], kernel, limit), ops[1..], kernel, limit);
    }
  }

  /** A connection to which fewer responses are queued than the limit, on a kernel that reports no error, stays open. */
  lemma {:induction false} StaysOpen(ops: seq<Op>, kernel: Kernel, limit: nat)
    requires NeverBroken(kernel) && NoDrop(ops) && MarksOf(ops) < limit
    ensures Inv(START, limit) && Run(START, ops, kernel, limit).tx.open
  {
    hide Run, Eors;
    StartHasInv(limit);
    RunStaysOpen(START, ops, kernel, limit);
  }

  // ------------------------------------------------------------ what counts as served

  lemma ConsumeFirst(q: seq<OwnedBuf>, off: nat, more: nat)
    requires OffsetOk(q, off) && q != [] && q[0].bytes != ""
    ensures Consume(q, off, |q[0].bytes| - off + more)
         == if q[0].eor then Consumed(q[1..], 0, more, true) else Consume(q[1..], 0, more)
    ensures Consume(q, off, 0) == Consumed(q, off, 0, false)
  {
  }

  lemma BatchCons(q: seq<OwnedBuf>, room: nat)
    requires q != [] && room > 0
    ensures var n := BatchCount(q, room);
            if q[0].eor then n == 1
            else n == 1 + BatchCount(q[1..], room - 1) && (|q| == 1 || room == 1 ==> n == 1)
  {
    BatchStops(q[1..], room - 1);
  }

  /** A batch that is taken whole leaves the queue behind it, and has finished a response if its last segment says so. */
  lemma {:induction false} ConsumeBatch(q: seq<OwnedBuf>, off: nat, room: nat)
    requires OffsetOk(q, off) && q != [] && room > 0 && NoEmptySegment(q)
    ensures var n := BatchCount(q, room);
            FrontLength(q, off, room) > 0
            && Consume(q, off, FrontLength(q, off, room)) == Consumed(q[n..], 0, 0, q[n - 1].eor)
    decreases |q|
  {
    hide FrontLength, Consume, BatchCount;
    FrontLengthCons(q, off, room);
    BatchCons(q, room);
    if q[0].eor {
      ConsumeFirst(q, off, 0);
    } else if |q| > 1 && room > 1 {
      var rest := q[1..];
      var n := BatchCount(q, room);
      ConsumeBatch(rest, 0, room - 1);
      ConsumeFirst(q, off, FrontLength(rest, 0, room - 1));
      assert rest[n - 1..] == q[n..] && rest[n - 2] == q[n - 1];
    } else {
      NoFront(q[1..], 0, room - 1);
      ConsumeFirst(q, off, 0);
      ConsumeNothing(q[1..]);
    }
  }

  lemma ConsumeNothing(q: seq<OwnedBuf>)
    ensures Consume(q, 0, 0) == Consumed(q, 0, 0, false)
  {
  }

  lemma {:induction false} ConsumeEndsMarked(q: seq<OwnedBuf>, off: nat, remain: nat)
    requires OffsetOk(q, off) && q != [] && Consume(q, off, remain).q == []
    ensures Consume(q, off, remain).finished <==> q[|q| - 1].eor
    decreases |q|
  {
    var avail := |q[0].bytes| - off;
    if q[0].eor {
      assert |q| == 1;
    } else if |q| > 1 {
      ConsumeEndsMarked(q[1..], 0, remain - avail);
    }
  }

  /** A send finishes a response if and only if it empties a queue that ends in a mark; what stays keeps its end. */
  lemma {:induction false} SendFinishesIff(t: Tx, a: Answer)
    requires OffsetOk(t.txq, t.offset)
    ensures var s := SendOnce(t, a);
            && (s.result.Finished? <==> t.txq != [] && s.tx.txq == [] && t.txq[|t.txq| - 1].eor)
            && (s.tx.txq != [] ==> t.txq != [] && s.tx.txq[|s.tx.txq| - 1] == t.txq[|t.txq| - 1])
  {
    hide BatchBytes, Consume;
    if t.txq != [] && a.Room? {
      var sent := Min(a.n, |BatchBytes(t.txq, t.offset)|);
      ConsumeMarks(t.txq, t.offset, sent);
      if Consume(t.txq, t.offset, sent).q == [] {
        ConsumeEndsMarked(t.txq, t.offset, sent);
      }
    }
  }

  /**
    For every kernel: a flush counts one response as served if and only if it empties a queue that ends
    in a mark, and otherwise none, however many responses it has sent.
  */
  lemma {:induction false} FlushCounts(t: Tx, kernel: Kernel, i: nat, limit: nat)
    requires OffsetOk(t.txq, t.offset)
    ensures var u := Flush(t, kernel, i, limit);
            u.served == t.served + B(t.txq != [] && u.txq == [] && t.txq[|t.txq| - 1].eor)
    decreases |Pending(t.txq, t.offset)|
  {
    hide SendOnce, Pending;
    SendIsExact(t, kernel(i));
    SendFinishesIff(t, kernel(i));
    var s := SendOnce(t, kernel(i));
    if s.result.Progress? {
      FlushCounts(s.tx, kernel, i + 1, limit);
      FlushOfNothing(s.tx, kernel, i + 1, limit);
    } else if s.result.Finished? {
      var u := SetServed(s.tx, s.tx.served + 1);
      if u.served < limit && !u.closing {
        FlushCounts(u, kernel, i + 1, limit);
        FlushOfNothing(u, kernel, i + 1, limit);
      }
    }
  }

  lemma FlushOfNothing(t: Tx, kernel: Kernel, i: nat, limit: nat)
    requires OffsetOk(t.txq, t.offset)
    ensures t.txq == [] ==> Flush(t, kernel, i, limit).txq == []
  {
    hide Pending;
  }

  /** Over a whole step: enqueueing or becoming writable counts at most one response, by the same rule. */
  lemma {:induction false} StepCounts(w: World, op: Op, kernel: Kernel, limit: nat)
    requires Inv(w, limit)
    ensures var v := Step(w, op, kernel, limit);
            v.tx.served == w.tx.served
              + match op
                case Queue(buf) => B(w.tx.open && v.tx.txq == [] && buf.eor)
                case Ready => B(w.tx.open && w.tx.txq != [] && v.tx.txq == [] && w.tx.txq[|w.tx.txq| - 1].eor)
                case Drop => 0
  {
    hide Flush, Calls, Pending, Eors;
    if w.tx.open {
      match op
      case Queue(buf) =>
        AppendKeepsOffset(w.tx.txq, w.tx.offset, buf);
        FlushCounts(w.tx.(txq := w.tx.txq + [buf]), kernel, w.calls, limit);
      case Ready => FlushCounts(w.tx, kernel, w.calls, limit);
      case Drop =>
    }
  }

  ghost predicate AlwaysRoom(kernel: Kernel, n: nat, from: nat) {
    forall j: nat :: from <= j ==> kernel(j).Room? && kernel(j).n >= n
  }

  lemma RoomySend(t: Tx, a: Answer)
    requires OffsetOk(t.txq, t.offset) && t.txq != [] && NoEmptySegment(t.txq)
    requires a.Room? && a.n >= |Pending(t.txq, t.offset)|
    ensures var n := BatchCount(t.txq, MAX_IOV); var s := SendOnce(t, a);
            && s.tx.txq == t.txq[n..] && s.tx.offset == 0
            && s.result == (if t.txq[n - 1].eor && t.txq[n..] == [] then Finished else Progress)
  {
    hide Consume, FrontLength;
    BatchIsFront(t.txq, t.offset);
    BatchLength(t.txq, t.offset);
    ConsumeBatch(t.txq, t.offset, MAX_IOV);
  }

  /**
    A queue of any number of responses for which the kernel has room is sent whole and counts as one.
  */
  lemma {:induction false} QueueCountsOnce(t: Tx, kernel: Kernel, i: nat, limit: nat)
    requires OffsetOk(t.txq, t.offset) && t.txq != [] && NoEmptySegment(t.txq) && t.open
    requires t.txq[|t.txq| - 1].eor && AlwaysRoom(kernel, |Pending(t.txq, t.offset)|, i)
    ensures var u := Flush(t, kernel, i, limit);
            && u.served == t.served + 1
            && u.txq == [] && u.wire == t.wire + Pending(t.txq, t.offset)
            && u.open == (t.served + 1 < limit && !t.closing)
    decreases |Pending(t.txq, t.offset)|
  {
    hide SendOnce, Pending, BatchCount, Eors;
    var s := SendOnce(t, kernel(i));
    SendIsExact(t, kernel(i));
    SendKeepsSegments(t, kernel(i));
    RoomySend(t, kernel(i));
    FlushIsExact(t, kernel, i, limit);
    if s.tx.txq == [] {
      NothingPending();
      EmptyBack(s.tx.wire);
      assert s.result == Finished;
      FlushNothing(SetServed(s.tx, s.tx.served + 1), kernel, i + 1, limit);
    } else {
      assert s.tx.txq[|s.tx.txq| - 1] == t.txq[|t.txq| - 1];
      QueueCountsOnce(s.tx, kernel, i + 1, limit);
    }
  }

  lemma NothingPending()
    ensures Pending([], 0) == ""
  {
  }

  lemma FlushNothing(t: Tx, kernel: Kernel, i: nat, limit: nat)
    requires t.txq == [] && t.offset == 0
    ensures Flush(t, kernel, i, limit) == t.(wantOut := false)
  {
  }

  lemma FlushBlocked(t: Tx, kernel: Kernel, i: nat, limit: nat)
    requires OffsetOk(t.txq, t.offset) && t.txq != [] && kernel(i).WouldBlock?
    ensures Flush(t, kernel, i, limit) == t.(wantOut := true) && Calls(t, kernel, i, limit) == 1
  {
    hide Pending;
  }

  const A := OwnedBuf("a", true)
  const AA := [A, A]

  /** A kernel that blocks twice and then has room. */
  function Slow(i: nat): Answer { if i < 2 then WouldBlock else Room(2) }

  /** Two responses are queued while the socket is blocked and sent when it is writable: one counts. */
  lemma {:induction false} TwoResponsesCountOnce()
    ensures var ops := [Queue(A), Queue(A), Ready];
            Inv(START, 10)
            && (var w := Run(START, ops, Slow, 10);
                w.tx.wire == "aa" && w.tx.txq == [] && w.marks == 2 && w.tx.served == 1 && w.tx.open)
  {
    var ops := [Queue(A), Queue(A), Ready];
    var t1 := Tx([A], 0, 0, false, true, true, "");
    var t2 := Tx(AA, 0, 0, false, true, true, "");
    hide Flush, Calls, Inv, Pending;
    StartHasInv(10);
    StepKeepsInv(START, ops[0], Slow, 10);
    var w1 := Step(START, ops[0], Slow, 10);
    FlushBlocked(t1.(wantOut := false), Slow, 0, 10);
    assert w1 == World(t1, 1, "a", 1);
    StepKeepsInv(w1, ops[1], Slow, 10);
    var w2 := Step(w1, ops[1], Slow, 10);
    assert [A] + [A] == AA;
    FlushBlocked(t2, Slow, 1, 10);
    assert w2 == World(t2, 2, "aa", 2);
    StepKeepsInv(w2, ops[2], Slow, 10);
    var w3 := Step(w2, ops[2], Slow, 10);
    PendingTwo();
    QueueCountsOnce(t2, Slow, 2, 10);
    RunThree(START, ops, Slow, 10);
  }

  lemma PendingTwo()
    ensures Pending(AA, 0) == "aa"
  {
    assert AA[1..] == [A] && [A][1..] == [];
    assert Wire([A]) == "a";
  }

  lemma RunThree(w: World, ops: seq<Op>, kernel: Kernel, limit: nat)
    requires Inv(w, limit) && |ops| == 3
    ensures Inv(Step(w, ops[0], kernel, limit), limit)
    ensures var v := Step(w, ops[0], kernel, limit); Inv(Step(v, ops[1], kernel, limit), limit)
    ensures var v := Step(Step(w, ops[0], kernel, limit), ops[1], kernel, limit);
            Run(w, ops, kernel, limit) == Step(v, ops[2], kernel, limit)
  {
    hide Step, Pending, Eors;
    StepKeepsInv(w, ops[0], kernel, limit);
    var v := Step(w, ops[0], kernel, limit);
    StepKeepsInv(v, ops[1], kernel, limit);
    var u := Step(v, ops[1], kernel, limit);
    StepKeepsInv(u, ops[2], kernel, limit);
    assert ops[1..][0] == ops[1] && ops[1..][1..][0] == ops[2] && ops[1..][1..][1..] == [];
    assert Run(u, ops[1..][1..], kernel, limit) == Step(u, ops[2], kernel, limit);
    assert Run(v, ops[1..], kernel, limit) == Run(u, ops[1..][1..], kernel, limit);
  }
}
