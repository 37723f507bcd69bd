/**
  The epoll server's transmit pipeline: `sendmsg` takes any part of a batch of segments, an offset into
  the first segment remembers how far it got, and EPOLLOUT interest follows the queue. The kernel is an
  oracle that answers every call.
*/
module EpollTransmit {
  import opened Text
  import opened Segments

  const MAX_IOV: nat := 8

  /** The answer of one `sendmsg`: room for so many bytes, would block, interrupted by a signal, or an error. */
  datatype Answer = Room(n: nat) | WouldBlock | Interrupted | Broken

  datatype FlushResult = NoData | Blocked | Progress | Finished | Fatal

  /** One connection: queue, offset into its first segment, counters, and the bytes on the wire. */
  datatype Tx = Tx(txq: seq<OwnedBuf>, offset: nat, served: nat, closing: bool, wantOut: bool, open: bool, wire: string)

  /** The offset lies inside the first segment; it is 0 when there is none or when it is empty. */
  ghost predicate OffsetOk(q: seq<OwnedBuf>, off: nat) {
    off == 0 || (q != [] && off < |q[0].bytes|)
  }

  /** The bytes not sent yet. */
  function Pending(q: seq<OwnedBuf>, off: nat): string
    requires OffsetOk(q, off)
  {
    if q == [] then "" else q[0].bytes[off..] + Wire(q[1..])
  }

  /** The bytes offered to one `sendmsg`. */
  function BatchBytes(q: seq<OwnedBuf>, off: nat): string
    requires OffsetOk(q, off)
  {
    var n := BatchCount(q, MAX_IOV);
    if n == 0 then "" else q[0].bytes[off..] + Wire(q[1..n])
  }

  // ------------------------------------------------------------ one send

  /** Queue and offset after the sent bytes have been taken off, and whether a response ended there. */
  datatype Consumed = Consumed(q: seq<OwnedBuf>, off: nat, left: nat, finished: bool)

  function Consume(q: seq<OwnedBuf>, off: nat, remain: nat): Consumed
    requires OffsetOk(q, off)
    decreases |q|
  {
    if remain == 0 || q == [] then Consumed(q, off, remain, false)
    else
      var avail := |q[0].bytes| - off;
      if remain < avail then Consumed(q, off + remain, 0, false)
      else if q[0].eor then Consumed(q[1..], 0, remain - avail, true)
      else Consume(q[1..], 0, remain - avail)
  }

  datatype Sent = Sent(tx: Tx, result: FlushResult)

  /** `flush_send_once`. */
  function SendOnce(t: Tx, a: Answer): Sent
    requires OffsetOk(t.txq, t.offset)
  {
    if t.txq == [] then Sent(t, NoData)
    else match a
      case WouldBlock => Sent(t, Blocked)
      case Interrupted => Sent(t, Blocked)
      case Broken => Sent(t, Fatal)
      case Room(n) =>
        var offered := BatchBytes(t.txq, t.offset);
        var sent := Min(n, |offered|);
        if sent == 0 then Sent(t, Blocked)
        else
          var c := Consume(t.txq, t.offset, sent);
          Sent(t.(txq := c.q, offset := c.off, wire := t.wire + offered[..sent]),
               if c.finished && c.q == [] then Finished else Progress)
  }

  /** A batch is the front of what is pending. */
  lemma BatchIsFront(q: seq<OwnedBuf>, off: nat)
    requires OffsetOk(q, off)
    ensures |BatchBytes(q, off)| <= |Pending(q, off)|
    ensures Pending(q, off)[..|BatchBytes(q, off)|] == BatchBytes(q, off)
  {
    if q != [] {
      var n := BatchCount(q, MAX_IOV);
      assert q[1..] == q[1..n] + q[n..];
      WireAppend(q[1..n], q[n..]);
      Assoc(q[0].bytes[off..], Wire(q[1..n]), Wire(q[n..]));
    }
  }

  /** Bytes in the front segments, counted from the offset. */
  function FrontLength(q: seq<OwnedBuf>, off: nat, room: nat): int {
    |Wire(q[..BatchCount(q, room)])| - off
  }

  lemma FrontLengthCons(q: seq<OwnedBuf>, off: nat, room: nat)
    requires q != [] && room > 0
    ensures q[0].eor ==> FrontLength(q, off, room) == |q[0].bytes| - off
    ensures !q[0].eor ==> FrontLength(q, off, room) == |q[0].bytes| - off + FrontLength(q[1..], 0, room - 1)
  {
    var n := BatchCount(q, room);
    assert q[..n][0] == q[0];
    assert Wire(q[..n]) == q[0].bytes + Wire(q[..n][1..]);
    if q[0].eor {
      assert q[..n][1..] == [];
    } else {
      assert n == 1 + BatchCount(q[1..], room - 1);
      assert q[..n][1..] == q[1..][..n - 1];
    }
  }

  lemma FrontFits(q: seq<OwnedBuf>, off: nat, room: nat)
    ensures FrontLength(q, off, room) <= |Wire(q)| - off
  {
    var n := BatchCount(q, room);
    assert q == q[..n] + q[n..];
    WireAppend(q[..n], q[n..]);
  }

  /**
    Taking sent bytes off the queue, when no more were sent than offered: exactly these bytes go, none
    is left over at the break behind an end-of-response segment, and the offset stays in range.
  */
  lemma {:induction false} ConsumeIsExact(q: seq<OwnedBuf>, off: nat, remain: nat, room: nat)
    requires OffsetOk(q, off) && (remain == 0 || remain <= FrontLength(q, off, room))
    ensures var c := Consume(q, off, remain);
            && OffsetOk(c.q, c.off) && c.left == 0
            && remain <= |Pending(q, off)| && Pending(c.q, c.off) == Pending(q, off)[remain..]
    decreases |q|
  {
    hide FrontLength, Wire;
    if q == [] || room == 0 { NoFront(q, off, room); }
    if remain > 0 && q != [] && room > 0 {
      FrontLengthCons(q, off, room);
      FrontFits(q, off, room);
      WireCons(q);
      FrontFits(q[1..], 0, room - 1);
      var avail := |q[0].bytes| - off;
      assert |q[0].bytes[off..]| == avail;
      if remain < avail {
        DropInFirst(q[0].bytes, off, remain, Wire(q[1..]));
      } else {
        DropFirst(q[0].bytes[off..], Wire(q[1..]), remain);
        PendingFromStart(q[1..]);
        if !q[0].eor {
          ConsumeIsExact(q[1..], 0, remain - avail, room - 1);
        }
      }
    }
  }

  lemma NoFront(q: seq<OwnedBuf>, off: nat, room: nat)
    requires q == [] || room == 0
    ensures FrontLength(q, off, room) + off == 0
  {
  }

  lemma PendingFromStart(q: seq<OwnedBuf>)
    ensures Pending(q, 0) == Wire(q)
  {
    if q != [] {
      assert q[0].bytes[0..] == q[0].bytes;
    }
  }

  lemma DropInFirst(b: string, off: nat, n: nat, rest: string)
    requires off + n <= |b|
    ensures (b[off..] + rest)[n..] == b[off + n..] + rest
  {
  }

  lemma DropFirst(a: string, b: string, n: nat)
    requires |a| <= n <= |a| + |b|
    ensures (a + b)[n..] == b[n - |a|..] && b[0..] == b
  {
  }

  lemma BatchLength(q: seq<OwnedBuf>, off: nat)
    requires OffsetOk(q, off) && q != []
    ensures |BatchBytes(q, off)| == FrontLength(q, off, MAX_IOV)
  {
    var n := BatchCount(q, MAX_IOV);
    assert q[..n][1..] == q[1..n];
  }

  /** What is left is a suffix of the queue, and it lacks one mark exactly when a response has ended. */
  lemma {:induction false} ConsumeMarks(q: seq<OwnedBuf>, off: nat, remain: nat)
    requires OffsetOk(q, off)
    ensures var c := Consume(q, off, remain);
            && |c.q| <= |q| && c.q == q[|q| - |c.q|..]
            && Eors(q) == Eors(c.q) + B(c.finished)
    decreases |q|
  {
    if remain > 0 && q != [] && remain >= |q[0].bytes| - off && !q[0].eor {
      ConsumeMarks(q[1..], 0, remain - (|q[0].bytes| - off));
    }
  }

  /** One send moves bytes from the queue to the wire, byte for byte, whatever the kernel answers. */
  lemma {:induction false} SendIsExact(t: Tx, a: Answer)
    requires OffsetOk(t.txq, t.offset)
    ensures var s := SendOnce(t, a);
            && OffsetOk(s.tx.txq, s.tx.offset)
            && s.tx.wire + Pending(s.tx.txq, s.tx.offset) == t.wire + Pending(t.txq, t.offset)
            && (if s.result.Progress? || s.result.Finished?
                then |Pending(s.tx.txq, s.tx.offset)| < |Pending(t.txq, t.offset)| else s.tx == t)
            && s.tx.(txq := t.txq, offset := t.offset, wire := t.wire) == t
  {
    hide Pending, BatchBytes, Consume, FrontLength;
    if t.txq != [] && a.Room? {
      var offered := BatchBytes(t.txq, t.offset);
      var sent := Min(a.n, |offered|);
      BatchLength(t.txq, t.offset);
      ConsumeIsExact(t.txq, t.offset, sent, MAX_IOV);
      BatchIsFront(t.txq, t.offset);
      CutFront(Pending(t.txq, t.offset), offered, sent, t.wire);
    }
  }

  lemma CutFront(p: string, offered: string, n: nat, wire: string)
    requires n <= |offered| <= |p| && p[..|offered|] == offered
    ensures wire + offered[..n] + p[n..] == wire + p
  {
    assert p[..n] == offered[..n];
    assert p == p[..n] + p[n..];
    Assoc(wire, p[..n], p[n..]);
  }

  // ------------------------------------------------------------ flushing

  /** The kernel: the answer to its `i`-th call. */
  type Kernel = nat -> Answer

  /** `try_flush_and_arm`; it ends because every send that makes progress shrinks what is pending. */
  function Flush(t: Tx, kernel: Kernel, i: nat, limit: nat): Tx
    requires OffsetOk(t.txq, t.offset)
    decreases |Pending(t.txq, t.offset)|
  {
    SendIsExact(t, kernel(i));
    var s := SendOnce(t, kernel(i));
    match s.result
    case Progress => Flush(s.tx, kernel, i + 1, limit)
    case Finished =>
      var u := s.tx.(served := s.tx.served + 1);
      if u.served >= limit || u.closing then u.(open := false) else Flush(u, kernel, i + 1, limit)
    case Fatal => s.tx.(open := false)
    case NoData => s.tx.(wantOut := s.tx.txq != [])
    case Blocked => s.tx.(wantOut := s.tx.txq != [])
  }

  /** How many calls a flush makes. */
  function Calls(t: Tx, kernel: Kernel, i: nat, limit: nat): nat
    requires OffsetOk(t.txq, t.offset)
    decreases |Pending(t.txq, t.offset)|
  {
    SendIsExact(t, kernel(i));
    var s := SendOnce(t, kernel(i));
    match s.result
    case Progress => 1 + Calls(s.tx, kernel, i + 1, limit)
    case Finished =>
      var u := s.tx.(served := s.tx.served + 1);
      if u.served >= limit || u.closing then 1 else 1 + Calls(u, kernel, i + 1, limit)
    case NoData => 0
    case _ => 1
  }

  // ------------------------------------------------------------ the code

  class PerClientStorage {
    var txq: seq<OwnedBuf>
    var txFirstOffset: nat
    var served: nat
    var closing: bool
    var wantOut: bool
    var open: bool             // not recycled
    var wire: string           // what the kernel has taken
    var calls: nat             // sendmsg calls so far
    const kernel: Kernel
    const keepaliveLimit: nat

    ghost function View(): Tx
      reads this
    {
      Tx(txq, txFirstOffset, served, closing, wantOut, open, wire)
    }

    ghost predicate Valid()
      reads this
    {
      OffsetOk(txq, txFirstOffset)
    }

    constructor (kernel: Kernel, limit: nat)
      ensures Valid() && View() == Tx([], 0, 0, false, false, true, "")
      ensures this.kernel == kernel && keepaliveLimit == limit && calls == 0
    {
      this.kernel, keepaliveLimit, calls := kernel, limit, 0;
      txq, txFirstOffset, served, closing, wantOut, open, wire := [], 0, 0, false, false, true, "";
    }

    /** The buffers handed to sendmsg. */
    method PrepareIov() returns (iov: seq<string>)
      requires Valid()
      ensures Flatten(iov) == BatchBytes(txq, txFirstOffset) && |iov| == BatchCount(txq, MAX_IOV)
    {
      hide BatchCount, Flatten, Wire;
      iov := [];
      var count := 0;
      assert txq[0..] == txq;
      NoIov();
      while count < |txq| && count < MAX_IOV
        invariant 0 <= count <= |txq| && count <= MAX_IOV && |iov| == count
        invariant count > 0 ==> !txq[count - 1].eor
        invariant Flatten(iov) == Taken(txq, txFirstOffset, count)
        invariant BatchCount(txq, MAX_IOV) == count + BatchCount(txq[count..], MAX_IOV - count)
      {
        var off := if count == 0 then txFirstOffset else 0;
        BatchGrows(txq, MAX_IOV, count);
        OneMoreIov(iov, txq, txFirstOffset, count);
        iov := iov + [txq[count].bytes[off..]];
        count := count + 1;
        if txq[count - 1].eor { break; }
      }
      BatchStops(txq[count..], MAX_IOV - count);
    }

    /** `sendmsg`: the number of bytes taken, or an error. */
    method SendMsg(iov: seq<string>) returns (sent: int, fatal: bool)
      modifies this`wire, this`calls
      ensures calls == old(calls) + 1
      ensures match kernel(old(calls))
              case Room(n) => sent == Min(n, |Flatten(iov)|) && wire == old(wire) + Flatten(iov)[..sent] && !fatal
              case WouldBlock => sent < 0 && wire == old(wire) && !fatal
              case Interrupted => sent < 0 && wire == old(wire) && !fatal
              case Broken => sent < 0 && wire == old(wire) && fatal
    {
      match kernel(calls)
      case Room(n) =>
        sent := Min(n, |Flatten(iov)|);
        wire := wire + Flatten(iov)[..sent];
        fatal := false;
        calls := calls + 1;
      case WouldBlock =>
        sent, fatal := -1, false;
        calls := calls + 1;
      case Interrupted =>
        sent, fatal := -1, false;
        calls := calls + 1;
      case Broken =>
        sent, fatal := -1, true;
        calls := calls + 1;
    }

    /** Takes `sent` bytes off the queue. */
    method ConsumeSent(sent: nat) returns (finished: bool)
      requires Valid()
      modifies this`txq, this`txFirstOffset
      ensures var c := Consume(old(txq), old(txFirstOffset), sent);
              txq == c.q && txFirstOffset == c.off && finished == c.finished
    {
      var remain: nat := sent;
      finished := false;
      ghost var goal := Consume(txq, txFirstOffset, sent);
      while remain > 0 && txq != []
        invariant Valid() && Consume(txq, txFirstOffset, remain) == goal && !finished
        decreases |txq|, remain
      {
        var front := txq[0];
        var avail := |front.bytes| - txFirstOffset;
        if remain < avail {
          txFirstOffset := txFirstOffset + remain;
          remain := 0;
          break;
        }
        remain := remain - avail;
        txq := txq[1..];
        txFirstOffset := 0;
        if front.eor {
          finished := true;
          break;
        }
      }
    }

    method FlushSendOnce() returns (result: FlushResult)
      requires Valid()
      modifies this`txq, this`txFirstOffset, this`wire, this`calls
      ensures Valid()
      ensures Sent(View(), result) == SendOnce(old(View()), kernel(old(calls)))
      ensures calls == old(calls) + (if result.NoData? then 0 else 1)
    {
      hide Consume, BatchCount, BatchBytes;
      SendIsExact(View(), kernel(calls));
      if txq == [] { return NoData; }
      var iov := PrepareIov();
      var sent, fatal := SendMsg(iov);
      if sent < 0 {
        return if fatal then Fatal else Blocked;
      }
      if sent == 0 {
        assert wire == old(wire);
        return Blocked;
      }
      var finishedResponse := ConsumeSent(sent);
      return if finishedResponse && txq == [] then Finished else Progress;
    }

    method TryFlushAndArm()
      requires Valid()
      modifies this
      ensures Valid()
      ensures View() == Flush(old(View()), kernel, old(calls), keepaliveLimit)
      ensures calls == old(calls) + Calls(old(View()), kernel, old(calls), keepaliveLimit)
    {
      hide SendOnce, Pending;
      ghost var goal := Flush(View(), kernel, calls, keepaliveLimit);
      ghost var all := calls + Calls(View(), kernel, calls, keepaliveLimit);
      while true
        invariant Valid() && Flush(View(), kernel, calls, keepaliveLimit) == goal
        invariant calls + Calls(View(), kernel, calls, keepaliveLimit) == all
        decreases |Pending(txq, txFirstOffset)|
      {
        SendIsExact(View(), kernel(calls));
        var r := FlushSendOnce();
        if r == Progress { continue; }
        if r == Finished {
          served := served + 1;
          if served >= keepaliveLimit || closing {
            open := false;
            return;
          }
          continue;
        } else if r == Fatal {
          open := false;
          return;
        }
        var needOut := txq != [];
        if needOut != wantOut {
          wantOut := needOut;
        }
        break;
      }
    }

    method TxEnqueue(buf: OwnedBuf)
      requires Valid()
      modifies this
      ensures Valid() && View() == Enqueue(old(View()), buf, kernel, old(calls), keepaliveLimit)
    {
      AppendKeepsOffset(txq, txFirstOffset, buf);
      txq := txq + [buf];
      TryFlushAndArm();
    }
  }

  lemma AppendKeepsOffset(q: seq<OwnedBuf>, off: nat, buf: OwnedBuf)
    requires OffsetOk(q, off)
    ensures OffsetOk(q + [buf], off) && Pending(q + [buf], off) == Pending(q, off) + buf.bytes
  {
    assert [buf][1..] == [];
    assert Wire([buf]) == buf.bytes;
    if q == [] {
      assert [buf][0].bytes[0..] == buf.bytes;
      assert q + [buf] == [buf];
    } else {
      assert (q + [buf])[1..] == q[1..] + [buf];
      WireAppend(q[1..], [buf]);
    }
  }

  function Enqueue(t: Tx, buf: OwnedBuf, kernel: Kernel, i: nat, limit: nat): Tx
    requires OffsetOk(t.txq, t.offset)
  {
    AppendKeepsOffset(t.txq, t.offset, buf);
    Flush(t.(txq := t.txq + [buf]), kernel, i, limit)
  }

  /** The bytes of the first `n` segments, from the offset. */
  function Taken(q: seq<OwnedBuf>, off: nat, n: nat): string
    requires OffsetOk(q, off) && n <= |q|
  {
    if n == 0 then "" else q[0].bytes[off..] + Wire(q[1..n])
  }

  lemma NoIov()
    ensures Flatten([]) == ""
  {
  }

  lemma OneMoreIov(iov: seq<string>, q: seq<OwnedBuf>, off: nat, n: nat)
    requires OffsetOk(q, off) && n < |q| && Flatten(iov) == Taken(q, off, n)
    ensures Flatten(iov + [q[n].bytes[if n == 0 then off else 0..]]) == Taken(q, off, n + 1)
  {
    var b := q[n].bytes[if n == 0 then off else 0..];
    FlattenAppend(iov, [b]);
    assert [b][1..] == [];
    EmptyBack(b);
    assert Flatten([b]) == b;
    if n == 0 {
      assert q[1..1] == [];
      EmptyFront(b);
      EmptyBack(b);
    } else {
      assert q[1..n + 1] == q[1..n] + [q[n]];
      WireAppend(q[1..n], [q[n]]);
      assert [q[n]][1..] == [];
      assert Wire([q[n]]) == q[n].bytes;
      assert b == q[n].bytes;
      Assoc(q[0].bytes[off..], Wire(q[1..n]), q[n].bytes);
    }
  }
}
