/** The io_uring server's framing: one accumulator, scanned again from its start after every segment. */
module Accumulator {
  import opened Text
  import opened Numbers
  import opened Segments
  import opened StreamParser

  const RX_MAX_SEGMENTS: nat := 32
  const MAX_IOV: nat := 8

  /** One more than the largest `size_t`. */
  const SIZE_LIMIT: nat := 0x1_0000_0000_0000_0000

  // ------------------------------------------------------------ header scan

  /** What the header lines say: the last Connection and the last Content-Length line count. */
  datatype Policy = Policy(keep: bool, length: nat)

  const DEFAULT := Policy(true, 0)

  /** One line; names are compared without regard to case, and the request line counts as a line. */
  function ApplyLine(p: Policy, line: string): Policy {
    match Find(line, ":", 0)
    case None => p
    case Some(c) => ApplyHeader(p, line[..c], TrimLeft(line[c + 1..]))
  }

  function ApplyHeader(p: Policy, name: string, value: string): Policy {
    if Lower(name) == "connection" then p.(keep := Find(Lower(value), "close", 0).None?)
    else if Lower(name) == "content-length" then p.(length := Strtoull(value))
    else p
  }

  /** The lines of `acc` from `start` on whose end is not behind `hdrEnd`. */
  function ScanLines(acc: string, hdrEnd: nat, start: nat, p: Policy): Policy
    decreases hdrEnd - start
  {
    if start >= hdrEnd then p
    else match Find(acc, CRLF, start)
      case None => p
      case Some(end) =>
        if end > hdrEnd then p
        else ScanLines(acc, hdrEnd, end + 2, ApplyLine(p, acc[start..end]))
  }

  function Scan(acc: string, hdrEnd: nat): Policy { ScanLines(acc, hdrEnd, 0, DEFAULT) }

  // ------------------------------------------------------------ framing

  /** The receive side of a connection; `need` is `body_need`. */
  datatype Rx = Rx(acc: string, keepAlive: bool, need: nat)

  datatype Frame = Frame(bytes: string, keep: bool)

  /**
    Where framing stops, and the frames it cut. `spins` says that the loop never stops, because it goes
    on cutting nothing; then the last frame is the first of these empty ones.
  */
  datatype Framed = Framed(rx: Rx, frames: seq<Frame>, spins: bool)

  /** Bytes of the request whose header block ends at `e`, as its header block states them. */
  function Total(acc: string, e: nat): nat { e + 4 + Scan(acc, e).length }

  /** `body_off + clen` in `size_t`. */
  function Demand(acc: string, e: nat): nat { Total(acc, e) % SIZE_LIMIT }

  /** One round of the framing loop: it waits for more bytes, or cuts a frame off the front. */
  datatype Round = Waiting(rx: Rx) | Cut(frame: Frame, rx: Rx)

  function Look(r: Rx): Round {
    match Find(r.acc, CRLF2, 0)
    case None => Waiting(r)
    case Some(e) =>
      var keep, demand := Scan(r.acc, e).keep, Demand(r.acc, e);
      if |r.acc| < demand then Waiting(r.(keepAlive := keep, need := demand - |r.acc|))
      else Cut(Frame(r.acc[..demand], keep), Rx(r.acc[demand..], keep, 0))
  }

  /** The framing loop; `AccumulatorTheorems.LoopEndsUnlessItSpins` says what `spins` means. */
  function Reframe(r: Rx): Framed
    decreases |r.acc|
  {
    match Look(r)
    case Waiting(q) => Framed(q, [], false)
    case Cut(f, q) => if f.bytes == "" then Framed(q, [f], true) else Before([f], Reframe(q))
  }

  function Before(fs: seq<Frame>, o: Framed): Framed { o.(frames := fs + o.frames) }

  function Append(r: Rx, s: string): Rx { r.(acc := r.acc + s) }

  function Receive(r: Rx, s: string): Framed { Reframe(Append(r, s)) }

  /** Segment by segment; nothing comes behind a loop that never stops. */
  function ReceiveAll(r: Rx, ss: seq<string>): Framed
    decreases ss
  {
    if ss == [] then Framed(r, [], false) else
    var o := Receive(r, ss[0]);
    if o.spins then o else Before(o.frames, ReceiveAll(o.rx, ss[1..]))
  }

  /** The two segments that answer one request. */
  function Answer(keep: bool, served: nat, limit: nat): seq<OwnedBuf> {
    [OwnedBuf(if keep && BelowLimit(served, limit) then HEAD_KEEP else HEAD_CLOSE, false), OwnedBuf(BODY_TEXT, true)]
  }

  function Answers(fs: seq<Frame>, served: nat, limit: nat): seq<OwnedBuf> {
    if fs == [] then [] else Answer(fs[0].keep, served, limit) + Answers(fs[1..], served, limit)
  }

  lemma {:induction false} AnswersAppend(a: seq<Frame>, b: seq<Frame>, served: nat, limit: nat)
    ensures Answers(a + b, served, limit) == Answers(a, served, limit) + Answers(b, served, limit)
  {
    hide Answer;
    if a == [] {
      assert a + b == b;
      assert [] + Answers(b, served, limit) == Answers(b, served, limit);
    } else {
      assert (a + b)[1..] == a[1..] + b;
      AnswersAppend(a[1..], b, served, limit);
      assert Answer(a[0].keep, served, limit) + (Answers(a[1..], served, limit) + Answers(b, served, limit))
          == (Answer(a[0].keep, served, limit) + Answers(a[1..], served, limit)) + Answers(b, served, limit);
    }
  }

  /** Every request framed puts exactly one end-of-response mark into the queue. */
  lemma {:induction false} OneMarkPerFrame(fs: seq<Frame>, served: nat, limit: nat)
    ensures Eors(Answers(fs, served, limit)) == |fs|
  {
    if fs != [] {
      var a := Answer(fs[0].keep, served, limit);
      OneMarkPerFrame(fs[1..], served, limit);
      EorsAppend(a, Answers(fs[1..], served, limit));
      EorsAppend([a[0]], [a[1]]);
      assert a == [a[0]] + [a[1]];
      EorsOne(a[0]);
      EorsOne(a[1]);
    }
  }

  lemma BeforeTwice(a: seq<Frame>, b: seq<Frame>, o: Framed)
    ensures Before(a, Before(b, o)) == Before(a + b, o)
  {
    assert a + (b + o.frames) == (a + b) + o.frames;
  }

  lemma {:induction false} ReceiveAllSnoc(r: Rx, ss: seq<string>, s: string)
    requires !ReceiveAll(r, ss).spins
    ensures var o := ReceiveAll(r, ss);
            ReceiveAll(r, ss + [s]) == Before(o.frames, Receive(o.rx, s))
    decreases |ss|
  {
    hide Reframe;
    if ss == [] {
      assert ([] + [s])[1..] == [];
      var q := Receive(r, s);
      assert q.frames + [] == q.frames && [] + q.frames == q.frames;
    } else {
      var q := Receive(r, ss[0]);
      assert (ss + [s])[1..] == ss[1..] + [s];
      ReceiveAllSnoc(q.rx, ss[1..], s);
      var o := ReceiveAll(q.rx, ss[1..]);
      BeforeTwice(q.frames, o.frames, Receive(o.rx, s));
    }
  }

  // ------------------------------------------------------------ the code

  class PerClientStorage {
    var served: nat
    var closing: bool
    var keepAlive: bool
    var bodyNeed: nat
    var rxq: seq<string>
    var acc: string
    var txq: seq<OwnedBuf>
    var txInflight: seq<OwnedBuf>
    var sendInflight: bool
    var inflightEor: bool
    var polloutArmed: bool
    var sendkickPending: bool
    const keepaliveLimit: nat

    ghost function RxView(): Rx
      reads this
    {
      Rx(acc, keepAlive, bodyNeed)
    }

    constructor (limit: nat)
      ensures keepaliveLimit == limit && RxView() == Rx("", true, 0) && rxq == [] && served == 0 && !closing
      ensures txq == [] && txInflight == [] && !sendInflight && !inflightEor && !polloutArmed && !sendkickPending
    {
      keepaliveLimit := limit;
      served, closing, keepAlive, bodyNeed := 0, false, true, 0;
      rxq, acc, txq, txInflight := [], "", [], [];
      sendInflight, inflightEor, polloutArmed, sendkickPending := false, false, false, false;
    }

    static method ScanHeaderLine(acc: string, start: nat, end: nat, p: Policy) returns (q: Policy)
      requires start <= end <= |acc|
      ensures q == ApplyLine(p, acc[start..end])
    {
      q := p;
      var colon := Find(acc, ":", start);
      LineColon(acc, start, end);
      if colon.Some? && colon.value < end {
        var vbeg := RequestContext.SkipBlanks(acc, colon.value + 1, end);
        ghost var line := acc[start..end];
        assert line[..colon.value - start] == acc[start..colon.value];
        assert line[colon.value - start + 1..] == acc[colon.value + 1..end];
        var k, v := acc[start..colon.value], acc[vbeg..end];
        if |k| == 10 && Lower(k) == "connection" {
          q := q.(keep := Find(Lower(v), "close", 0).None?);
        } else if |k| == 14 && Lower(k) == "content-length" {
          q := q.(length := Strtoull(v));
        }
      }
    }

    static method ScanHeaders(acc: string, hdrEnd: nat) returns (p: Policy)
      ensures p == Scan(acc, hdrEnd)
    {
      p := DEFAULT;
      var start := 0;
      ghost var goal := Scan(acc, hdrEnd);
      while start < hdrEnd
        invariant ScanLines(acc, hdrEnd, start, p) == goal
        decreases hdrEnd - start
      {
        var end := Find(acc, CRLF, start);
        if end.None? || end.value > hdrEnd { break; }
        p := ScanHeaderLine(acc, start, end.value, p);
        start := end.value + 2;
      }
    }

    /** One round of the loop: frames one request, or says how much of it is missing. */
    method CutFrame() returns (more: bool, ghost f: Frame)
      modifies this`acc, this`keepAlive, this`bodyNeed, this`txq
      ensures more ==> Look(old(RxView())) == Cut(f, RxView()) && txq == old(txq) + Answer(f.keep, served, keepaliveLimit)
      ensures !more ==> Look(old(RxView())) == Waiting(RxView()) && txq == old(txq)
    {
      hide Answer;
      more := false;
      f := Frame("", true);
      var hdrEnd := Find(acc, CRLF2, 0);
      if hdrEnd.None? { return; }
      var p := ScanHeaders(acc, hdrEnd.value);
      var bodyOff := hdrEnd.value + 4;
      var total := (bodyOff + p.length) % SIZE_LIMIT;
      if |acc| < total {
        keepAlive, bodyNeed := p.keep, total - |acc|;
        return;
      }
      more := true;
      f := Frame(acc[..total], p.keep);
      acc := acc[total..];
      keepAlive := p.keep;
      bodyNeed := 0;
      txq := txq + Answer(p.keep, served, keepaliveLimit);
    }

    /**
      One segment: append it, then frame as many requests as are complete. When a round erases nothing
      every later round does the same, and the loop of the server never ends; `spins` reports that.
    */
    method TakeSegment(s: string) returns (spins: bool)
      modifies this`acc, this`keepAlive, this`bodyNeed, this`txq
      ensures var o := Receive(old(RxView()), s);
              RxView() == o.rx && txq == old(txq) + Answers(o.frames, served, keepaliveLimit) && spins == o.spins
    {
      hide Answer, Look;
      acc := acc + s;
      ghost var o := Reframe(RxView());
      ghost var done: seq<Frame> := [];
      assert [] + o.frames == o.frames && txq + [] == txq;
      spins := false;
      while true
        invariant Before(done, Reframe(RxView())) == o && !spins
        invariant txq == old(txq) + Answers(done, served, keepaliveLimit)
        decreases |acc|
      {
        hide Answers;
        ghost var r := RxView();
        CutCosts(r);
        var size := |acc|;
        var more, f := CutFrame();
        if !more {
          assert done + [] == done;
          break;
        }
        OneAnswer(done, f, old(txq), served, keepaliveLimit);
        if |acc| == size {
          spins := true;
          break;
        }
        BeforeTwice(done, [f], Reframe(RxView()));
        done := done + [f];
      }
    }

    /** A send completion: the batch is retired; true when the connection has to be closed. */
    method OnSendComplete() returns (close: bool)
      modifies this`txInflight, this`sendInflight, this`inflightEor, this`served
      ensures txInflight == [] && !sendInflight && !inflightEor && served == old(served) + B(old(inflightEor))
      ensures close <==> old(inflightEor) && (served >= keepaliveLimit || !keepAlive || closing)
    {
      var finished := false;
      txInflight := [];
      sendInflight := false;
      if inflightEor { finished := true; }
      inflightEor := false;
      close := false;
      if finished {
        served := served + 1;
        close := served >= keepaliveLimit || !keepAlive || closing;
      }
    }

    /**
      Takes at most 32 rounds of at most 32 segments off rxq, fewer when the clock says so.
      `late[i]` tells whether the time budget was found used up after round `i`.
    */
    method ParseStep(late: seq<bool>) returns (taken: nat, spins: bool)
      modifies this`rxq, this`acc, this`keepAlive, this`bodyNeed, this`txq
      ensures taken <= |old(rxq)| && rxq == old(rxq)[taken..] && (old(rxq) != [] ==> taken > 0)
      ensures var o := ReceiveAll(old(RxView()), old(rxq)[..taken]);
              RxView() == o.rx && txq == old(txq) + Answers(o.frames, served, keepaliveLimit) && spins == o.spins
      ensures !spins && |old(rxq)| <= RX_MAX_SEGMENTS ==> rxq == []
      ensures !spins && rxq != [] ==> taken >= RX_MAX_SEGMENTS
      ensures !spins && rxq != [] && (forall b :: b in late ==> !b) ==> taken == RX_MAX_SEGMENTS * RX_MAX_SEGMENTS
    {
      taken, spins := 0, false;
      var processed := 0;
      ghost var q := rxq;
      ghost var frames: seq<Frame> := [];
      assert q[..0] == [] && q[0..] == q;
      while true
        invariant 0 <= processed < RX_MAX_SEGMENTS && taken <= |q| && rxq == q[taken..] && !spins
        invariant rxq != [] ==> taken == processed * RX_MAX_SEGMENTS
        invariant rxq == [] && q != [] ==> taken > 0
        invariant ReceiveAll(old(RxView()), q[..taken]) == Framed(RxView(), frames, false)
        invariant txq == old(txq) + Answers(frames, served, keepaliveLimit)
        decreases RX_MAX_SEGMENTS - processed
      {
        hide Answers, Answer, Receive, ReceiveAll, Before;
        if rxq == [] { break; }
        ghost var from := taken;
        var take := Min(RX_MAX_SEGMENTS, |rxq|);
        var i := 0;
        while i < take
          invariant 0 <= i <= take && taken == from + i <= |q| && rxq == q[taken..] && take <= |q| - from && !spins
          invariant ReceiveAll(old(RxView()), q[..taken]) == Framed(RxView(), frames, false)
          invariant txq == old(txq) + Answers(frames, served, keepaliveLimit)
        {
          var seg := rxq[0];
          rxq := rxq[1..];
          ghost var o := Receive(RxView(), seg);
          OneMoreSegment(old(RxView()), q, taken, RxView(), frames);
          MoreAnswers(frames, o.frames, old(txq), served, keepaliveLimit);
          spins := TakeSegment(seg);
          frames := frames + o.frames;
          taken := taken + 1;
          if spins { return; }
          i := i + 1;
        }
        processed := processed + 1;
        if processed >= RX_MAX_SEGMENTS { break; }
        if processed - 1 < |late| && late[processed - 1] {
          assert late[processed - 1] in late;
          break;
        }
      }
    }
  }

  /** A round that cuts takes bytes off the accumulator unless the frame is empty. */
  lemma CutCosts(r: Rx)
    ensures Look(r).Cut? ==> |Look(r).rx.acc| + |Look(r).frame.bytes| == |r.acc|
  {
    hide ScanLines;
  }

  lemma OneMoreSegment(r: Rx, q: seq<string>, taken: nat, now: Rx, frames: seq<Frame>)
    requires taken < |q| && ReceiveAll(r, q[..taken]) == Framed(now, frames, false)
    ensures var o := Receive(now, q[taken]);
            ReceiveAll(r, q[..taken + 1]) == Framed(o.rx, frames + o.frames, o.spins)
  {
    hide ReceiveAll, Receive;
    assert q[..taken + 1] == q[..taken] + [q[taken]];
    ReceiveAllSnoc(r, q[..taken], q[taken]);
  }

  lemma MoreAnswers(a: seq<Frame>, b: seq<Frame>, q: seq<OwnedBuf>, served: nat, limit: nat)
    ensures q + Answers(a, served, limit) + Answers(b, served, limit) == q + Answers(a + b, served, limit)
  {
    hide Answers;
    AnswersAppend(a, b, served, limit);
    assert q + Answers(a, served, limit) + Answers(b, served, limit)
        == q + (Answers(a, served, limit) + Answers(b, served, limit));
  }

  lemma OneAnswer(a: seq<Frame>, f: Frame, q: seq<OwnedBuf>, served: nat, limit: nat)
    ensures q + Answers(a, served, limit) + Answer(f.keep, served, limit) == q + Answers(a + [f], served, limit)
  {
    hide Answer;
    assert [f][1..] == [];
    assert Answer(f.keep, served, limit) + [] == Answer(f.keep, served, limit);
    assert Answers([f], served, limit) == Answer(f.keep, served, limit);
    MoreAnswers(a, [f], q, served, limit);
  }
}
