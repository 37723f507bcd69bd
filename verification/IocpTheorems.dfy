/** What holds in every run of the IOCP connection: exclusion, stable batches, delivery, settling. */
module IocpTheorems {
  import opened Text
  import opened StreamParser
  import opened StreamTheorems
  import opened Segments
  import opened IocpConnection
  import opened IocpProtocol
  import opened IocpInvariant

  // ------------------------------------------------------------ the invariant over runs

  lemma InitHasInv(limit: nat, tx: seq<string>)
    requires |tx| == MAX_WSABUF
    ensures Inv(Init(limit, tx))
  {
    hide Sum, Local;
    var s := Init(limit, tx);
    forall k ensures Sum(k, s.tasks) == Weight(k, RecvArm) { SumOne(k, RecvArm); }
    LocalOne(RecvArm);
  }

  lemma InitFits(limit: nat, tx: seq<string>)
    requires |tx| == MAX_WSABUF
    ensures Fits(Init(limit, tx))
  {
  }

  lemma NextKeepsInv(s: Sys, e: Event)
    requires Inv(s) && Enabled(s, e) && Fits(s) && !Next(s, e).over
    ensures Inv(Next(s, e)) && Fits(Next(s, e))
  {
    hide Tokens, Awake, Conserved, InOrder, Step;
    match e
    case Run(i, ch) =>
      StepKeepsCore(s, i, ch);
      StepKeepsOrder(s, i, ch);
  }

  /** Every state of a connection that has not been recycled satisfies the invariant. */
  lemma {:induction false} ReachableHasInv(s: Sys, n: nat)
    requires Reachable(s, n) && !s.over
    ensures Inv(s) && Fits(s)
    decreases n
  {
    hide Inv, Next, Init;
    if n == 0 {
      var limit, tx :| |tx| == MAX_WSABUF && s == Init(limit, tx);
      InitHasInv(limit, tx);
      InitFits(limit, tx);
    } else {
      var r, e := ReachableLast(s, n);
      ReachableHasInv(r, n - 1);
      NextKeepsInv(r, e);
    }
  }

  // ------------------------------------------------------------ exclusion

  predicate InParser(t: Task) { Weight(Parsing, t) == 1 }

  predicate SendInProgress(t: Task) { t.KickSend? || t.SendPosted? }

  /** Two workers are never inside the parser, and parse_inflight says whether one token or handler exists. */
  lemma {:induction false} ParserIsExclusive(s: Sys, n: nat)
    requires Reachable(s, n) && !s.over
    ensures forall i, j :: 0 <= i < j < |s.tasks| ==> !(InParser(s.tasks[i]) && InParser(s.tasks[j]))
    ensures s.c.parseInflight <==> exists i :: 0 <= i < |s.tasks| && InParser(s.tasks[i])
    ensures s.c.rxq != [] ==> s.c.parseInflight
  {
    ReachableHasInv(s, n);
    hide Reachable, Sum;
    UniqueTask(Parsing, s.tasks);
    assert forall t: Task :: InParser(t) <==> Weight(Parsing, t) > 0;
  }

  /** At most one send is outstanding, one Kick token queued; a waiting segment has one of them. */
  lemma {:induction false} KickSendProtocol(s: Sys, n: nat)
    requires Reachable(s, n) && !s.over
    ensures forall i, j :: 0 <= i < j < |s.tasks| ==> !(SendInProgress(s.tasks[i]) && SendInProgress(s.tasks[j]))
    ensures forall i, j :: 0 <= i < j < |s.tasks| ==> !(s.tasks[i].KickQueued? && s.tasks[j].KickQueued?)
    ensures s.c.sendInflight <==> exists i :: 0 <= i < |s.tasks| && SendInProgress(s.tasks[i])
    ensures s.c.kickPending <==> exists i :: 0 <= i < |s.tasks| && s.tasks[i].KickQueued?
    ensures s.c.txq != [] ==> s.c.kickPending || s.c.sendInflight || s.c.closing
  {
    ReachableHasInv(s, n);
    hide Reachable, Sum;
    UniqueTask(Sending, s.tasks);
    UniqueTask(KickTokens, s.tasks);
    assert forall t: Task :: SendInProgress(t) <==> Weight(Sending, t) > 0;
    assert forall t: Task :: t.KickQueued? <==> Weight(KickTokens, t) > 0;
  }

  lemma UniqueTask(k: Kind, ts: seq<Task>)
    ensures Sum(k, ts) <= 1 ==> forall i, j :: 0 <= i < j < |ts| ==> Weight(k, ts[i]) == 0 || Weight(k, ts[j]) == 0
    ensures Sum(k, ts) > 0 <==> exists i :: 0 <= i < |ts| && Weight(k, ts[i]) > 0
  {
    hide Weight;
    forall i, j | 0 <= i < j < |ts| ensures Weight(k, ts[i]) + Weight(k, ts[j]) <= Sum(k, ts) {
      SumTwo(k, ts, i, j);
    }
    forall i | 0 <= i < |ts| ensures Weight(k, ts[i]) <= Sum(k, ts) { SumAtLeast(k, ts, i); }
    if Sum(k, ts) > 0 { SomeWeight(k, ts); }
  }

  lemma {:induction false} SomeWeight(k: Kind, ts: seq<Task>)
    requires Sum(k, ts) > 0
    ensures exists i :: 0 <= i < |ts| && Weight(k, ts[i]) > 0
  {
    hide Weight;
    if Weight(k, ts[0]) == 0 {
      SomeWeight(k, ts[1..]);
      var i :| 0 <= i < |ts[1..]| && Weight(k, ts[1..][i]) > 0;
      assert ts[i + 1] == ts[1..][i];
    }
  }

  /** The buffers given to the kernel are the front of txq and end at most one response. */
  ghost predicate SendsFront(c: Conn) {
    var n := c.inflightCount;
    && 0 < n <= 8 && n <= |c.txq| && n <= |c.tx|
    && c.tx[..n] == Bytes(c.txq[..n])
    && Eors(c.txq[..n]) == B(c.inflightEor)
  }

  /** While a send is outstanding its buffers are the front of txq, whatever is enqueued meanwhile. */
  lemma {:induction false} InFlightPrefix(s: Sys, n: nat)
    requires Reachable(s, n) && !s.over
    ensures s.h.sent + s.c.txq == s.h.enqueued
    ensures s.c.sendInflight ==> SendsFront(s.c)
  {
    ReachableHasInv(s, n);
    hide Reachable, Sum, Eors;
    if s.c.sendInflight {
      EorsOfBatch(s.c.txq[..s.c.inflightCount]);
    }
  }

  // ------------------------------------------------------------ delivery

  /** No token, no handler, no send; at most a receive is outstanding. */
  predicate Quiescent(s: Sys) {
    forall i :: 0 <= i < |s.tasks| ==> s.tasks[i].RecvPosted?
  }

  lemma {:induction false} QuietSums(k: Kind, ts: seq<Task>)
    requires forall i :: 0 <= i < |ts| ==> ts[i].RecvPosted?
    requires k != Receiving && k != Holding
    ensures Sum(k, ts) == 0
  {
    if ts != [] {
      assert forall i :: 0 <= i < |ts[1..]| ==> ts[1..][i] == ts[i + 1];
      QuietSums(k, ts[1..]);
    }
  }

  /** Quiescence means delivery: the queues are empty and every emitted request has been answered. */
  lemma {:induction false} QuiescenceMeansDelivery(s: Sys, n: nat)
    requires Reachable(s, n) && !s.over && !s.c.closing && Quiescent(s)
    ensures s.c.rxq == [] && s.c.respq == [] && s.c.txq == []
    ensures s.h.sent == s.h.enqueued
    ensures Eors(s.h.sent) == |s.h.emitted| == s.c.served
    ensures s.h.dropped == [] <==> !s.h.overrun
    ensures !s.h.overrun ==> FeedAll(INITIAL, s.h.received) == Outcome(s.http, s.h.emitted)
  {
    ReachableHasInv(s, n);
    hide Reachable, Sum, Eors, FeedAll, BatchStable, InOrder;
    QuietSums(Parsing, s.tasks);
    QuietSums(RespTokens, s.tasks);
    QuietSums(KickTokens, s.tasks);
    QuietSums(Sending, s.tasks);
    QuietSums(Unanswered, s.tasks);
    QuietSums(Serving, s.tasks);
    assert s.h.sent + [] == s.h.sent;
    QuietOrder(s);
  }

  lemma QuietOrder(s: Sys)
    requires InOrder(s) && Quiescent(s) && s.c.rxq == []
    ensures s.h.dropped == [] <==> !s.h.overrun
    ensures !s.h.overrun ==> s.h.received == s.h.parsed
    ensures !s.h.overrun ==> FeedAll(INITIAL, s.h.received) == Outcome(s.http, s.h.emitted)
  {
    hide Sum, FeedAll, Local;
    QuietSums(Overrunning, s.tasks);
    QuietSums(Parsing, s.tasks);
    NoParserNoLocal(s.tasks);
    assert s.h.parsed + [] + [] == s.h.parsed;
  }

  /** From bytes to answers: the printed requests a client sends are the ones answered, however they were cut. */
  lemma {:induction false} PipelineIsAnswered(s: Sys, n: nat, ms: seq<Printed>)
    requires Reachable(s, n) && !s.over && !s.c.closing && Quiescent(s) && !s.h.overrun
    requires forall i :: 0 <= i < |ms| ==> Printable(ms[i]) && ms[i].order != []
    requires Flatten(s.h.received) == PrintAll(ms)
    ensures s.h.emitted == Requests(ms) && s.c.served == |ms| == Eors(s.h.sent)
    ensures s.http == INITIAL.(keepAlive := LastKeepAlive(ms, true))
  {
    hide Reachable, Eors, FeedAll, Printable;
    QuiescenceMeansDelivery(s, n);
    PipelineRoundTrip(ms, s.h.received);
  }

  // ------------------------------------------------------------ segments can be lost

  /** A receive is outstanding while the Process handler stands at `t`. */
  predicate Standing(s: Sys, t: Task) {
    && Fits(s) && !s.over && s.tasks == [RecvPosted, t]
    && s.c.rxHold && s.c.parseInflight && !s.c.closing
  }

  const ARRIVAL := Choice("a", true, false, 0)

  lemma Stepped(s: Sys, n: nat, i: nat)
    requires Reachable(s, n) && i < |s.tasks| && Fits(s) && !s.over
    ensures Reachable(Step(s, i, ARRIVAL), n + 1)
  {
    hide Reachable, Step;
    ReachableNext(s, n, Run(i, ARRIVAL));
  }

  /** Nothing but bytes `a`, so no line is complete. */
  ghost predicate AllA(p: Parser) { p.phase.StartLine? && forall c :: c in p.acc ==> c == 'a' }

  ghost predicate SegmentsA(q: seq<string>) { forall i :: 0 <= i < |q| ==> q[i] == "a" }

  /** `k` more segments arrive while the handler does not move. */
  lemma {:induction false} Gather(s: Sys, n: nat, t: Task, k: nat) returns (r: Sys, m: nat)
    requires Reachable(s, n) && Standing(s, t) && SegmentsA(s.c.rxq)
    ensures Reachable(r, m) && Standing(r, t) && |r.c.rxq| == |s.c.rxq| + k
    ensures SegmentsA(r.c.rxq) && r.http == s.http && |r.h.received| == |s.h.received| + k
    decreases k
  {
    hide Reachable;
    r, m := s, n;
    if k > 0 {
      var s1 := Step(s, 0, ARRIVAL);
      Stepped(s, n, 0);
      assert s1.tasks == [RecvArm, t];
      var s2 := Step(s1, 0, ARRIVAL);
      Stepped(s1, n + 1, 0);
      assert s2.tasks == [RecvIssue, t];
      var s3 := Step(s2, 0, ARRIVAL);
      Stepped(s2, n + 2, 0);
      assert s3.tasks == [RecvPosted, t];
      r, m := Gather(s3, n + 3, t, k - 1);
    }
  }

  /** One segment has been parsed and the handler is about to look again. */
  lemma SecondLook(limit: nat, tx: seq<string>) returns (r: Sys, m: nat)
    requires |tx| == MAX_WSABUF
    ensures Reachable(r, m) && Standing(r, ProcLoop(1)) && r.c.rxq == [] && AllA(r.http)
    ensures |r.h.received| == 1
  {
    hide Reachable;
    var s0 := Init(limit, tx);
    assert Reachable(s0, 0) by { ReachableStart(limit, tx); }
    var s1 := Step(s0, 0, ARRIVAL);
    Stepped(s0, 0, 0);
    assert s1.tasks == [RecvIssue];
    var s2 := Step(s1, 0, ARRIVAL);
    Stepped(s1, 1, 0);
    assert s2.tasks == [RecvPosted];
    var s3 := Step(s2, 0, ARRIVAL);
    Stepped(s2, 2, 0);
    assert s3.tasks == [RecvArm, ProcQueued];
    var s4 := Step(s3, 0, ARRIVAL);
    Stepped(s3, 3, 0);
    assert s4.tasks == [RecvIssue, ProcQueued];
    var s5 := Step(s4, 0, ARRIVAL);
    Stepped(s4, 4, 0);
    assert s5.tasks == [RecvPosted, ProcQueued] && s5.c.rxq == ["a"];
    r, m := FirstRun(s5, 5);
  }

  lemma FirstRun(s: Sys, n: nat) returns (r: Sys, m: nat)
    requires Reachable(s, n) && Standing(s, ProcQueued) && s.c.rxq == ["a"] && s.http == INITIAL
    ensures Reachable(r, m) && Standing(r, ProcLoop(1)) && r.c.rxq == [] && AllA(r.http)
    ensures r.h.received == s.h.received
  {
    hide Reachable, Feed;
    var s1 := Step(s, 1, ARRIVAL);
    Stepped(s, n, 1);
    assert s1.tasks == [RecvPosted, ProcLoop(0)];
    var s2 := Step(s1, 1, ARRIVAL);
    Stepped(s1, n + 1, 1);
    assert TakenSegments(s.c) == ["a"];
    assert s2.tasks == [RecvPosted, ProcRun(["a"], 0)] && s2.c.rxq == [];
    var s3 := Step(s2, 1, ARRIVAL);
    Stepped(s2, n + 2, 1);
    QuietByte(INITIAL);
    assert ["a"][1..] == [];
    assert s3.tasks == [RecvPosted, ProcEmit([], [], 0)];
    r := Step(s3, 1, ARRIVAL);
    Stepped(s3, n + 3, 1);
    m := n + 4;
    assert r.tasks == [RecvPosted, ProcLoop(1)];
  }

  lemma QuietByte(p: Parser)
    requires AllA(p)
    ensures Feed(p, "a").emitted == [] && AllA(Feed(p, "a").parser)
  {
    var acc := p.acc + "a";
    forall k | 0 <= k < |acc| ensures acc[k] == 'a' {
      if k < |p.acc| { assert acc[k] == p.acc[k] && p.acc[k] in p.acc; }
    }
    forall k ensures !At(acc, CRLF, k) { CrlfPoint(acc, k); }
    FindNothing(acc, CRLF, 0);
  }

  /** A run that holds more segments than it will parse stops at its budget and drops the rest. */
  lemma {:induction false} RunDropsTail(s: Sys, n: nat, segs: seq<string>, p: nat) returns (r: Sys, m: nat)
    requires Reachable(s, n) && Standing(s, ProcRun(segs, p)) && AllA(s.http) && SegmentsA(segs)
    requires p < PROC_MAX_SEGMENTS < p + |segs|
    ensures Reachable(r, m) && !r.over && !r.c.closing && r.h.dropped != [] && r.h.received == s.h.received
    decreases PROC_MAX_SEGMENTS - p
  {
    hide Reachable, Feed, AllA;
    QuietByte(s.http);
    var s1 := Step(s, 1, ARRIVAL);
    Stepped(s, n, 1);
    assert s1.tasks == [RecvPosted, ProcEmit([], segs[1..], p)];
    var s2 := Step(s1, 1, ARRIVAL);
    Stepped(s1, n + 1, 1);
    if p + 1 >= PROC_MAX_SEGMENTS {
      r, m := s2, n + 2;
      assert |segs[1..]| > 0 && |r.h.dropped| >= |segs[1..]|;
    } else {
      assert s2.tasks == [RecvPosted, ProcRun(segs[1..], p + 1)];
      r, m := RunDropsTail(s2, n + 2, segs[1..], p + 1);
    }
  }

  /**
    Completeness fails when receives interleave with a Process run: one segment is parsed, sixteen
    more arrive, and the second look takes more than the run will still parse. The rest is lost on a
    live connection, which is exactly what `QuiescenceMeansDelivery` excludes by `!overrun`. Seventeen
    segments are enough; with sixteen nothing can be lost.
  */
  lemma {:induction false} SegmentsCanBeLost(limit: nat, tx: seq<string>)
    requires |tx| == MAX_WSABUF
    ensures exists r, m :: Reachable(r, m) && !r.over && !r.c.closing && r.h.dropped != []
                           && |r.h.received| == 17
  {
    hide Reachable, AllA;
    var s, n := SecondLook(limit, tx);
    var g, k := Gather(s, n, ProcLoop(1), PROC_MAX_SEGMENTS);
    var o := Step(g, 1, ARRIVAL);
    Stepped(g, k, 1);
    assert o.tasks == [RecvPosted, ProcRun(TakenSegments(g.c), 1)];
    var r, m := RunDropsTail(o, k + 1, TakenSegments(g.c), 1);
  }
}
