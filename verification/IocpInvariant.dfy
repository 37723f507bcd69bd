/** What every step of the IOCP connection keeps, and what follows for every run. */
module IocpInvariant {
  import opened StreamParser
  import opened Segments
  import opened IocpConnection
  import opened IocpProtocol

  /** Each flag stands for exactly one token, handler or outstanding operation. */
  ghost predicate Tokens(c: Conn, ts: seq<Task>) {
    && Sum(Parsing, ts) == B(c.parseInflight)
    && Sum(RespTokens, ts) == B(c.respondInflight)
    && Sum(KickTokens, ts) == B(c.kickPending)
    && Sum(Sending, ts) == B(c.sendInflight)
    && Sum(Holding, ts) <= Sum(Receiving, ts) <= 1
    && Sum(Holding, ts) <= B(c.rxHold)
  }

  /** A queue with something in it has somebody to empty it. */
  ghost predicate Awake(c: Conn) {
    && (c.rxq != [] ==> c.parseInflight)
    && (c.respq != [] ==> c.respondInflight)
    && (c.txq != [] ==> c.kickPending || c.sendInflight || c.closing)
  }

  /** The batch in flight is the front of txq, and only its last segment may end a response. */
  ghost predicate BatchStable(c: Conn) {
    |c.tx| == MAX_WSABUF &&
    (c.sendInflight ==>
      && 0 < c.inflightCount <= MAX_WSABUF && c.inflightCount <= |c.txq|
      && (forall k :: 0 <= k < c.inflightCount ==> c.tx[k] == c.txq[k].bytes)
      && (forall k :: 0 <= k < c.inflightCount - 1 ==> !c.txq[k].eor)
      && c.inflightEor == c.txq[c.inflightCount - 1].eor)
  }

  /** Nothing queued for sending is lost or reordered, and every request is somewhere. */
  ghost predicate Conserved(c: Conn, ts: seq<Task>, h: History) {
    && h.sent + c.txq == h.enqueued
    && |h.emitted| == Sum(Unanswered, ts) + |c.respq| + Eors(h.enqueued)
    && c.served + Sum(Serving, ts) == Eors(h.sent)
  }

  /** Segments a handler has taken and not parsed yet. */
  function Segs(t: Task): seq<string> {
    if t.ProcRun? || t.ProcEmit? then t.segs else []
  }

  function Local(ts: seq<Task>): seq<string> {
    if ts == [] then [] else Segs(ts[0]) + Local(ts[1..])
  }

  /** The parser has seen the received segments in order, and segments are lost only by an overrun. */
  ghost predicate InOrder(s: Sys) {
    && FeedAll(INITIAL, s.h.parsed) == Outcome(s.http, s.h.emitted)
    && Sum(Late, s.tasks) == 0
    && (s.h.overrun <==> s.h.dropped != [] || Sum(Overrunning, s.tasks) > 0)
    && (s.h.dropped == [] ==> s.h.received == s.h.parsed + Local(s.tasks) + s.c.rxq)
  }

  /** The parts that do not speak about parsing. */
  ghost predicate Core(s: Sys) {
    Tokens(s.c, s.tasks) && Awake(s.c) && BatchStable(s.c) && Conserved(s.c, s.tasks, s.h)
  }

  ghost predicate Inv(s: Sys) { Core(s) && InOrder(s) }

  // ------------------------------------------------------------ each step keeps the core

  /** What a lock section does to the batch in flight, when it leaves the sender's fields alone or appends to txq. */
  lemma BatchStaysStable(c: Conn, buf: OwnedBuf, bytes: string)
    requires BatchStable(c)
    ensures BatchStable(TxEnqueue(c, buf)) && BatchStable(PublishRecv(c, bytes))
  {
  }

  lemma RecvStep(s: Sys, i: nat, ch: Choice)
    requires Core(s) && i < |s.tasks| && s.tasks[i] == RecvPosted && !StepRecv(s, i, ch).over
    ensures s.c.rxHold && Core(StepRecv(s, i, ch))
  {
    hide Sum, Replace, Eors, BatchStable;
    BatchStaysStable(s.c, OwnedBuf("", false), ch.bytes);
    Became(s.tasks, i, RecvArm, !s.c.parseInflight, ProcQueued);
  }

  lemma ArmStep(s: Sys, i: nat)
    requires Core(s) && i < |s.tasks| && s.tasks[i] == RecvArm
    ensures Core(StepArm(s, i))
  {
    hide Sum, Replace, Eors;
    Became(s.tasks, i, RecvIssue, false, RecvIssue);
    HoldingReceives(Replace(s.tasks, i, []));
  }

  lemma IssueStep(s: Sys, i: nat, ch: Choice)
    requires Core(s) && i < |s.tasks| && s.tasks[i] == RecvIssue
    ensures Core(StepIssue(s, i, ch))
  {
    hide Sum, Replace, Eors;
    Became(s.tasks, i, RecvPosted, false, RecvPosted);
  }

  /** A buffer is held only for a receive in progress. */
  lemma {:induction false} HoldingReceives(ts: seq<Task>)
    ensures Sum(Holding, ts) <= Sum(Receiving, ts)
  {
    if ts != [] {
      HoldingReceives(ts[1..]);
    }
  }

  lemma TakeStep(s: Sys, i: nat, p: nat)
    requires Core(s) && i < |s.tasks| && s.tasks[i] == ProcLoop(p)
    ensures Core(StepTake(s, i, p))
  {
    hide Sum, Replace, Eors, Weight;
    var t := if TakenSegments(s.c) == [] then ProcFinish else ProcRun(TakenSegments(s.c), p);
    SameStage(s.tasks[i], t);
    Became(s.tasks, i, t, false, t);
  }

  lemma SameStage(t: Task, u: Task)
    requires t.ProcLoop? && (u.ProcFinish? || u.ProcRun?)
    ensures Weight(Parsing, u) == 1
    ensures forall k: Kind :: k.Overrunning? || k.Late? || k.Finishing? || k.Work? || Weight(k, t) == Weight(k, u)
  {
  }

  lemma ParseStep(s: Sys, i: nat, segs: seq<string>, p: nat)
    requires Core(s) && i < |s.tasks| && s.tasks[i] == ProcRun(segs, p)
    ensures Core(StepParse(s, i, segs, p))
  {
    hide Sum, Replace, Eors, Feed;
    if segs == [] {
      Became(s.tasks, i, ProcFinish, false, ProcFinish);
    } else {
      Became(s.tasks, i, ProcEmit(Feed(s.http, segs[0]).emitted, segs[1..], p), false, ProcFinish);
    }
  }

  lemma EmitStep(s: Sys, i: nat, out: seq<Request>, segs: seq<string>, p: nat, ch: Choice)
    requires Core(s) && i < |s.tasks| && s.tasks[i] == ProcEmit(out, segs, p)
    ensures Core(StepEmit(s, i, out, segs, p, ch))
  {
    hide Sum, Replace, Eors;
    if out != [] {
      Became(s.tasks, i, ProcEmit(out[1..], segs, p), !s.c.respondInflight, RespQueued);
    } else {
      var t := if p + 1 >= PROC_MAX_SEGMENTS then ProcFinish
               else if segs != [] then ProcRun(segs, p + 1)
               else if ch.timeUp then ProcFinish else ProcLoop(p + 1);
      SameWeight(s, i, t, StepEmit(s, i, out, segs, p, ch));
    }
  }

  /** One stage of a handler turns into another that weighs the same; no queue changes. */
  lemma SameWeight(s: Sys, i: nat, t: Task, s': Sys)
    requires Core(s) && i < |s.tasks|
    requires forall k: Kind :: k.Overrunning? || k.Late? || k.Finishing? || k.Work? || Weight(k, s.tasks[i]) == Weight(k, t)
    requires s'.c == s.c && s'.tasks == Replace(s.tasks, i, [t])
    requires s'.h.emitted == s.h.emitted && s'.h.enqueued == s.h.enqueued && s'.h.sent == s.h.sent
    ensures Core(s')
  {
    hide Sum, Replace, Eors, Weight;
    Became(s.tasks, i, t, false, t);
  }

  lemma FinishStep(s: Sys, i: nat)
    requires Core(s) && i < |s.tasks| && s.tasks[i] == ProcFinish
    ensures Core(StepFinish(s, i))
  {
    hide Sum, Replace, Eors;
    Became(s.tasks, i, ProcRepost, false, ProcRepost);
  }

  lemma ProcessTokenStep(s: Sys, i: nat, t: Task)
    requires Core(s) && i < |s.tasks|
    requires (s.tasks[i] == ProcQueued && t == ProcLoop(0)) || (s.tasks[i] == ProcRepost && t == ProcQueued)
    ensures Core(Become(s, i, s.c, [t]))
  {
    hide Core, Replace;
    SameWeight(s, i, t, Become(s, i, s.c, [t]));
  }

  lemma DrainStep(s: Sys, i: nat)
    requires Core(s) && i < |s.tasks| && s.tasks[i] == RespQueued
    ensures Core(StepDrain(s, i))
  {
    hide Sum, Replace, Eors;
    Became(s.tasks, i, RespSend(|s.c.respq|, false), false, RespRecheck);
  }

  /** A Respond handler that enqueues nothing. */
  lemma RespondMoves(s: Sys, i: nat, next: Task)
    requires Core(s) && i < |s.tasks|
    requires && (s.tasks[i].RespSend? || s.tasks[i].RespHead?)
             && ((next == RespRecheck && s.tasks[i].left == 0) || (next.RespHead? && next.left == s.tasks[i].left))
    ensures Core(Become(s, i, s.c, [next]))
  {
    hide Sum, Replace, Eors, BatchStable;
    Became(s.tasks, i, next, false, RespRecheck);
  }

  /** A Respond handler enqueues a segment; the mark goes with the last one of a response. */
  ghost predicate Publishes(s: Sys, i: nat, next: Task, buf: OwnedBuf) {
    && Core(s) && i < |s.tasks| && (s.tasks[i].RespSend? || s.tasks[i].RespHead?)
    && next.RespSend? && next.left + B(buf.eor) == s.tasks[i].left
  }

  lemma PublishConserves(s: Sys, i: nat, next: Task, buf: OwnedBuf)
    requires Publishes(s, i, next, buf)
    ensures var v := Publish(s, i, next, buf); Conserved(v.c, v.tasks, v.h)
  {
    hide Sum, Replace, Eors, BatchStable, Awake, Tokens;
    Became(s.tasks, i, next, !s.c.kickPending, KickQueued);
    EorsAppend(s.h.enqueued, [buf]);
    EorsOne(buf);
    EnqueueLast(s.h.sent, s.c.txq, buf);
  }

  lemma PublishTokens(s: Sys, i: nat, next: Task, buf: OwnedBuf)
    requires Publishes(s, i, next, buf)
    ensures var v := Publish(s, i, next, buf); Tokens(v.c, v.tasks)
  {
    hide Sum, Replace, BatchStable, Awake, Conserved;
    Became(s.tasks, i, next, !s.c.kickPending, KickQueued);
  }

  lemma PublishStep(s: Sys, i: nat, next: Task, buf: OwnedBuf)
    requires Publishes(s, i, next, buf)
    ensures Core(Publish(s, i, next, buf))
  {
    PublishConserves(s, i, next, buf);
    PublishTokens(s, i, next, buf);
    hide BatchStable, Conserved, Tokens;
    BatchStaysStable(s.c, buf, "");
  }

  lemma RespondStep(s: Sys, i: nat, ch: Choice)
    requires Core(s) && i < |s.tasks| && (s.tasks[i].RespSend? || s.tasks[i].RespHead?) && Fits(s)
    ensures Core(Step(s, i, ch))
  {
    hide Core, Become, Publish, ReadKeepAlive;
    match s.tasks[i]
    case RespSend(left, half) =>
      if left == 0 {
        RespondMoves(s, i, RespRecheck);
      } else if half {
        PublishStep(s, i, RespSend(left - 1, false), OwnedBuf(BODY_TEXT, true));
      } else {
        RespondMoves(s, i, RespHead(left, ReadKeepAlive(s, ch.seen) && BelowLimit(s.c.served, s.limit)));
      }
    case RespHead(left, keep) => PublishStep(s, i, RespSend(left, true), OwnedBuf(if keep then HEAD_KEEP else HEAD_CLOSE, false));
  }

  lemma EnqueueLast(a: seq<OwnedBuf>, b: seq<OwnedBuf>, buf: OwnedBuf)
    ensures a + (b + [buf]) == (a + b) + [buf]
  {
  }

  /** The second look at respq never finds work without a token. */
  lemma RecheckStep(s: Sys, i: nat)
    requires Core(s) && i < |s.tasks| && s.tasks[i] == RespRecheck
    ensures Core(StepRecheck(s, i)) && StepRecheck(s, i) == Become(s, i, s.c, [])
  {
    hide Sum, Replace, Eors;
    Became(s.tasks, i, RespRecheck, false, RespRecheck);
  }

  lemma KickStep(s: Sys, i: nat)
    requires Core(s) && i < |s.tasks| && s.tasks[i] == KickQueued && Fits(s)
    ensures Core(StepKick(s, i))
  {
    hide Sum, Replace, Eors, BatchCount, BatchStable;
    assert |s.c.tx| == MAX_WSABUF && BatchStable(StartSend(s.c)) by { KickIsStable(s.c); }
    Became(s.tasks, i, KickSend, false, KickSend);
  }

  lemma KickIsStable(c: Conn)
    requires BatchStable(c)
    ensures |c.tx| == MAX_WSABUF && BatchStable(StartSend(c))
  {
    hide BatchCount;
    if CanSend(c) {
      BatchShape(c.txq, MAX_WSABUF);
    }
  }

  lemma IssueSendStep(s: Sys, i: nat, ch: Choice)
    requires Core(s) && i < |s.tasks| && s.tasks[i] == KickSend
    ensures Core(StepIssueSend(s, i, ch))
  {
    hide Sum, Replace, Eors;
    Became(s.tasks, i, SendPosted, false, SendPosted);
  }

  lemma SentStep(s: Sys, i: nat, ch: Choice)
    requires Core(s) && i < |s.tasks| && s.tasks[i] == SendPosted && !StepSent(s, i, ch).over
    ensures Core(StepSent(s, i, ch))
  {
    hide Sum, Replace, Eors;
    var c := s.c;
    Became(s.tasks, i, SendDone(c.inflightEor), !c.kickPending && CompleteSend(c).txq != [], KickQueued);
    assert 0 < c.inflightCount <= |c.txq|;
    var batch := c.txq[..c.inflightCount];
    EorsOfBatch(batch);
    EorsAppend(s.h.sent, batch);
    Resplit(s.h.sent, c.txq, c.inflightCount);
  }

  lemma Resplit(a: seq<OwnedBuf>, b: seq<OwnedBuf>, n: nat)
    requires n <= |b|
    ensures (a + b[..n]) + b[n..] == a + b
  {
  }

  lemma ServedLeavesQueues(s: Sys, i: nat, f: bool)
    requires Core(s) && i < |s.tasks| && s.tasks[i] == SendDone(f)
    ensures Awake(StepServed(s, i, f).c) && BatchStable(StepServed(s, i, f).c)
  {
    hide Sum, Replace, Eors;
  }

  lemma ServedStep(s: Sys, i: nat, f: bool)
    requires Core(s) && i < |s.tasks| && s.tasks[i] == SendDone(f)
    ensures Core(StepServed(s, i, f))
  {
    hide Sum, Replace, Eors, Awake, BatchStable;
    assert Awake(StepServed(s, i, f).c) && BatchStable(StepServed(s, i, f).c) by {
      ServedLeavesQueues(s, i, f);
    }
    Became(s.tasks, i, SendDone(f), false, SendDone(f));
  }

  lemma {:induction false} StepKeepsCore(s: Sys, i: nat, ch: Choice)
    requires Core(s) && i < |s.tasks| && Fits(s) && !Step(s, i, ch).over
    ensures Core(Step(s, i, ch))
  {
    hide Core, Become, StepRecv, StepArm, StepIssue, StepTake, StepParse, StepEmit, StepFinish, StepDrain,
         StepRespond, StepHead, StepRecheck, StepKick, StepIssueSend, StepSent, StepServed;
    match s.tasks[i]
    case RecvPosted => RecvStep(s, i, ch);
    case RecvArm => ArmStep(s, i);
    case RecvIssue => IssueStep(s, i, ch);
    case ProcQueued => ProcessTokenStep(s, i, ProcLoop(0));
    case ProcLoop(p) => TakeStep(s, i, p);
    case ProcRun(segs, p) => ParseStep(s, i, segs, p);
    case ProcEmit(out, segs, p) => EmitStep(s, i, out, segs, p, ch);
    case ProcFinish => FinishStep(s, i);
    case ProcRepost => ProcessTokenStep(s, i, ProcQueued);
    case RespQueued => DrainStep(s, i);
    case RespSend(_, _) => RespondStep(s, i, ch);
    case RespHead(_, _) => RespondStep(s, i, ch);
    case RespRecheck => RecheckStep(s, i);
    case KickQueued => KickStep(s, i);
    case KickSend => IssueSendStep(s, i, ch);
    case SendPosted => SentStep(s, i, ch);
    case SendDone(f) => ServedStep(s, i, f);
  }

  // ------------------------------------------------------------ each step keeps the order

  lemma {:induction false} LocalAppend(a: seq<Task>, b: seq<Task>)
    ensures Local(a + b) == Local(a) + Local(b)
  {
    hide Segs;
    if a == [] {
      assert a + b == b;
    } else {
      assert (a + b)[1..] == a[1..] + b;
      LocalAppend(a[1..], b);
    }
  }

  lemma {:induction false} NoParserNoLocal(ts: seq<Task>)
    requires Sum(Parsing, ts) == 0
    ensures Local(ts) == []
  {
    if ts != [] {
      NoParserNoLocal(ts[1..]);
    }
  }

  lemma LocalReplace(ts: seq<Task>, i: nat, next: seq<Task>)
    requires i < |ts| && Sum(Parsing, ts) <= 1
    ensures Weight(Parsing, ts[i]) == 1 ==> Local(ts) == Segs(ts[i]) && Local(Replace(ts, i, next)) == Local(next)
    ensures Weight(Parsing, ts[i]) == 0 && Local(next) == [] ==> Local(Replace(ts, i, next)) == Local(ts)
  {
    hide Local, Sum, Segs, Weight;
    var a, t, b := ts[..i], ts[i], ts[i + 1..];
    assert ts == a + [t] + b;
    LocalAround(a, [t], b);
    LocalAround(a, next, b);
    LocalOne(t);
    SumAppend(Parsing, a + [t], b);
    SumAppend(Parsing, a, [t]);
    SumOne(Parsing, t);
    if Weight(Parsing, t) == 1 {
      NoParserNoLocal(a);
      NoParserNoLocal(b);
    } else if Weight(Parsing, t) == 0 {
      NoParserNoLocal([t]);
    }
  }

  lemma LocalAround(a: seq<Task>, b: seq<Task>, c: seq<Task>)
    ensures Local(a + b + c) == Local(a) + Local(b) + Local(c)
  {
    LocalAppend(a + b, c);
    LocalAppend(a, b);
  }

  lemma LocalOne(t: Task)
    ensures Local([t]) == Segs(t)
  {
    hide Segs;
    assert [t][1..] == [];
  }

  lemma LocalWhen(t: Task, b: bool, u: Task)
    requires Segs(t) == [] && Segs(u) == []
    ensures Local([t] + When(b, u)) == [] && Local(When(b, u)) == []
  {
    LocalOne(t);
    LocalOne(u);
    LocalAppend([t], When(b, u));
  }

  /** A task outside the parser moves on; `next` holds no segments and no parser stage past a token. */
  lemma OtherTaskKeepsOrder(s: Sys, i: nat, s': Sys, t: Task, b: bool, u: Task, x: seq<string>)
    requires Core(s) && InOrder(s) && i < |s.tasks| && Weight(Parsing, s.tasks[i]) == 0
    requires Light(t) && Light(u)
    requires || s'.tasks == Replace(s.tasks, i, []) || s'.tasks == Replace(s.tasks, i, [t])
             || s'.tasks == Replace(s.tasks, i, When(b, u)) || s'.tasks == Replace(s.tasks, i, [t] + When(b, u))
    requires s'.http == s.http && s'.h.parsed == s.h.parsed && s'.h.emitted == s.h.emitted
    requires s'.h.overrun == s.h.overrun && s'.h.dropped == s.h.dropped
    requires s'.h.received == s.h.received + x && s'.c.rxq == s.c.rxq + x
    ensures InOrder(s')
  {
    hide Sum, Replace, Local, FeedAll;
    Became(s.tasks, i, t, b, u);
    Became(s.tasks, i, u, b, u);
    assert Weight(Late, s.tasks[i]) == 0 && Weight(Overrunning, s.tasks[i]) == 0;
    LocalReplace(s.tasks, i, []);
    LocalReplace(s.tasks, i, [t]);
    LocalReplace(s.tasks, i, When(b, u));
    LocalReplace(s.tasks, i, [t] + When(b, u));
    LocalOne(t);
    LocalWhen(t, b, u);
    EmptyLocal();
    assert Local(s'.tasks) == Local(s.tasks);
    AppendBehind(s.h.parsed + Local(s.tasks), s.c.rxq, x);
  }

  lemma AppendBehind(a: seq<string>, q: seq<string>, x: seq<string>)
    ensures (a + q) + x == a + (q + x)
  {
  }

  /** The same without a received segment. */
  lemma OtherTask(s: Sys, i: nat, s': Sys, t: Task, b: bool, u: Task)
    requires Core(s) && InOrder(s) && i < |s.tasks| && Weight(Parsing, s.tasks[i]) == 0
    requires Light(t) && Light(u)
    requires || s'.tasks == Replace(s.tasks, i, []) || s'.tasks == Replace(s.tasks, i, [t])
             || s'.tasks == Replace(s.tasks, i, When(b, u)) || s'.tasks == Replace(s.tasks, i, [t] + When(b, u))
    requires s'.http == s.http && s'.h.parsed == s.h.parsed && s'.h.emitted == s.h.emitted
    requires s'.h.overrun == s.h.overrun && s'.h.dropped == s.h.dropped
    requires s'.h.received == s.h.received && s'.c.rxq == s.c.rxq
    ensures InOrder(s')
  {
    hide Core, InOrder, Replace;
    assert s.h.received == s.h.received + [] && s.c.rxq == s.c.rxq + [];
    OtherTaskKeepsOrder(s, i, s', t, b, u, []);
  }

  // The stages of the Process handler: it is the only one, so `Local` is what it holds.

  lemma ParserMoves(s: Sys, i: nat, t: Task)
    requires Core(s) && i < |s.tasks| && Weight(Parsing, s.tasks[i]) == 1
    ensures Local(s.tasks) == Segs(s.tasks[i]) && Local(Replace(s.tasks, i, [t])) == Segs(t)
    ensures Sum(Late, s.tasks) == 0 ==> Weight(Late, s.tasks[i]) == 0 && Sum(Late, Replace(s.tasks, i, [t])) == Weight(Late, t)
    ensures Sum(Overrunning, s.tasks) == Weight(Overrunning, s.tasks[i])
    ensures Sum(Overrunning, Replace(s.tasks, i, [t])) == Weight(Overrunning, t)
  {
    hide Sum, Replace, Local;
    LocalReplace(s.tasks, i, [t]);
    LocalOne(t);
    Became(s.tasks, i, t, false, t);
    OverrunningParses(Replace(s.tasks, i, []));
  }

  lemma {:induction false} OverrunningParses(ts: seq<Task>)
    ensures Sum(Overrunning, ts) <= Sum(Parsing, ts)
  {
    if ts != [] {
      OverrunningParses(ts[1..]);
    }
  }

  lemma TakeKeepsOrder(s: Sys, i: nat, p: nat)
    requires Core(s) && InOrder(s) && i < |s.tasks| && s.tasks[i] == ProcLoop(p)
    ensures InOrder(StepTake(s, i, p))
  {
    hide Sum, Replace, Local, FeedAll;
    var segs := TakenSegments(s.c);
    ParserMoves(s, i, ProcFinish);
    ParserMoves(s, i, ProcRun(segs, p));
    assert segs + TakeSegments(s.c).rxq == s.c.rxq;
    TakeApart(s.h.parsed, segs, TakeSegments(s.c).rxq);
  }

  lemma TakeApart(a: seq<string>, segs: seq<string>, rest: seq<string>)
    ensures a + [] + (segs + rest) == a + segs + rest
  {
  }

  lemma {:induction false} FeedOneMore(ss: seq<string>, seg: string, p: Parser)
    ensures var o := FeedAll(p, ss); var o' := Feed(o.parser, seg);
            FeedAll(p, ss + [seg]) == Outcome(o'.parser, o.emitted + o'.emitted)
    decreases |ss|
  {
    hide Feed;
    if ss == [] {
      assert ss + [seg] == [seg];
      assert [seg][1..] == [];
      assert FeedAll(p, [seg]) == Prepend(Feed(p, seg).emitted, FeedAll(Feed(p, seg).parser, []));
      assert Feed(p, seg).emitted + [] == [] + Feed(p, seg).emitted;
    } else {
      var o := Feed(p, ss[0]);
      assert (ss + [seg])[1..] == ss[1..] + [seg];
      FeedOneMore(ss[1..], seg, o.parser);
      var r := FeedAll(o.parser, ss[1..]);
      PrependTwice(o.emitted, r.emitted, Feed(r.parser, seg));
    }
  }

  lemma ParseKeepsOrder(s: Sys, i: nat, segs: seq<string>, p: nat)
    requires Core(s) && InOrder(s) && i < |s.tasks| && s.tasks[i] == ProcRun(segs, p)
    ensures InOrder(StepParse(s, i, segs, p))
  {
    hide Sum, Replace, Local, FeedAll, Feed;
    if segs == [] {
      ParserMoves(s, i, ProcFinish);
    } else {
      ParserMoves(s, i, ProcEmit(Feed(s.http, segs[0]).emitted, segs[1..], p));
      FeedOneMore(s.h.parsed, segs[0], INITIAL);
      Shift(s.h.parsed, segs, s.c.rxq);
    }
  }

  lemma Shift(a: seq<string>, segs: seq<string>, q: seq<string>)
    requires segs != []
    ensures a + segs + q == (a + [segs[0]]) + segs[1..] + q
  {
  }

  lemma EmitKeepsOrder(s: Sys, i: nat, out: seq<Request>, segs: seq<string>, p: nat, ch: Choice)
    requires Core(s) && InOrder(s) && i < |s.tasks| && s.tasks[i] == ProcEmit(out, segs, p)
    ensures InOrder(StepEmit(s, i, out, segs, p, ch))
  {
    hide Sum, Replace, Local, FeedAll;
    if out != [] {
      HandingOut(s, i, out, segs, p, !s.c.respondInflight);
    } else {
      var t := if p + 1 >= PROC_MAX_SEGMENTS then ProcFinish
               else if segs != [] then ProcRun(segs, p + 1)
               else if ch.timeUp then ProcFinish else ProcLoop(p + 1);
      ParserMoves(s, i, t);
      NothingDropped(s.h.dropped, segs);
    }
  }

  lemma NothingDropped(d: seq<string>, segs: seq<string>)
    ensures d + segs == [] <==> d == [] && segs == []
  {
  }

  lemma HandingOut(s: Sys, i: nat, out: seq<Request>, segs: seq<string>, p: nat, b: bool)
    requires Core(s) && i < |s.tasks| && s.tasks[i] == ProcEmit(out, segs, p) && out != []
    ensures var ts := Replace(s.tasks, i, [ProcEmit(out[1..], segs, p)] + When(b, RespQueued));
            Local(ts) == Local(s.tasks) && Sum(Late, ts) == Sum(Late, s.tasks)
            && Sum(Overrunning, ts) == Sum(Overrunning, s.tasks)
  {
    hide Sum, Replace, Local;
    var t := ProcEmit(out[1..], segs, p);
    Became(s.tasks, i, t, b, RespQueued);
    LocalReplace(s.tasks, i, [t] + When(b, RespQueued));
    LocalOne(t);
    LocalOne(RespQueued);
    LocalAppend([t], When(b, RespQueued));
    EmptyLocal();
  }

  lemma FinishKeepsOrder(s: Sys, i: nat)
    requires Core(s) && InOrder(s) && i < |s.tasks| && s.tasks[i] == ProcFinish
    ensures InOrder(StepFinish(s, i))
  {
    hide Sum, Replace, Local, FeedAll;
    ParserMoves(s, i, ProcRepost);
    Became(s.tasks, i, ProcRepost, false, ProcRepost);
    LocalReplace(s.tasks, i, []);
    EmptyLocal();
  }

  lemma TokenKeepsOrder(s: Sys, i: nat, t: Task)
    requires Core(s) && InOrder(s) && i < |s.tasks|
    requires (s.tasks[i] == ProcQueued && t == ProcLoop(0)) || (s.tasks[i] == ProcRepost && t == ProcQueued)
    ensures InOrder(Become(s, i, s.c, [t]))
  {
    hide Sum, Replace, Local, FeedAll;
    ParserMoves(s, i, t);
  }

  lemma SendStepKeepsOrder(s: Sys, i: nat, ch: Choice)
    requires Core(s) && InOrder(s) && i < |s.tasks| && Fits(s) && !Step(s, i, ch).over
    requires var t := s.tasks[i]; t.KickQueued? || t.KickSend? || t.SendPosted? || t.SendDone?
    ensures InOrder(Step(s, i, ch))
  {
    hide Core, InOrder, Replace, When;
    var c, s' := s.c, Step(s, i, ch);
    match s.tasks[i]
    case KickQueued => OtherTask(s, i, s', KickSend, CanSend(c), KickSend);
    case KickSend => OtherTask(s, i, s', SendPosted, false, SendPosted);
    case SendPosted =>
      OtherTask(s, i, s', SendDone(c.inflightEor), !c.kickPending && CompleteSend(c).txq != [], KickQueued);
    case SendDone(f) => OtherTask(s, i, s', RespRecheck, false, RespRecheck);
  }

  lemma OtherStepKeepsOrder(s: Sys, i: nat, ch: Choice)
    requires Core(s) && InOrder(s) && i < |s.tasks| && Fits(s) && !Step(s, i, ch).over
    requires !s.tasks[i].RecvPosted? && Weight(Parsing, s.tasks[i]) == 0
    ensures InOrder(Step(s, i, ch))
  {
    hide Core, InOrder, Replace, When, ReadKeepAlive, StepKick, StepIssueSend, StepSent, StepServed;
    var c, s' := s.c, Step(s, i, ch);
    match s.tasks[i]
    case RecvArm => OtherTask(s, i, s', RecvIssue, false, RecvIssue);
    case RecvIssue => OtherTask(s, i, s', RecvPosted, false, RecvPosted);
    case RespQueued => OtherTask(s, i, s', RespSend(|c.respq|, false), false, RespRecheck);
    case RespSend(left, half) =>
      var next := if left == 0 then RespRecheck else if half then RespSend(left - 1, false)
                  else RespHead(left, ReadKeepAlive(s, ch.seen) && BelowLimit(c.served, s.limit));
      OtherTask(s, i, s', next, !c.kickPending, KickQueued);
    case RespHead(left, _) => OtherTask(s, i, s', RespSend(left, true), !c.kickPending, KickQueued);
    case RespRecheck => OtherTask(s, i, s', RespRecheck, c.respq != [] && !c.respondInflight, RespQueued);
    case _ => SendStepKeepsOrder(s, i, ch);
  }

  lemma {:induction false} StepKeepsOrder(s: Sys, i: nat, ch: Choice)
    requires Core(s) && InOrder(s) && i < |s.tasks| && Fits(s) && !Step(s, i, ch).over
    ensures InOrder(Step(s, i, ch))
  {
    hide Core, InOrder, Replace, When, StepArm, StepIssue, StepTake, StepParse, StepEmit, StepFinish, StepDrain,
         StepRespond, StepHead, StepRecheck, StepKick, StepIssueSend, StepSent, StepServed;
    match s.tasks[i]
    case RecvPosted =>
      RecvStep(s, i, ch);
      OtherTaskKeepsOrder(s, i, Step(s, i, ch), RecvArm, !s.c.parseInflight, ProcQueued, [ch.bytes]);
    case ProcQueued => TokenKeepsOrder(s, i, ProcLoop(0));
    case ProcLoop(p) => TakeKeepsOrder(s, i, p);
    case ProcRun(segs, p) => ParseKeepsOrder(s, i, segs, p);
    case ProcEmit(out, segs, p) => EmitKeepsOrder(s, i, out, segs, p, ch);
    case ProcFinish => FinishKeepsOrder(s, i);
    case ProcRepost => TokenKeepsOrder(s, i, ProcQueued);
    case _ => OtherStepKeepsOrder(s, i, ch);
  }

  /** Neither holds segments nor is past its budget. */
  predicate Light(t: Task) {
    Segs(t) == [] && Weight(Late, t) == 0 && Weight(Overrunning, t) == 0
  }

  lemma EmptyLocal()
    ensures Local([]) == []
  {
  }
}
