/** When an IOCP connection closes, that it goes on receiving until then, and that a healthy one is not closed. */
module IocpClosing {
  import opened Text
  import opened StreamParser
  import opened StreamTheorems
  import opened Segments
  import opened IocpConnection
  import opened IocpProtocol
  import opened IocpInvariant
  import opened IocpTheorems
  import opened IocpBudget
  import opened IocpAnswers
  import opened IocpLiveness

  // ------------------------------------------------------------ one step

  /** The connection is recycled by a step if and only if a receive or a send fails, the client is done, or the limit is reached. */
  lemma {:induction false} RecycledIff(s: Sys, i: nat, ch: Choice)
    requires !s.over && i < |s.tasks| && Fits(s)
    ensures Step(s, i, ch).over <==>
              || (s.tasks[i] == RecvPosted && (!ch.ok || |ch.bytes| == 0))
              || (s.tasks[i] == SendPosted && !ch.ok)
              || (s.tasks[i] == SendDone(true) && (s.c.closing || s.c.served + 1 >= s.limit))
  {
    hide Replace, StartSend, CompleteSend, Feed;
  }

  /** What a step makes of the limit, `served` and `closing`. */
  ghost predicate Counted(s: Sys, v: Sys, served: nat, closing: bool) {
    v.limit == s.limit && v.c.served == s.c.served + served && v.c.closing == closing
  }

  lemma {:induction false} RecvCounts(s: Sys, i: nat, ch: Choice)
    requires i < |s.tasks|
    ensures Counted(s, StepRecv(s, i, ch), 0, s.c.closing)
  {
    hide Replace;
  }

  lemma {:induction false} ArmCounts(s: Sys, i: nat)
    requires i < |s.tasks|
    ensures Counted(s, StepArm(s, i), 0, s.c.closing)
  {
    hide Replace;
  }

  lemma {:induction false} IssueCounts(s: Sys, i: nat, ch: Choice)
    requires i < |s.tasks|
    ensures Counted(s, StepIssue(s, i, ch), 0, s.c.closing || !ch.ok)
  {
    hide Replace;
  }

  lemma {:induction false} BecomeCounts(s: Sys, i: nat, next: seq<Task>)
    requires i < |s.tasks|
    ensures Counted(s, Become(s, i, s.c, next), 0, s.c.closing)
  {
    hide Replace;
  }

  lemma {:induction false} TakeCounts(s: Sys, i: nat, p: nat)
    requires i < |s.tasks|
    ensures Counted(s, StepTake(s, i, p), 0, s.c.closing)
  {
    hide Replace;
  }

  lemma {:induction false} ParseCounts(s: Sys, i: nat, segs: seq<string>, p: nat)
    requires i < |s.tasks|
    ensures Counted(s, StepParse(s, i, segs, p), 0, s.c.closing)
  {
    hide Replace, Feed;
  }

  lemma {:induction false} EmitCounts(s: Sys, i: nat, out: seq<Request>, segs: seq<string>, p: nat, ch: Choice)
    requires i < |s.tasks|
    ensures Counted(s, StepEmit(s, i, out, segs, p, ch), 0, s.c.closing)
  {
    hide Replace;
  }

  lemma {:induction false} FinishCounts(s: Sys, i: nat)
    requires i < |s.tasks|
    ensures Counted(s, StepFinish(s, i), 0, s.c.closing)
  {
    hide Replace;
  }

  lemma {:induction false} DrainCounts(s: Sys, i: nat)
    requires i < |s.tasks|
    ensures Counted(s, StepDrain(s, i), 0, s.c.closing)
  {
    hide Replace;
  }

  lemma {:induction false} RespondCounts(s: Sys, i: nat, left: nat, half: bool, ch: Choice)
    requires i < |s.tasks|
    ensures Counted(s, StepRespond(s, i, left, half, ch), 0, s.c.closing)
  {
    hide Replace, ReadKeepAlive;
  }

  lemma HeadCounts(s: Sys, i: nat, left: nat, keep: bool)
    requires i < |s.tasks|
    ensures Counted(s, StepHead(s, i, left, keep), 0, s.c.closing)
  {
    hide Replace;
  }

  lemma {:induction false} RecheckCounts(s: Sys, i: nat)
    requires i < |s.tasks|
    ensures Counted(s, StepRecheck(s, i), 0, s.c.closing)
  {
    hide Replace;
  }

  lemma {:induction false} KickCounts(s: Sys, i: nat)
    requires i < |s.tasks| && Fits(s)
    ensures Counted(s, StepKick(s, i), 0, s.c.closing)
  {
    hide Replace, BatchCount;
  }

  lemma {:induction false} IssueSendCounts(s: Sys, i: nat, ch: Choice)
    requires i < |s.tasks|
    ensures Counted(s, StepIssueSend(s, i, ch), 0, s.c.closing || !ch.ok)
  {
    hide Replace;
  }

  lemma {:induction false} SentCounts(s: Sys, i: nat, ch: Choice)
    requires i < |s.tasks|
    ensures Counted(s, StepSent(s, i, ch), 0, s.c.closing)
  {
    hide Replace;
  }

  lemma {:induction false} ServedCounts(s: Sys, i: nat, f: bool)
    requires i < |s.tasks|
    ensures Counted(s, StepServed(s, i, f), B(f), s.c.closing)
  {
    hide Replace;
  }

  /**
    The connection is marked as closing by a step if and only if a receive or a send cannot be started,
    and counts a response as served if and only if a send that ended one has completed.
  */
  lemma {:induction false} ClosingIff(s: Sys, i: nat, ch: Choice)
    requires i < |s.tasks| && Fits(s)
    ensures Step(s, i, ch).limit == s.limit
    ensures Step(s, i, ch).c.served == s.c.served + if s.tasks[i] == SendDone(true) then 1 else 0
    ensures Step(s, i, ch).c.closing <==>
              s.c.closing || ((s.tasks[i] == RecvIssue || s.tasks[i] == KickSend) && !ch.ok)
  {
    hide Become, StepRecv, StepArm, StepIssue, StepTake, StepParse, StepEmit, StepFinish, StepDrain,
         StepRespond, StepHead, StepRecheck, StepKick, StepIssueSend, StepSent, StepServed;
    match s.tasks[i]
    case RecvPosted => RecvCounts(s, i, ch);
    case RecvArm => ArmCounts(s, i);
    case RecvIssue => IssueCounts(s, i, ch);
    case ProcQueued => BecomeCounts(s, i, [ProcLoop(0)]);
    case ProcLoop(p) => TakeCounts(s, i, p);
    case ProcRun(segs, p) => ParseCounts(s, i, segs, p);
    case ProcEmit(out, segs, p) => EmitCounts(s, i, out, segs, p, ch);
    case ProcFinish => FinishCounts(s, i);
    case ProcRepost => BecomeCounts(s, i, [ProcQueued]);
    case RespQueued => DrainCounts(s, i);
    case RespSend(left, half) => RespondCounts(s, i, left, half, ch);
    case RespHead(left, keep) => HeadCounts(s, i, left, keep);
    case RespRecheck => RecheckCounts(s, i);
    case KickQueued => KickCounts(s, i);
    case KickSend => IssueSendCounts(s, i, ch);
    case SendPosted => SentCounts(s, i, ch);
    case SendDone(f) => ServedCounts(s, i, f);
  }

  // ------------------------------------------------------------ receiving

  /** A connection that is not closing has exactly one receive on its way: outstanding, or about to be posted. */
  ghost predicate Receives(s: Sys) { !s.c.closing ==> Sum(Receiving, s.tasks) == 1 }

  lemma {:induction false} RecvSideReceives(s: Sys, i: nat, ch: Choice)
    requires Receives(s) && i < |s.tasks| && Fits(s) && !Step(s, i, ch).over
    requires Receive(s.tasks[i])
    ensures Receives(Step(s, i, ch))
  {
    hide Sum, Replace;
    Became(s.tasks, i, RecvArm, !s.c.parseInflight, ProcQueued);
    Became(s.tasks, i, RecvIssue, false, RecvIssue);
    Became(s.tasks, i, RecvPosted, false, RecvPosted);
  }

  lemma {:induction false} OtherReceives(s: Sys, i: nat, ch: Choice)
    requires Receives(s) && i < |s.tasks| && Fits(s) && !Step(s, i, ch).over
    requires !Receive(s.tasks[i])
    ensures Receives(Step(s, i, ch))
  {
    hide Sum, Replace, Step;
    ClosingIff(s, i, ch);
    LeavesReceiving(s, i, ch);
  }

  /** Outside the Recv handler a step leaves the receive alone. */
  lemma {:induction false} LeavesReceiving(s: Sys, i: nat, ch: Choice)
    requires i < |s.tasks| && Fits(s) && !Step(s, i, ch).over && !Receive(s.tasks[i])
    ensures Sum(Receiving, Step(s, i, ch).tasks) == Sum(Receiving, s.tasks)
  {
    if Responder(s.tasks[i]) {
      RespondLeaves(s, i, ch);
    } else {
      hide Step, Sum, Replace;
      var next := StepShape(s, i, ch);
      SumReplace(Receiving, s.tasks, i, next);
      SumNothing(Receiving, next);
    }
  }

  lemma {:induction false} RespondLeaves(s: Sys, i: nat, ch: Choice)
    requires i < |s.tasks| && Fits(s) && Responder(s.tasks[i])
    ensures Sum(Receiving, Step(s, i, ch).tasks) == Sum(Receiving, s.tasks)
  {
    hide Sum, Replace, ReadKeepAlive;
    var left, kick := s.tasks[i].left, !s.c.kickPending;
    Became(s.tasks, i, RespRecheck, false, ProcFinish);
    Became(s.tasks, i, RespHead(left, ReadKeepAlive(s, ch.seen) && BelowLimit(s.c.served, s.limit)), false, ProcFinish);
    Became(s.tasks, i, RespSend(left, true), kick, KickQueued);
    if left > 0 { Became(s.tasks, i, RespSend(left - 1, false), kick, KickQueued); }
  }

  ghost predicate WithinLimit(s: Sys) { s.c.served == 0 || s.c.served < s.limit }

  lemma {:induction false} ReachableReceives(s: Sys, n: nat)
    requires Reachable(s, n) && !s.over
    ensures Receives(s) && WithinLimit(s)
    decreases n
  {
    hide Inv, Step, Init, Reachable, Receives, Sum;
    if n == 0 {
      FreshReceives(s);
    } else {
      var r, e := ReachableLast(s, n);
      ReachableReceives(r, n - 1);
      match e
      case Run(i, ch) =>
        ClosingIff(r, i, ch);
        RecycledIff(r, i, ch);
        if Receive(r.tasks[i]) {
          RecvSideReceives(r, i, ch);
        } else {
          OtherReceives(r, i, ch);
        }
    }
  }

  lemma {:induction false} FreshReceives(s: Sys)
    requires Reachable(s, 0)
    ensures Receives(s) && WithinLimit(s)
  {
    SumOne(Receiving, RecvArm);
  }

  /** At rest a live connection waits for bytes: a receive is outstanding, and nothing else. */
  lemma {:induction false} RestReceives(s: Sys, n: nat)
    requires Reachable(s, n) && !s.over && !s.c.closing && Quiescent(s)
    ensures s.tasks == [RecvPosted]
    ensures s.c.served == 0 || s.c.served < s.limit
  {
    hide Reachable;
    ReachableReceives(s, n);
    AllReceive(s.tasks);
  }

  lemma {:induction false} AllReceive(ts: seq<Task>)
    requires forall i :: 0 <= i < |ts| ==> ts[i].RecvPosted?
    ensures Sum(Receiving, ts) == |ts|
  {
    if ts != [] {
      AllReceive(ts[1..]);
    }
  }

  // ------------------------------------------------------------ a healthy connection stays open

  /** Everything emitted so far has been emitted because of bytes that have arrived. */
  lemma {:induction false} EmittedAtMost(s: Sys, n: nat)
    requires Reachable(s, n) && !s.over && |s.h.received| <= 16
    ensures |s.h.emitted| <= |FeedAll(INITIAL, s.h.received).emitted|
  {
    hide *;
    ReachableHasInv(s, n);
    FewSegmentsAreKept(s, n);
    InvHasOrder(s);
    OrderFacts(s);
    FeedMore(INITIAL, s.h.parsed, Local(s.tasks) + s.c.rxq);
  }

  lemma {:induction false} OrderFacts(s: Sys)
    requires InOrder(s) && s.h.dropped == []
    ensures FeedAll(INITIAL, s.h.parsed).emitted == s.h.emitted
    ensures s.h.received == s.h.parsed + (Local(s.tasks) + s.c.rxq)
  {
    hide FeedAll, Local, Sum;
  }

  lemma {:induction false} FeedMore(p: Parser, a: seq<string>, b: seq<string>)
    ensures |FeedAll(p, a).emitted| <= |FeedAll(p, a + b).emitted|
    decreases |a|
  {
    hide Feed;
    if a != [] {
      assert (a + b)[1..] == a[1..] + b;
      FeedMore(Feed(p, a[0]).parser, a[1..], b);
    }
  }

  /** A send that is about to be counted has been emitted. */
  lemma {:induction false} ServingWasEmitted(s: Sys, i: nat)
    requires Inv(s) && i < |s.tasks| && s.tasks[i] == SendDone(true)
    ensures s.c.served + 1 <= |s.h.emitted|
  {
    hide InOrder, Sum, Eors, Awake, BatchStable, Tokens;
    SumAtLeast(Serving, s.tasks, i);
    EorsAppend(s.h.sent, s.c.txq);
  }

  /** The schedule only ever sees calls that succeed. */
  ghost predicate Healthy(schedule: Sys -> Event) {
    forall r: Sys :: var e := schedule(r); e.Run? ==> e.choice.ok
  }

  lemma {:induction false} HealthyStep(s: Sys, n: nat, e: Event)
    requires Reachable(s, n) && !s.over && !s.c.closing && Fits(s) && MayRun(s, e) && e.choice.ok
    requires |s.h.received| <= 16 && |FeedAll(INITIAL, s.h.received).emitted| < s.limit
    ensures var v := Next(s, e); !v.over && !v.c.closing && v.limit == s.limit
  {
    hide Reachable, FeedAll, Step;
    RecycledIff(s, e.task, e.choice);
    ClosingIff(s, e.task, e.choice);
    if s.tasks[e.task] == SendDone(true) {
      ReachableHasInv(s, n);
      ServingWasEmitted(s, e.task);
      EmittedAtMost(s, n);
    }
  }

  lemma {:induction false} HealthySettles(s: Sys, n: nat, schedule: Sys -> Event)
    requires Reachable(s, n) && !s.over && !s.c.closing && Healthy(schedule)
    requires |s.h.received| <= 16 && |FeedAll(INITIAL, s.h.received).emitted| < s.limit
    ensures Inv(s) && Fits(s)
    ensures var r := Settle(s, schedule); !r.over && !r.c.closing
    decreases Unparsed(s), Effort(s)
  {
    ReachableHasInv(s, n);
    hide Inv, Unparsed, Effort, Step, Reachable, FeedAll;
    if MayRun(s, schedule(s)) {
      var e := schedule(s);
      var v := Next(s, e);
      ReachableNext(s, n, e);
      assert v == Step(s, e.task, e.choice);
      HealthyStep(s, n, e);
      NextKeepsInv(s, e);
      Progress(s, e.task, e.choice);
      HealthySettles(v, n + 1, schedule);
    }
  }

  /**
    A pipeline shorter than the keep-alive limit, in at most sixteen segments cut anywhere, is answered
    under every schedule that goes on and sees no failing call; the connection then is open and waits for bytes.
  */
  lemma {:induction false} HealthyPipelineStaysOpen(s: Sys, n: nat, schedule: Sys -> Event, ms: seq<Printed>)
    requires Reachable(s, n) && !s.over && !s.c.closing && |s.h.received| <= 16 && |ms| < s.limit
    requires Healthy(schedule) && forall r: Sys :: r.over || Quiescent(r) || MayRun(r, schedule(r))
    requires forall i :: 0 <= i < |ms| ==> Printable(ms[i]) && ms[i].order != []
    requires Flatten(s.h.received) == PrintAll(ms)
    ensures Inv(s) && Fits(s)
    ensures var r := Settle(s, schedule);
            && !r.over && !r.c.closing && r.tasks == [RecvPosted]
            && r.h.emitted == Requests(ms) && r.c.served == |ms| == Eors(r.h.sent)
  {
    hide Reachable, Quiescent, Eors, Printable, Inv, MayRun, Healthy, FeedAll;
    PipelineRoundTrip(ms, s.h.received);
    HealthySettles(s, n, schedule);
    var m := SettleIsARun(s, n, schedule);
    var r := Settle(s, schedule);
    RestReceives(r, m);
    ShortPipelineIsAnswered(r, m, ms);
  }
}
