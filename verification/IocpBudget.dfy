/** A Process run loses segments only on a connection that has received more than one run may parse. */
module IocpBudget {
  import opened Text
  import opened StreamParser
  import opened StreamTheorems
  import opened Segments
  import opened IocpConnection
  import opened IocpProtocol
  import opened IocpInvariant
  import opened IocpTheorems

  /** Segments a Process handler has parsed so far. */
  function Spent(t: Task): nat {
    match t
    case ProcLoop(p) => p
    case ProcRun(_, p) => p
    case ProcEmit(_, _, p) => p + 1
    case _ => 0
  }

  ghost predicate SpentAtMost(ts: seq<Task>, n: nat) { forall i :: 0 <= i < |ts| ==> Spent(ts[i]) <= n }

  /** No handler has parsed more than was parsed at all, and an overrun needs more segments than one run may parse. */
  ghost predicate Budget(s: Sys) {
    SpentAtMost(s.tasks, |s.h.parsed|) && (s.h.overrun ==> |s.h.received| > PROC_MAX_SEGMENTS)
  }

  lemma SpentReplace(ts: seq<Task>, i: nat, next: seq<Task>, n: nat)
    requires i < |ts| && SpentAtMost(ts, n) && SpentAtMost(next, n)
    ensures SpentAtMost(Replace(ts, i, next), n)
  {
  }

  lemma TakeKeepsBudget(s: Sys, i: nat, p: nat)
    requires InOrder(s) && Budget(s) && i < |s.tasks| && s.tasks[i] == ProcLoop(p)
    ensures Budget(StepTake(s, i, p))
  {
    hide Sum, Replace, Local, FeedAll;
    var segs := TakenSegments(s.c);
    assert Spent(s.tasks[i]) == p;
    SpentReplace(s.tasks, i, [ProcFinish], |s.h.parsed|);
    SpentReplace(s.tasks, i, [ProcRun(segs, p)], |s.h.parsed|);
    if !s.h.overrun {
      assert |s.h.received| == |s.h.parsed| + |Local(s.tasks)| + |s.c.rxq|;
    }
  }

  lemma ParseKeepsBudget(s: Sys, i: nat, segs: seq<string>, p: nat)
    requires Budget(s) && i < |s.tasks| && s.tasks[i] == ProcRun(segs, p)
    ensures Budget(StepParse(s, i, segs, p))
  {
    hide Replace, Feed;
    assert Spent(s.tasks[i]) == p;
    if segs == [] {
      SpentReplace(s.tasks, i, [ProcFinish], |s.h.parsed|);
    } else {
      SpentReplace(s.tasks, i, [ProcEmit(Feed(s.http, segs[0]).emitted, segs[1..], p)], |s.h.parsed| + 1);
    }
  }

  lemma EmitKeepsBudget(s: Sys, i: nat, out: seq<Request>, segs: seq<string>, p: nat, ch: Choice)
    requires Budget(s) && i < |s.tasks| && s.tasks[i] == ProcEmit(out, segs, p)
    ensures Budget(StepEmit(s, i, out, segs, p, ch))
  {
    hide Replace;
    var n := |s.h.parsed|;
    assert Spent(s.tasks[i]) == p + 1;
    if out != [] {
      SpentReplace(s.tasks, i, [ProcEmit(out[1..], segs, p)] + When(!s.c.respondInflight, RespQueued), n);
    } else {
      SpentReplace(s.tasks, i, [ProcFinish], n);
      SpentReplace(s.tasks, i, [ProcRun(segs, p + 1)], n);
      SpentReplace(s.tasks, i, [ProcLoop(p + 1)], n);
    }
  }

  /** Every other lock section leaves behind only tasks that have parsed nothing. */
  lemma OtherKeepsBudget(s: Sys, i: nat, ch: Choice)
    requires Budget(s) && i < |s.tasks| && Fits(s) && !Step(s, i, ch).over
    requires !s.tasks[i].ProcLoop? && !s.tasks[i].ProcRun? && !s.tasks[i].ProcEmit?
    ensures Budget(Step(s, i, ch))
  {
    hide Replace;
    var n := |s.h.parsed|;
    match s.tasks[i]
    case RecvPosted => SpentReplace(s.tasks, i, [RecvArm] + When(!s.c.parseInflight, ProcQueued), n);
    case RecvArm =>
      SpentReplace(s.tasks, i, [], n);
      SpentReplace(s.tasks, i, [RecvIssue], n);
    case RecvIssue =>
      SpentReplace(s.tasks, i, [], n);
      SpentReplace(s.tasks, i, [RecvPosted], n);
    case ProcQueued => SpentReplace(s.tasks, i, [ProcLoop(0)], n);
    case ProcFinish => SpentReplace(s.tasks, i, When(s.c.rxq != [], ProcRepost), n);
    case ProcRepost => SpentReplace(s.tasks, i, [ProcQueued], n);
    case _ => SendSideKeepsBudget(s, i, ch);
  }

  lemma SendSideKeepsBudget(s: Sys, i: nat, ch: Choice)
    requires Budget(s) && i < |s.tasks| && Fits(s) && !Step(s, i, ch).over
    requires var t := s.tasks[i];
             t.RespQueued? || t.RespSend? || t.RespHead? || t.RespRecheck? || t.KickQueued? || t.KickSend? || t.SendPosted? || t.SendDone?
    ensures Budget(Step(s, i, ch))
  {
    hide Replace, ReadKeepAlive, StartSend, CompleteSend;
    var n := |s.h.parsed|;
    match s.tasks[i]
    case RespQueued => SpentReplace(s.tasks, i, [RespSend(|s.c.respq|, false)], n);
    case RespSend(left, half) =>
      SpentReplace(s.tasks, i, [RespRecheck], n);
      SpentReplace(s.tasks, i, [RespHead(left, ReadKeepAlive(s, ch.seen) && BelowLimit(s.c.served, s.limit))], n);
      if half && left > 0 { SpentReplace(s.tasks, i, [RespSend(left - 1, false)] + When(!s.c.kickPending, KickQueued), n); }
    case RespHead(left, _) =>
      SpentReplace(s.tasks, i, [RespSend(left, true)] + When(!s.c.kickPending, KickQueued), n);
    case RespRecheck => SpentReplace(s.tasks, i, When(s.c.respq != [] && !s.c.respondInflight, RespQueued), n);
    case KickQueued => SpentReplace(s.tasks, i, When(CanSend(s.c), KickSend), n);
    case KickSend =>
      SpentReplace(s.tasks, i, [], n);
      SpentReplace(s.tasks, i, [SendPosted], n);
    case SendPosted =>
      var d := CompleteSend(s.c);
      SpentReplace(s.tasks, i, [SendDone(s.c.inflightEor)] + When(!s.c.kickPending && d.txq != [], KickQueued), n);
    case SendDone(_) => SpentReplace(s.tasks, i, [], n);
  }

  lemma StepKeepsBudget(s: Sys, i: nat, ch: Choice)
    requires InOrder(s) && Budget(s) && i < |s.tasks| && Fits(s) && !Step(s, i, ch).over
    ensures Budget(Step(s, i, ch))
  {
    hide InOrder, Budget, StepTake, StepParse, StepEmit;
    match s.tasks[i]
    case ProcLoop(p) => TakeKeepsBudget(s, i, p);
    case ProcRun(segs, p) => ParseKeepsBudget(s, i, segs, p);
    case ProcEmit(out, segs, p) => EmitKeepsBudget(s, i, out, segs, p, ch);
    case _ => OtherKeepsBudget(s, i, ch);
  }

  lemma {:induction false} ReachableInBudget(s: Sys, n: nat)
    requires Reachable(s, n) && !s.over
    ensures Budget(s)
    decreases n
  {
    hide Inv, Step, Init, Reachable;
    if n == 0 {
      FreshInBudget(s);
    } else {
      var r, e := ReachableLast(s, n);
      ReachableHasInv(r, n - 1);
      ReachableInBudget(r, n - 1);
      InvHasOrder(r);
      match e
      case Run(i, ch) => StepKeepsBudget(r, i, ch);
    }
  }

  lemma FreshInBudget(s: Sys)
    requires Reachable(s, 0)
    ensures Budget(s)
  {
  }

  lemma InvHasOrder(s: Sys)
    requires Inv(s)
    ensures InOrder(s)
  {
    hide Core, InOrder;
  }

  /** A connection that has received no more segments than one run may parse has lost none, in any schedule. */
  lemma {:induction false} FewSegmentsAreKept(s: Sys, n: nat)
    requires Reachable(s, n) && !s.over && |s.h.received| <= 16
    ensures !s.h.overrun && s.h.dropped == []
  {
    ReachableInBudget(s, n);
    ReachableHasInv(s, n);
    InvHasOrder(s);
    hide Reachable, Inv, Sum, FeedAll;
  }

  /** So up to sixteen segments are answered without any assumption about the schedule. */
  lemma {:induction false} ShortPipelineIsAnswered(s: Sys, n: nat, ms: seq<Printed>)
    requires Reachable(s, n) && !s.over && !s.c.closing && Quiescent(s) && |s.h.received| <= 16
    requires forall i :: 0 <= i < |ms| ==> Printable(ms[i]) && ms[i].order != []
    requires Flatten(s.h.received) == PrintAll(ms)
    ensures s.h.emitted == Requests(ms) && s.c.served == |ms| == Eors(s.h.sent)
  {
    hide Reachable, Eors, FeedAll, Printable;
    FewSegmentsAreKept(s, n);
    PipelineIsAnswered(s, n, ms);
  }
}
