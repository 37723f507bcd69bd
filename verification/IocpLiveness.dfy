/**
  The connection never spins: with a silent client every schedule of the pending tokens, handlers
  and sends comes to rest, and then everything received has been answered.
*/
module IocpLiveness {
  import opened Text
  import opened StreamParser
  import opened StreamTheorems
  import opened Segments
  import opened IocpConnection
  import opened IocpProtocol
  import opened IocpInvariant
  import opened IocpTheorems
  import opened IocpBudget

  /** Segments to parse; waiting in rxq they count twice, in the hands of the handler once. */
  function Unparsed(s: Sys): nat { 2 * |s.c.rxq| + |Local(s.tasks)| }

  /** Steps left in tasks and queues while nothing is parsed. */
  function Effort(s: Sys): nat {
    Sum(Work, s.tasks) + 40 * |s.c.respq| + 10 * |s.c.txq|
    + if s.c.rxq != [] then 8 * Sum(Finishing, s.tasks) else 0
  }

  ghost predicate Less(s': Sys, s: Sys) {
    Unparsed(s') < Unparsed(s) || (Unparsed(s') == Unparsed(s) && Effort(s') < Effort(s))
  }

  /** A step outside the parser leaves the segments alone, so only the effort matters. */
  lemma OtherEffort(s: Sys, i: nat, s': Sys, t: Task, b: bool, u: Task)
    requires Core(s) && i < |s.tasks| && Weight(Parsing, s.tasks[i]) == 0 && Light(t) && Light(u)
    requires Weight(Finishing, t) == 0 && Weight(Finishing, u) == 0
    requires s'.c.rxq == s.c.rxq
    requires
      var before := StepsLeft(s.tasks[i]) + 40 * |s.c.respq| + 10 * |s.c.txq|;
      var queues := 40 * |s'.c.respq| + 10 * |s'.c.txq|;
      || (s'.tasks == Replace(s.tasks, i, []) && queues < before)
      || (s'.tasks == Replace(s.tasks, i, [t]) && queues + StepsLeft(t) < before)
      || (s'.tasks == Replace(s.tasks, i, When(b, u)) && queues + StepsLeft(u) < before)
      || (s'.tasks == Replace(s.tasks, i, [t] + When(b, u))
          && queues + StepsLeft(t) + (if b then StepsLeft(u) else 0) < before)
    ensures Less(s', s)
  {
    hide Sum, Replace, Local, StepsLeft, Awake, BatchStable, Conserved;
    Became(s.tasks, i, t, b, u);
    Became(s.tasks, i, u, b, u);
    LocalReplace(s.tasks, i, []);
    LocalReplace(s.tasks, i, [t]);
    LocalReplace(s.tasks, i, When(b, u));
    LocalReplace(s.tasks, i, [t] + When(b, u));
    LocalOne(t);
    LocalWhen(t, b, u);
    EmptyLocal();
  }

  /** A stage of the Process handler: what it holds is all that is held. */
  lemma ParserEffort(s: Sys, i: nat, t: Task)
    requires Core(s) && i < |s.tasks| && Weight(Parsing, s.tasks[i]) == 1
    ensures Local(s.tasks) == Segs(s.tasks[i]) && Local(Replace(s.tasks, i, [t])) == Segs(t)
    ensures Sum(Work, Replace(s.tasks, i, [t])) == Sum(Work, s.tasks) - StepsLeft(s.tasks[i]) + StepsLeft(t)
    ensures Sum(Finishing, s.tasks) == Weight(Finishing, s.tasks[i])
    ensures Sum(Finishing, Replace(s.tasks, i, [t])) == Weight(Finishing, t)
  {
    hide Sum, Replace, Local;
    ParserMoves(s, i, t);
    Became(s.tasks, i, t, false, t);
    FinishingParses(Replace(s.tasks, i, []));
  }

  lemma {:induction false} FinishingParses(ts: seq<Task>)
    ensures Sum(Finishing, ts) <= Sum(Parsing, ts)
  {
    if ts != [] {
      FinishingParses(ts[1..]);
    }
  }

  lemma TakeProgress(s: Sys, i: nat, p: nat)
    requires Core(s) && i < |s.tasks| && s.tasks[i] == ProcLoop(p)
    ensures Less(StepTake(s, i, p), s)
  {
    hide Sum, Replace, Local;
    if TakenSegments(s.c) == [] {
      ParserEffort(s, i, ProcFinish);
    } else {
      ParserEffort(s, i, ProcRun(TakenSegments(s.c), p));
      assert |TakenSegments(s.c)| + |TakeSegments(s.c).rxq| == |s.c.rxq|;
    }
  }

  lemma ParseProgress(s: Sys, i: nat, segs: seq<string>, p: nat)
    requires Core(s) && InOrder(s) && i < |s.tasks| && s.tasks[i] == ProcRun(segs, p)
    ensures Less(StepParse(s, i, segs, p), s)
  {
    hide Sum, Replace, Local, Feed, FeedAll;
    SumAtLeast(Late, s.tasks, i);
    ParserEffort(s, i, ProcEmit(Feed(s.http, segs[0]).emitted, segs[1..], p));
  }

  lemma HandOutProgress(s: Sys, i: nat, out: seq<Request>, segs: seq<string>, p: nat, ch: Choice)
    requires Core(s) && i < |s.tasks| && s.tasks[i] == ProcEmit(out, segs, p) && out != []
    ensures Less(StepEmit(s, i, out, segs, p, ch), s)
  {
    hide Sum, Replace, Local, When, Awake, BatchStable, Conserved;
    var b := !s.c.respondInflight;
    HandingOut(s, i, out, segs, p, b);
    Became(s.tasks, i, ProcEmit(out[1..], segs, p), b, RespQueued);
  }

  lemma EmitProgress(s: Sys, i: nat, out: seq<Request>, segs: seq<string>, p: nat, ch: Choice)
    requires Core(s) && i < |s.tasks| && s.tasks[i] == ProcEmit(out, segs, p)
    ensures Less(StepEmit(s, i, out, segs, p, ch), s)
  {
    hide Sum, Replace, Local;
    if out != [] {
      HandOutProgress(s, i, out, segs, p, ch);
    } else {
      var t := if p + 1 >= PROC_MAX_SEGMENTS then ProcFinish
               else if segs != [] then ProcRun(segs, p + 1)
               else if ch.timeUp then ProcFinish else ProcLoop(p + 1);
      ParserEffort(s, i, t);
    }
  }

  lemma FinishProgress(s: Sys, i: nat)
    requires Core(s) && i < |s.tasks| && s.tasks[i] == ProcFinish
    ensures Less(StepFinish(s, i), s)
  {
    hide Sum, Replace, Local, Awake, BatchStable, Conserved;
    ParserEffort(s, i, ProcRepost);
    Became(s.tasks, i, ProcRepost, false, ProcRepost);
    LocalReplace(s.tasks, i, []);
    EmptyLocal();
  }

  lemma TokenProgress(s: Sys, i: nat, t: Task)
    requires Core(s) && i < |s.tasks|
    requires (s.tasks[i] == ProcQueued && t == ProcLoop(0)) || (s.tasks[i] == ProcRepost && t == ProcQueued)
    ensures Less(Become(s, i, s.c, [t]), s)
  {
    hide Sum, Replace, Local;
    ParserEffort(s, i, t);
  }

  lemma AnswerProgress(s: Sys, i: nat, ch: Choice)
    requires Core(s) && i < |s.tasks| && Fits(s) && (s.tasks[i].RespSend? || s.tasks[i].RespHead?)
    ensures Less(Step(s, i, ch), s)
  {
    hide Replace, When, Less, Sum, Eors, Local, ReadKeepAlive, Core;
    var s', kick := Step(s, i, ch), !s.c.kickPending;
    match s.tasks[i]
    case RespSend(left, half) =>
      if left > 0 && half {
        OtherEffort(s, i, s', RespSend(left - 1, false), kick, KickQueued);
      } else {
        var keep := ReadKeepAlive(s, ch.seen) && BelowLimit(s.c.served, s.limit);
        OtherEffort(s, i, s', if left == 0 then RespRecheck else RespHead(left, keep), kick, KickQueued);
      }
    case RespHead(left, _) => OtherEffort(s, i, s', RespSend(left, true), kick, KickQueued);
  }

  lemma RespondProgress(s: Sys, i: nat, ch: Choice)
    requires Core(s) && i < |s.tasks| && Fits(s)
    requires s.tasks[i].RespQueued? || s.tasks[i].RespRecheck?
    ensures Less(Step(s, i, ch), s)
  {
    hide Replace, When, Less, Sum, Eors, Local, ReadKeepAlive;
    var c, s' := s.c, Step(s, i, ch);
    match s.tasks[i]
    case RespQueued => OtherEffort(s, i, s', RespSend(|c.respq|, false), false, RespRecheck);
    case RespRecheck =>
      RecheckStep(s, i);
      OtherEffort(s, i, s', RespRecheck, false, RespRecheck);
  }

  lemma SentProgress(s: Sys, i: nat, ch: Choice)
    requires Core(s) && i < |s.tasks| && s.tasks[i].SendPosted? && !StepSent(s, i, ch).over
    ensures Less(StepSent(s, i, ch), s)
  {
    hide Replace, When, Less, Sum, Eors, Local, Awake, Conserved;
    SumAtLeast(Sending, s.tasks, i);
    OtherEffort(s, i, StepSent(s, i, ch), SendDone(s.c.inflightEor),
                !s.c.kickPending && CompleteSend(s.c).txq != [], KickQueued);
  }

  lemma SendProgress(s: Sys, i: nat, ch: Choice)
    requires Core(s) && i < |s.tasks| && Fits(s) && !Step(s, i, ch).over
    requires s.tasks[i].KickQueued? || s.tasks[i].KickSend? || s.tasks[i].SendPosted? || s.tasks[i].SendDone?
    ensures Less(Step(s, i, ch), s)
  {
    hide Replace, When, Less, Sum, Eors, Local, Awake, Conserved, StepSent;
    var c, s' := s.c, Step(s, i, ch);
    match s.tasks[i]
    case KickQueued => OtherEffort(s, i, s', KickSend, CanSend(c), KickSend);
    case KickSend => OtherEffort(s, i, s', SendPosted, false, SendPosted);
    case SendPosted => SentProgress(s, i, ch);
    case SendDone(f) => OtherEffort(s, i, s', RespRecheck, false, RespRecheck);
  }

  lemma ArmProgress(s: Sys, i: nat, ch: Choice)
    requires Core(s) && i < |s.tasks| && Fits(s) && (s.tasks[i].RecvArm? || s.tasks[i].RecvIssue?)
    ensures Less(Step(s, i, ch), s)
  {
    hide Replace, When, Less, Sum, Eors, Local;
    OtherEffort(s, i, Step(s, i, ch), if s.tasks[i].RecvArm? then RecvIssue else RecvPosted, false, RecvIssue);
  }

  /** Every step but the arrival of bytes brings the connection nearer to rest. */
  lemma {:induction false} Progress(s: Sys, i: nat, ch: Choice)
    requires Inv(s) && i < |s.tasks| && Fits(s) && !Step(s, i, ch).over && !s.tasks[i].RecvPosted?
    ensures Less(Step(s, i, ch), s)
    ensures Step(s, i, ch).h.received == s.h.received
  {
    hide Core, InOrder, Replace, When, Less;
    match s.tasks[i]
    case RecvArm => ArmProgress(s, i, ch);
    case RecvIssue => ArmProgress(s, i, ch);
    case ProcQueued => TokenProgress(s, i, ProcLoop(0));
    case ProcLoop(p) => TakeProgress(s, i, p);
    case ProcRun(segs, p) => ParseProgress(s, i, segs, p);
    case ProcEmit(out, segs, p) => EmitProgress(s, i, out, segs, p, ch);
    case ProcFinish => FinishProgress(s, i);
    case ProcRepost => TokenProgress(s, i, ProcQueued);
    case RespQueued => RespondProgress(s, i, ch);
    case RespSend(_, _) => AnswerProgress(s, i, ch);
    case RespHead(_, _) => AnswerProgress(s, i, ch);
    case RespRecheck => RespondProgress(s, i, ch);
    case _ => SendProgress(s, i, ch);
  }

  // ------------------------------------------------------------ schedules

  /** The schedule runs a task that does not wait for bytes from the client. */
  predicate MayRun(s: Sys, e: Event) {
    e.Run? && Enabled(s, e) && !s.tasks[e.task].RecvPosted?
  }

  /** Runs whatever the schedule picks, with whatever answers it gives, until it picks nothing. */
  ghost function Settle(s: Sys, schedule: Sys -> Event): Sys
    requires Inv(s) && Fits(s) && !s.over
    decreases Unparsed(s), Effort(s)
  {
    if !MayRun(s, schedule(s)) then s
    else
      var e := schedule(s);
      var s' := Next(s, e);
      if s'.over then s'
      else
        NextKeepsInv(s, e);
        Progress(s, e.task, e.choice);
        Settle(s', schedule)
  }

  lemma {:induction false} SettleIsARun(s: Sys, n: nat, schedule: Sys -> Event) returns (m: nat)
    requires Reachable(s, n) && !s.over
    ensures Inv(s) && Fits(s)
    ensures Reachable(Settle(s, schedule), m)
    ensures Settle(s, schedule).h.received == s.h.received
    ensures Settle(s, schedule).over || !MayRun(Settle(s, schedule), schedule(Settle(s, schedule)))
    decreases Unparsed(s), Effort(s)
  {
    ReachableHasInv(s, n);
    hide Inv, Unparsed, Effort, Step, Reachable;
    if MayRun(s, schedule(s)) {
      var e := schedule(s);
      var s' := Next(s, e);
      ReachableNext(s, n, e);
      assert s' == Step(s, e.task, e.choice);
      if !s'.over {
        NextKeepsInv(s, e);
        Progress(s, e.task, e.choice);
        m := SettleIsARun(s', n + 1, schedule);
        assert Settle(s, schedule) == Settle(s', schedule);
      } else {
        StepOverReceives(s, e.task, e.choice);
        m := n + 1;
      }
    } else {
      m := n;
    }
  }

  lemma StepOverReceives(s: Sys, i: nat, ch: Choice)
    requires i < |s.tasks| && Fits(s) && Step(s, i, ch).over && !s.over && !s.tasks[i].RecvPosted?
    ensures Step(s, i, ch).h.received == s.h.received
  {
    hide Replace;
  }

  /**
    Any schedule that never idles while something is left to do brings a live connection to rest, and
    unless it closes every request that the parser emitted was answered.
  */
  lemma {:induction false} SilentClientIsAnswered(s: Sys, n: nat, schedule: Sys -> Event)
    requires Reachable(s, n) && !s.over
    requires forall r: Sys :: r.over || Quiescent(r) || MayRun(r, schedule(r))
    ensures Inv(s) && Fits(s)
    ensures var r := Settle(s, schedule);
            r.over || (Quiescent(r) && r.h.received == s.h.received
              && (r.c.closing || (r.c.rxq == [] && r.c.respq == [] && r.c.txq == []
                    && Eors(r.h.sent) == |r.h.emitted| == r.c.served)))
  {
    ReachableHasInv(s, n);
    hide Inv, Reachable, Quiescent, Eors;
    var m := SettleIsARun(s, n, schedule);
    var r := Settle(s, schedule);
    if !r.over && !r.c.closing {
      QuiescenceMeansDelivery(r, m);
    }
  }

  /**
    A silent client is answered: a printed pipeline that has arrived in at most sixteen segments, cut
    anywhere, is answered request by request under every such schedule, unless the connection closes.
  */
  lemma {:induction false} ShortPipelineSettles(s: Sys, n: nat, schedule: Sys -> Event, ms: seq<Printed>)
    requires Reachable(s, n) && !s.over && |s.h.received| <= 16
    requires forall r: Sys :: r.over || Quiescent(r) || MayRun(r, schedule(r))
    requires forall i :: 0 <= i < |ms| ==> Printable(ms[i]) && ms[i].order != []
    requires Flatten(s.h.received) == PrintAll(ms)
    ensures Inv(s) && Fits(s)
    ensures var r := Settle(s, schedule);
            r.over || r.c.closing || (r.h.emitted == Requests(ms) && r.c.served == |ms| == Eors(r.h.sent))
  {
    hide Reachable, Quiescent, Eors, Printable, Inv, MayRun;
    var m := SettleIsARun(s, n, schedule);
    var r := Settle(s, schedule);
    if !r.over && !r.c.closing {
      ShortPipelineIsAnswered(r, m, ms);
    }
  }
}
