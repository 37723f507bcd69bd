/** The requests that wait for a Respond handler of the IOCP server, and their order. */
module IocpRequests {
  import opened StreamParser
  import opened Segments
  import opened IocpConnection
  import opened IocpProtocol
  import opened IocpTheorems

  /** The requests not drained yet are the last ones that were parsed, in the same order. */
  ghost predicate RespqIsNext(s: Sys) {
    var waiting := s.c.respq + Outs(s.tasks);
    |waiting| <= |s.h.emitted| && s.h.emitted[|s.h.emitted| - |waiting|..] == waiting
  }

  // ------------------------------------------------------------ what handlers hold

  lemma {:induction false} OutsAppend(a: seq<Task>, b: seq<Task>)
    ensures Outs(a + b) == Outs(a) + Outs(b)
  {
    hide Out;
    if a == [] {
      assert a + b == b;
    } else {
      assert (a + b)[1..] == a[1..] + b;
      OutsAppend(a[1..], b);
    }
  }

  lemma {:induction false} NoParserNoOuts(ts: seq<Task>)
    requires Sum(Parsing, ts) == 0
    ensures Outs(ts) == []
  {
    if ts != [] {
      NoParserNoOuts(ts[1..]);
    }
  }

  lemma {:induction false} NothingOut(ts: seq<Task>)
    requires forall k :: 0 <= k < |ts| ==> !ts[k].ProcEmit?
    ensures Outs(ts) == []
  {
    if ts != [] {
      NothingOut(ts[1..]);
    }
  }

  lemma OutsOne(t: Task)
    ensures Outs([t]) == Out(t)
  {
    hide Out;
    assert [t][1..] == [];
  }

  lemma OutsReplace(ts: seq<Task>, i: nat, next: seq<Task>)
    requires i < |ts| && Sum(Parsing, ts) <= 1
    ensures Weight(Parsing, ts[i]) == 1 ==> Outs(ts) == Out(ts[i]) && Outs(Replace(ts, i, next)) == Outs(next)
    ensures Weight(Parsing, ts[i]) == 0 && Outs(next) == [] ==> Outs(Replace(ts, i, next)) == Outs(ts)
  {
    hide Outs, Out, Sum, Weight;
    var a, t, b := ts[..i], ts[i], ts[i + 1..];
    assert ts == a + [t] + b;
    OutsAppend(a + [t], b);
    OutsAppend(a, [t]);
    OutsAppend(a + next, b);
    OutsAppend(a, next);
    OutsOne(t);
    SumAppend(Parsing, a + [t], b);
    SumAppend(Parsing, a, [t]);
    SumOne(Parsing, t);
    if Weight(Parsing, t) == 1 {
      NoParserNoOuts(a);
      NoParserNoOuts(b);
    } else if Weight(Parsing, t) == 0 {
      NoParserNoOuts([t]);
    }
  }

  // ------------------------------------------------------------ steps

  /** The steps of the sender. */
  lemma SenderStep(s: Sys, i: nat, ch: Choice) returns (next: seq<Task>)
    requires i < |s.tasks| && Fits(s) && !Step(s, i, ch).over
    requires var t := s.tasks[i]; t.KickQueued? || t.KickSend? || t.SendPosted? || t.SendDone?
    ensures var v := Step(s, i, ch);
            && v.tasks == Replace(s.tasks, i, next) && v.h.emitted == s.h.emitted && v.c.respq == s.c.respq
            && (forall k :: 0 <= k < |next| ==> !next[k].ProcEmit?)
  {
    hide Replace, BatchCount;
    var c := s.c;
    match s.tasks[i]
    case KickQueued => next := When(CanSend(c), KickSend);
    case KickSend => next := if ch.ok then [SendPosted] else [];
    case SendPosted => next := [SendDone(c.inflightEor)] + When(!c.kickPending && CompleteSend(c).txq != [], KickQueued);
    case SendDone(_) => next := [];
  }

  /** The steps of a Respond handler: the first takes all the requests that wait. */
  lemma ResponderStep(s: Sys, i: nat, ch: Choice) returns (next: seq<Task>)
    requires i < |s.tasks| && Fits(s) && !Step(s, i, ch).over
    requires var t := s.tasks[i]; t.RespQueued? || t.RespSend? || t.RespHead? || t.RespRecheck?
    ensures var v := Step(s, i, ch);
            && v.tasks == Replace(s.tasks, i, next) && v.h.emitted == s.h.emitted
            && v.c.respq == (if s.tasks[i].RespQueued? then [] else s.c.respq)
            && (forall k :: 0 <= k < |next| ==> !next[k].ProcEmit?)
  {
    hide Replace, ReadKeepAlive;
    var c := s.c;
    match s.tasks[i]
    case RespQueued => next := [RespSend(|c.respq|, false)];
    case RespSend(left, half) =>
      next := if left == 0 then [RespRecheck]
              else if half then [RespSend(left - 1, false)] + When(!c.kickPending, KickQueued)
              else [RespHead(left, ReadKeepAlive(s, ch.seen) && BelowLimit(c.served, s.limit))];
    case RespHead(left, _) => next := [RespSend(left, true)] + When(!c.kickPending, KickQueued);
    case RespRecheck => next := When(c.respq != [] && !c.respondInflight, RespQueued);
  }

  /** A step that neither parses nor publishes a request. */
  lemma QuietStep(s: Sys, i: nat, ch: Choice) returns (next: seq<Task>)
    requires i < |s.tasks| && Fits(s) && !Step(s, i, ch).over && !s.tasks[i].ProcRun? && !s.tasks[i].ProcEmit?
    ensures var v := Step(s, i, ch);
            && v.tasks == Replace(s.tasks, i, next) && v.h.emitted == s.h.emitted
            && v.c.respq == (if s.tasks[i].RespQueued? then [] else s.c.respq)
            && (forall k :: 0 <= k < |next| ==> !next[k].ProcEmit?)
  {
    hide Replace, StepKick, StepIssueSend, StepSent, StepServed, StepDrain, StepRespond, StepHead, StepRecheck;
    var c, t := s.c, s.tasks[i];
    match t
    case RecvPosted => next := [RecvArm] + When(!c.parseInflight, ProcQueued);
    case RecvArm => next := if c.closing then [] else [RecvIssue];
    case RecvIssue => next := if ch.ok then [RecvPosted] else [];
    case ProcQueued => next := [ProcLoop(0)];
    case ProcLoop(p) =>
      next := if TakenSegments(c) == [] then [ProcFinish] else [ProcRun(TakenSegments(c), p)];
    case ProcFinish => next := When(c.rxq != [], ProcRepost);
    case ProcRepost => next := [ProcQueued];
    case _ =>
      if t.RespQueued? || t.RespSend? || t.RespHead? || t.RespRecheck? { next := ResponderStep(s, i, ch); } else { next := SenderStep(s, i, ch); }
  }

  lemma QuietKeeps(s: Sys, i: nat, ch: Choice)
    requires RespqIsNext(s) && Sum(Parsing, s.tasks) <= 1
    requires i < |s.tasks| && Fits(s) && !Step(s, i, ch).over && !s.tasks[i].ProcRun? && !s.tasks[i].ProcEmit?
    ensures RespqIsNext(Step(s, i, ch))
  {
    hide Step, Replace, Sum, Outs;
    var next := QuietStep(s, i, ch);
    NothingOut(next);
    OutsReplace(s.tasks, i, next);
  }

  /** The handler holds no requests while it parses, and then all the new ones. */
  lemma ParseKeeps(s: Sys, i: nat, segs: seq<string>, processed: nat)
    requires RespqIsNext(s) && Sum(Parsing, s.tasks) <= 1 && i < |s.tasks| && s.tasks[i] == ProcRun(segs, processed)
    ensures RespqIsNext(StepParse(s, i, segs, processed))
  {
    hide Replace, Sum, Outs, Feed;
    if segs == [] {
      OutsOne(ProcFinish);
      OutsReplace(s.tasks, i, [ProcFinish]);
    } else {
      var t := ProcEmit(Feed(s.http, segs[0]).emitted, segs[1..], processed);
      OutsOne(t);
      OutsReplace(s.tasks, i, [t]);
    }
  }

  /** Publishing moves the first request that is held behind the queue. */
  lemma EmitKeeps(s: Sys, i: nat, out: seq<Request>, segs: seq<string>, processed: nat, ch: Choice)
    requires RespqIsNext(s) && Sum(Parsing, s.tasks) <= 1 && i < |s.tasks| && s.tasks[i] == ProcEmit(out, segs, processed)
    ensures RespqIsNext(StepEmit(s, i, out, segs, processed, ch))
  {
    hide Replace, Sum, Outs;
    var v := StepEmit(s, i, out, segs, processed, ch);
    if out != [] {
      var t, w := ProcEmit(out[1..], segs, processed), When(!s.c.respondInflight, RespQueued);
      OutsAppend([t], w);
      NothingOut(w);
      OutsOne(t);
      OutsReplace(s.tasks, i, [t] + w);
      assert s.c.respq + out == s.c.respq + [out[0]] + out[1..];
    } else {
      var next := if processed + 1 >= PROC_MAX_SEGMENTS then ProcFinish else if segs != [] then ProcRun(segs, processed + 1)
                  else if ch.timeUp then ProcFinish else ProcLoop(processed + 1);
      OutsOne(next);
      OutsReplace(s.tasks, i, [next]);
    }
  }

  lemma StepKeepsNext(s: Sys, i: nat, ch: Choice)
    requires RespqIsNext(s) && Sum(Parsing, s.tasks) <= 1 && i < |s.tasks| && Fits(s) && !Step(s, i, ch).over
    ensures RespqIsNext(Step(s, i, ch))
  {
    hide RespqIsNext, Sum, StepParse, StepEmit;
    match s.tasks[i]
    case ProcRun(segs, p) => ParseKeeps(s, i, segs, p);
    case ProcEmit(out, segs, p) => EmitKeeps(s, i, out, segs, p, ch);
    case _ => QuietKeeps(s, i, ch);
  }

  /**
    In every reachable state the requests that wait are the last ones parsed, in the order in which they
    were parsed: no handler is given a request twice, out of turn, or changed.
  */
  lemma {:induction false} RequestsWaitInOrder(s: Sys, n: nat)
    requires Reachable(s, n) && !s.over
    ensures RespqIsNext(s)
    decreases n
  {
    hide Step, Init, Reachable, RespqIsNext, Sum;
    if n == 0 {
      NothingWaits(s);
    } else {
      var r, e := ReachableLast(s, n);
      RequestsWaitInOrder(r, n - 1);
      match e
      case Run(i, ch) =>
        OneParser(r, n - 1);
        StepKeepsNext(r, i, ch);
    }
  }

  lemma NothingWaits(s: Sys)
    requires Reachable(s, 0)
    ensures RespqIsNext(s)
  {
    OutsOne(RecvArm);
  }

  lemma OneParser(s: Sys, n: nat)
    requires Reachable(s, n) && !s.over
    ensures Sum(Parsing, s.tasks) <= 1
  {
    hide Reachable, Sum;
    ReachableHasInv(s, n);
  }
}
