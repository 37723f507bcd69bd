/** What the IOCP server answers, byte for byte, under every interleaving of its Respond handlers. */
module IocpAnswers {
  import opened Text
  import opened StreamParser
  import opened StreamTheorems
  import opened Segments
  import opened Payload
  import opened IocpConnection
  import opened IocpProtocol
  import opened IocpInvariant
  import opened IocpTheorems
  import opened IocpBudget

  // ------------------------------------------------------------ the shape of a step

  /** What the steps of the sender leave behind. */
  lemma SenderShape(s: Sys, i: nat, ch: Choice) returns (next: seq<Task>)
    requires i < |s.tasks| && Fits(s) && !Step(s, i, ch).over
    requires var t := s.tasks[i]; t.KickQueued? || t.KickSend? || t.SendPosted? || t.SendDone?
    ensures var v := Step(s, i, ch);
            && v.tasks == Replace(s.tasks, i, next) && v.h.enqueued == s.h.enqueued
            && (forall k :: 0 <= k < |next| ==> next[k].KickSend? || next[k].SendPosted? || next[k].SendDone? || next[k].KickQueued?)
  {
    hide Replace, StartSend, CompleteSend, FailSend;
    var c := s.c;
    match s.tasks[i]
    case KickQueued => next := When(CanSend(c), KickSend);
    case KickSend => next := if ch.ok then [SendPosted] else [];
    case SendPosted => next := [SendDone(c.inflightEor)] + When(!c.kickPending && CompleteSend(c).txq != [], KickQueued);
    case SendDone(_) => next := [];
  }

  /** A step replaces one task; what it leaves behind, and what it does outside the Respond handler. */
  lemma {:induction false} StepShape(s: Sys, i: nat, ch: Choice) returns (next: seq<Task>)
    requires i < |s.tasks| && Fits(s) && !Step(s, i, ch).over && !Responder(s.tasks[i])
    ensures var v := Step(s, i, ch);
            && v.tasks == Replace(s.tasks, i, next) && v.h.enqueued == s.h.enqueued
            && (forall k :: 0 <= k < |next| ==> !next[k].RespHead? && (next[k].RespSend? ==> !next[k].half))
            && (!Receive(s.tasks[i]) ==> forall k :: 0 <= k < |next| ==> !Receive(next[k]))
  {
    hide Replace, StepKick, StepIssueSend, StepSent, StepServed, Feed, TakenSegments, TakeSegments, PublishRecv, FinishProcess, EnqueueRequest,
         DrainRequests, RecheckRespond;
    var c := s.c;
    match s.tasks[i]
    case RecvPosted => next := [RecvArm] + When(!c.parseInflight, ProcQueued);
    case RecvArm => next := if c.closing then [] else [RecvIssue];
    case RecvIssue => next := if ch.ok then [RecvPosted] else [];
    case ProcQueued => next := [ProcLoop(0)];
    case ProcLoop(p) =>
      next := if TakenSegments(c) == [] then [ProcFinish] else [ProcRun(TakenSegments(c), p)];
    case ProcRun(segs, p) =>
      next := if segs == [] then [ProcFinish] else [ProcEmit(Feed(s.http, segs[0]).emitted, segs[1..], p)];
    case ProcEmit(out, segs, p) =>
      next := if out != [] then [ProcEmit(out[1..], segs, p)] + When(!c.respondInflight, RespQueued)
              else if p + 1 >= PROC_MAX_SEGMENTS then [ProcFinish]
              else if segs != [] then [ProcRun(segs, p + 1)]
              else [if ch.timeUp then ProcFinish else ProcLoop(p + 1)];
    case ProcFinish => next := When(c.rxq != [], ProcRepost);
    case ProcRepost => next := [ProcQueued];
    case RespQueued => next := [RespSend(|c.respq|, false)];
    case RespRecheck => next := When(c.respq != [] && !c.respondInflight, RespQueued);
    case _ => next := SenderShape(s, i, ch);
  }

  /** A Respond handler behind its first lock section. */
  predicate Responder(t: Task) { t.RespSend? || t.RespHead? }

  /** A receive, outstanding or about to be posted. */
  predicate Receive(t: Task) { t.RecvPosted? || t.RecvArm? || t.RecvIssue? }

  lemma {:induction false} SumNothing(k: Kind, ts: seq<Task>)
    requires forall i :: 0 <= i < |ts| ==> Weight(k, ts[i]) == 0
    ensures Sum(k, ts) == 0
    decreases |ts|
  {
    hide Weight;
    if ts != [] {
      SumNothing(k, ts[1..]);
    }
  }

  // ------------------------------------------------------------ every answer is one of two texts

  /** Every segment is a head or a body, as its mark says. */
  ghost predicate HeadsAndBodies(q: seq<OwnedBuf>) {
    forall i :: 0 <= i < |q| ==> if q[i].eor then IsBody(q[i]) else IsHead(q[i], true) || IsHead(q[i], false)
  }

  /** No front of the queue has more bodies than heads. */
  ghost predicate HeadsFirst(q: seq<OwnedBuf>) {
    forall k :: 0 <= k <= |q| ==> 2 * Eors(q[..k]) <= k
  }

  /** A head has been enqueued for every body, and one more for each handler between the two. */
  ghost predicate Paired(q: seq<OwnedBuf>, ts: seq<Task>) {
    |q| == 2 * Eors(q) + Sum(Halves, ts)
  }

  ghost predicate AnswersOk(s: Sys) {
    HeadsAndBodies(s.h.enqueued) && HeadsFirst(s.h.enqueued) && Paired(s.h.enqueued, s.tasks)
  }

  lemma {:induction false} EnqueueOne(q: seq<OwnedBuf>, buf: OwnedBuf)
    requires HeadsAndBodies(q) && HeadsFirst(q) && HeadsAndBodies([buf]) && 2 * Eors(q + [buf]) <= |q| + 1
    ensures HeadsAndBodies(q + [buf]) && HeadsFirst(q + [buf])
  {
    hide Eors, IsHead, IsBody;
    var r := q + [buf];
    assert [buf][0] == buf;
    forall k | 0 <= k <= |r| ensures 2 * Eors(r[..k]) <= k {
      if k <= |q| { assert r[..k] == q[..k]; } else { assert r[..k] == r; }
    }
  }

  lemma HeadIsText(keep: bool)
    ensures IsHead(OwnedBuf(if keep then HEAD_KEEP else HEAD_CLOSE, false), keep)
  {
    ConstantsAreTexts();
  }

  lemma BodyIsText()
    ensures IsBody(OwnedBuf(BODY_TEXT, true))
  {
    ConstantsAreTexts();
  }

  /** A head is enqueued where none was out, or a body behind it. */
  lemma PublishKeepsAnswers(s: Sys, i: nat, next: Task, buf: OwnedBuf)
    requires AnswersOk(s) && i < |s.tasks| && next.RespSend? && HeadsAndBodies([buf])
    requires Weight(Halves, s.tasks[i]) == B(buf.eor) && next.half == !buf.eor
    ensures AnswersOk(Publish(s, i, next, buf))
  {
    hide Sum, Replace, Eors, HeadsAndBodies, HeadsFirst;
    Became(s.tasks, i, next, !s.c.kickPending, KickQueued);
    EorsAppend(s.h.enqueued, [buf]);
    EorsOne(buf);
    EnqueueOne(s.h.enqueued, buf);
  }

  lemma OneText(buf: OwnedBuf)
    requires if buf.eor then IsBody(buf) else IsHead(buf, true) || IsHead(buf, false)
    ensures HeadsAndBodies([buf])
  {
  }

  lemma RespondKeepsAnswers(s: Sys, i: nat, ch: Choice)
    requires AnswersOk(s) && i < |s.tasks| && Responder(s.tasks[i]) && (s.tasks[i].RespSend? && s.tasks[i].half ==> s.tasks[i].left > 0)
    requires Fits(s)
    ensures AnswersOk(Step(s, i, ch))
  {
    hide AnswersOk, Publish, Become, HeadsAndBodies, IsHead, IsBody, ReadKeepAlive;
    match s.tasks[i]
    case RespSend(left, half) =>
      if left == 0 {
        MoveKeepsAnswers(s, i, RespRecheck);
      } else if half {
        BodyIsText();
        OneText(OwnedBuf(BODY_TEXT, true));
        PublishKeepsAnswers(s, i, RespSend(left - 1, false), OwnedBuf(BODY_TEXT, true));
      } else {
        MoveKeepsAnswers(s, i, RespHead(left, ReadKeepAlive(s, ch.seen) && BelowLimit(s.c.served, s.limit)));
      }
    case RespHead(left, keep) =>
      HeadIsText(keep);
      OneText(OwnedBuf(if keep then HEAD_KEEP else HEAD_CLOSE, false));
      PublishKeepsAnswers(s, i, RespSend(left, true), OwnedBuf(if keep then HEAD_KEEP else HEAD_CLOSE, false));
  }

  lemma MoveKeepsAnswers(s: Sys, i: nat, next: Task)
    requires AnswersOk(s) && i < |s.tasks| && Weight(Halves, s.tasks[i]) == 0 && (next == RespRecheck || next.RespHead?)
    ensures AnswersOk(Become(s, i, s.c, [next]))
  {
    hide Sum, Replace, Eors, HeadsAndBodies, HeadsFirst;
    Became(s.tasks, i, next, false, RespRecheck);
  }

  /** A handler that has chosen or enqueued a head has a response to finish. */
  ghost predicate HalvesHaveWork(ts: seq<Task>) {
    forall i :: 0 <= i < |ts| && (ts[i].RespHead? || (ts[i].RespSend? && ts[i].half)) ==> ts[i].left > 0
  }

  lemma ReplaceKeepsWork(ts: seq<Task>, i: nat, next: seq<Task>)
    requires i < |ts| && HalvesHaveWork(ts) && HalvesHaveWork(next)
    ensures HalvesHaveWork(Replace(ts, i, next))
  {
  }

  lemma RespondKeepsWork(s: Sys, i: nat, ch: Choice)
    requires HalvesHaveWork(s.tasks) && i < |s.tasks| && Responder(s.tasks[i]) && Fits(s)
    ensures HalvesHaveWork(Step(s, i, ch).tasks)
  {
    hide Replace, ReadKeepAlive;
    var kick := When(!s.c.kickPending, KickQueued);
    match s.tasks[i]
    case RespSend(left, half) =>
      if left == 0 {
        ReplaceKeepsWork(s.tasks, i, [RespRecheck]);
      } else if half {
        ReplaceKeepsWork(s.tasks, i, [RespSend(left - 1, false)] + kick);
      } else {
        ReplaceKeepsWork(s.tasks, i, [RespHead(left, ReadKeepAlive(s, ch.seen) && BelowLimit(s.c.served, s.limit))]);
      }
    case RespHead(left, _) => ReplaceKeepsWork(s.tasks, i, [RespSend(left, true)] + kick);
  }

  lemma StepKeepsAnswers(s: Sys, i: nat, ch: Choice)
    requires AnswersOk(s) && HalvesHaveWork(s.tasks) && i < |s.tasks| && Fits(s) && !Step(s, i, ch).over
    ensures AnswersOk(Step(s, i, ch)) && HalvesHaveWork(Step(s, i, ch).tasks)
  {
    hide Sum, Replace, Eors, HeadsAndBodies, HeadsFirst, AnswersOk, Step;
    if Responder(s.tasks[i]) {
      RespondKeepsAnswers(s, i, ch);
      RespondKeepsWork(s, i, ch);
    } else {
      var next := StepShape(s, i, ch);
      OtherKeepsAnswers(s, i, next, Step(s, i, ch));
      ReplaceKeepsWork(s.tasks, i, next);
    }
  }

  lemma {:induction false} OtherKeepsAnswers(s: Sys, i: nat, next: seq<Task>, v: Sys)
    requires AnswersOk(s) && i < |s.tasks| && !Responder(s.tasks[i])
    requires v.tasks == Replace(s.tasks, i, next) && v.h.enqueued == s.h.enqueued
    requires forall k :: 0 <= k < |next| ==> next[k].RespSend? ==> !next[k].half
    ensures AnswersOk(v)
  {
    hide Sum, Replace, Eors, HeadsAndBodies, HeadsFirst;
    SumReplace(Halves, s.tasks, i, next);
    SumNothing(Halves, next);
  }

  lemma {:induction false} ReachableAnswers(s: Sys, n: nat)
    requires Reachable(s, n) && !s.over
    ensures AnswersOk(s) && HalvesHaveWork(s.tasks)
    decreases n
  {
    hide Inv, Step, Init, Reachable, AnswersOk, HalvesHaveWork;
    if n == 0 {
      FreshAnswers(s);
    } else {
      var r, e := ReachableLast(s, n);
      ReachableAnswers(r, n - 1);
      match e
      case Run(i, ch) => StepKeepsAnswers(r, i, ch);
    }
  }

  lemma {:induction false} FreshAnswers(s: Sys)
    requires Reachable(s, 0)
    ensures AnswersOk(s) && HalvesHaveWork(s.tasks)
  {
    SumOne(Halves, RecvArm);
    assert Eors([]) == 0;
  }

  /** In every reachable state what has been enqueued is heads and bodies of responses, a head before every body. */
  lemma {:induction false} AnswersAreTexts(s: Sys, n: nat)
    requires Reachable(s, n) && !s.over
    ensures HeadsAndBodies(s.h.enqueued) && HeadsFirst(s.h.enqueued)
  {
    ReachableAnswers(s, n);
  }

  /** At rest on a live connection there are as many heads as bodies, one each for every request. */
  lemma {:induction false} RestHasPairs(s: Sys, n: nat)
    requires Reachable(s, n) && !s.over && !s.c.closing && Quiescent(s)
    ensures |s.h.sent| == 2 * |s.h.emitted| && s.h.sent == s.h.enqueued
    ensures HeadsAndBodies(s.h.sent) && HeadsFirst(s.h.sent)
  {
    hide Reachable, Eors, FeedAll, HeadsAndBodies, HeadsFirst;
    QuiescenceMeansDelivery(s, n);
    ReachableAnswers(s, n);
    QuietSums(Halves, s.tasks);
  }

  /** One request is answered, under every schedule, by one response and nothing else. */
  lemma {:induction false} OneRequestIsAnswered(s: Sys, n: nat) returns (keep: bool)
    requires Reachable(s, n) && !s.over && !s.c.closing && Quiescent(s) && |s.h.emitted| == 1
    ensures Answering(s.h.sent, [keep]) && Wire(s.h.sent) == ResponseText(keep)
  {
    hide Reachable, HeadText;
    RestHasPairs(s, n);
    var q := s.h.sent;
    assert q[..1] == [q[0]] && q == [q[0], q[1]];
    EorsOne(q[0]);
    assert 2 * Eors(q[..1]) <= 1;
    QuietEors(s, n);
    EorsAppend([q[0]], [q[1]]);
    EorsOne(q[1]);
    assert [q[0]] + [q[1]] == q;
    keep := q[0].bytes == HeadText(true);
    assert q[1..] == [q[1]] && [q[1]][1..] == [];
    EmptyBack(q[1].bytes);
    assert Wire([q[1]]) == q[1].bytes + "";
  }

  lemma {:induction false} QuietEors(s: Sys, n: nat)
    requires Reachable(s, n) && !s.over && !s.c.closing && Quiescent(s)
    ensures Eors(s.h.sent) == |s.h.emitted|
  {
    hide Reachable, Eors, FeedAll;
    QuiescenceMeansDelivery(s, n);
  }

  // ------------------------------------------------------------ handlers one at a time

  /** In no state of the run two Respond handlers are at work. */
  ghost predicate Exclusive(run: seq<Sys>) {
    forall i :: 0 <= i < |run| ==> Sum(Responding, run[i].tasks) <= 1
  }

  /** Heads and bodies take turns. */
  ghost predicate TakeTurns(q: seq<OwnedBuf>) {
    forall k :: 0 <= k < |q| ==> (q[k].eor <==> k % 2 == 1)
  }

  lemma {:induction false} HalvesRespond(ts: seq<Task>)
    ensures Sum(Halves, ts) <= Sum(Responding, ts)
  {
    if ts != [] {
      HalvesRespond(ts[1..]);
    }
  }

  lemma {:induction false} StepTakesTurns(s: Sys, i: nat, ch: Choice)
    requires AnswersOk(s) && TakeTurns(s.h.enqueued) && Sum(Responding, s.tasks) <= 1
    requires i < |s.tasks| && Fits(s) && !Step(s, i, ch).over
    ensures TakeTurns(Step(s, i, ch).h.enqueued)
  {
    hide Sum, Replace, Eors, HeadsAndBodies, HeadsFirst, ReadKeepAlive;
    if Responder(s.tasks[i]) {
      SumReplace(Halves, s.tasks, i, []);
      SumReplace(Responding, s.tasks, i, []);
      HalvesRespond(Replace(s.tasks, i, []));
      SumNothing(Halves, []);
      SumNothing(Responding, []);
    } else {
      var next := StepShape(s, i, ch);
    }
  }

  lemma {:induction false} PrefixIsRun(run: seq<Sys>, n: nat)
    requires IsRun(run) && Exclusive(run) && n + 1 < |run|
    ensures IsRun(run[..n + 1]) && Exclusive(run[..n + 1])
  {
    hide Initial, Sum;
    var r := run[..n + 1];
    forall i | 0 <= i < |r| - 1 ensures Linked(r, i) { assert Linked(run, i); }
  }

  lemma {:induction false} RunTakesTurns(run: seq<Sys>)
    requires IsRun(run) && Exclusive(run) && !run[|run| - 1].over
    ensures TakeTurns(run[|run| - 1].h.enqueued)
    decreases |run|
  {
    hide Next, Enabled, Sum, TakeTurns, Inv, Step, AnswersOk;
    var n := |run| - 1;
    if n == 0 {
      NothingTakesTurns(run[0]);
    } else {
      assert Linked(run, n - 1);
      var s := run[n - 1];
      var e :| Enabled(s, e) && run[n] == Next(s, e);
      PrefixIsRun(run, n - 1);
      var shorter := run[..n];
      EnabledIsOpen(s, e);
      RunTakesTurns(shorter);
      assert Reachable(s, n - 1) by { assert IsRun(shorter) && |shorter| == n && shorter[n - 1] == s; }
      ReachableAnswers(s, n - 1);
      NextTakesTurns(s, e);
    }
  }

  lemma {:induction false} EnabledIsOpen(s: Sys, e: Event)
    requires Enabled(s, e)
    ensures !s.over
  {
  }

  lemma {:induction false} NextTakesTurns(s: Sys, e: Event)
    requires AnswersOk(s) && TakeTurns(s.h.enqueued) && Sum(Responding, s.tasks) <= 1
    requires Enabled(s, e) && Fits(s) && !Next(s, e).over
    ensures TakeTurns(Next(s, e).h.enqueued)
  {
    hide Step, AnswersOk, Sum, TakeTurns;
    match e
    case Run(i, ch) => StepTakesTurns(s, i, ch);
  }

  lemma {:induction false} NothingTakesTurns(s: Sys)
    requires Initial(s)
    ensures TakeTurns(s.h.enqueued)
  {
  }

  /** Two segments in turn are a response, in front of those that follow. */
  lemma PairInFront(q: seq<OwnedBuf>, keep: bool, keeps: seq<bool>)
    requires |q| >= 2 && IsHead(q[0], keep) && IsBody(q[1]) && Answering(q[2..], keeps)
    ensures Answering(q, [keep] + keeps)
  {
    hide IsHead, IsBody;
    forall k | 0 <= k < |keeps| + 1 ensures IsHead(q[2 * k], ([keep] + keeps)[k]) && IsBody(q[2 * k + 1]) {
      if k > 0 { assert IsHead(q[2..][2 * (k - 1)], keeps[k - 1]) && IsBody(q[2..][2 * (k - 1) + 1]); }
    }
  }

  lemma {:induction false} TurnsAreResponses(q: seq<OwnedBuf>) returns (keeps: seq<bool>)
    requires HeadsAndBodies(q) && TakeTurns(q) && |q| % 2 == 0
    ensures Answering(q, keeps)
    decreases |q|
  {
    hide HeadText, Answering;
    if q == [] {
      keeps := [];
      NoAnswers();
    } else {
      assert !q[0].eor && q[1].eor;
      var rest := q[2..];
      assert forall k :: 0 <= k < |rest| ==> rest[k] == q[k + 2];
      var tail := TurnsAreResponses(rest);
      var keep := q[0].bytes == HeadText(true);
      keeps := [keep] + tail;
      PairInFront(q, keep, tail);
    }
  }

  /** When Respond handlers do not overlap, the client gets one whole response for every request, one behind the other. */
  lemma {:induction false} RequestsAreAnsweredInTurn(run: seq<Sys>) returns (keeps: seq<bool>)
    requires IsRun(run) && Exclusive(run)
    requires var s := run[|run| - 1]; !s.over && !s.c.closing && Quiescent(s)
    ensures var s := run[|run| - 1]; |keeps| == |s.h.emitted| && Answering(s.h.sent, keeps) && Wire(s.h.sent) == Responses(keeps)
  {
    var s := run[|run| - 1];
    hide *;
    RunIsReach(run);
    RunTakesTurns(run);
    keeps := TurnsAtRest(s, |run| - 1);
  }

  lemma AnsweringLength(q: seq<OwnedBuf>, keeps: seq<bool>)
    requires Answering(q, keeps)
    ensures |q| == 2 * |keeps|
  {
  }

  lemma {:induction false} TurnsAtRest(s: Sys, n: nat) returns (keeps: seq<bool>)
    requires Reachable(s, n) && !s.over && !s.c.closing && Quiescent(s) && TakeTurns(s.h.enqueued)
    ensures |keeps| == |s.h.emitted| && Answering(s.h.sent, keeps) && Wire(s.h.sent) == Responses(keeps)
  {
    hide *;
    RestHasPairs(s, n);
    assert |s.h.sent| % 2 == 0;
    keeps := TurnsAreResponses(s.h.sent);
    AnsweringWire(s.h.sent, keeps);
    AnsweringLength(s.h.sent, keeps);
  }

  lemma {:induction false} RunIsReach(run: seq<Sys>)
    requires IsRun(run)
    ensures Reachable(run[|run| - 1], |run| - 1)
  {
    hide IsRun;
  }

  /**
    From bytes to bytes: a printed pipeline in at most sixteen segments, cut anywhere, is answered by one
    response a request; with one request this needs no assumption about the handlers.
  */
  lemma {:induction false} PipelineGetsItsBytes(run: seq<Sys>, ms: seq<Printed>) returns (keeps: seq<bool>)
    requires IsRun(run) && (Exclusive(run) || |ms| == 1)
    requires var s := run[|run| - 1];
             !s.over && !s.c.closing && Quiescent(s) && |s.h.received| <= 16
             && Flatten(s.h.received) == PrintAll(ms)
    requires forall i :: 0 <= i < |ms| ==> Printable(ms[i]) && ms[i].order != []
    ensures var q := run[|run| - 1].h.sent; |keeps| == |ms| && Answering(q, keeps) && Wire(q) == Responses(keeps)
  {
    var s := run[|run| - 1];
    hide *;
    RunIsReach(run);
    ShortPipelineIsAnswered(s, |run| - 1, ms);
    if |ms| == 1 {
      var keep := OneRequestIsAnswered(s, |run| - 1);
      keeps := [keep];
      OneResponse(keep);
    } else {
      keeps := RequestsAreAnsweredInTurn(run);
    }
  }
}
