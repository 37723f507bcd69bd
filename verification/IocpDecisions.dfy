/**
  Which head the IOCP server answers with, under every interleaving: what requests that agree ask for, and
  for a client that waits for each response exactly what each request asks for, below the keep-alive limit.
*/
module IocpDecisions {
  import opened Text
  import opened StreamParser
  import opened StreamTheorems
  import opened StreamBlocks
  import opened Segments
  import opened Payload
  import opened IocpConnection
  import opened IocpProtocol
  import opened IocpInvariant
  import opened IocpTheorems
  import opened IocpBudget
  import opened IocpRequests
  import opened IocpAnswers
  import opened IocpClosing

  // ------------------------------------------------------------ history only grows

  ghost predicate Grows(h: History, g: History) {
    (h.overrun ==> g.overrun) && h.received <= g.received && h.parsed <= g.parsed && h.enqueued <= g.enqueued
  }

  ghost predicate Extends(s: Sys, v: Sys) {
    s.limit == v.limit && s.c.served <= v.c.served && Grows(s.h, v.h)
  }

  lemma ExtendsTwice(s: Sys, u: Sys, v: Sys)
    requires Extends(s, u) && Extends(u, v)
    ensures Extends(s, v)
  {
  }

  lemma HistoryGrows(s: Sys, i: nat, ch: Choice)
    requires i < |s.tasks| && Fits(s)
    ensures Grows(s.h, Step(s, i, ch).h)
  {
    hide Replace, When, Feed, StartSend, CompleteSend, TakenSegments, TakeSegments, FinishProcess, DrainRequests, RecheckRespond,
         FailSend, StepRespond, StepHead, StepRecv, StepParse, StepEmit;
    match s.tasks[i]
    case RecvPosted => RecvGrows(s, i, ch);
    case ProcRun(segs, p) => ParseGrows(s, i, segs, p);
    case ProcEmit(out, segs, p) => EmitGrows(s, i, out, segs, p, ch);
    case RespSend(left, half) => RespondGrows(s, i, left, half, ch);
    case RespHead(left, keep) => HeadGrows(s, i, left, keep);
    case _ =>
  }

  lemma RecvGrows(s: Sys, i: nat, ch: Choice)
    requires i < |s.tasks|
    ensures Grows(s.h, StepRecv(s, i, ch).h)
  {
    hide Replace;
  }

  lemma ParseGrows(s: Sys, i: nat, segs: seq<string>, p: nat)
    requires i < |s.tasks|
    ensures Grows(s.h, StepParse(s, i, segs, p).h)
  {
    hide Replace, Feed;
  }

  lemma EmitGrows(s: Sys, i: nat, out: seq<Request>, segs: seq<string>, p: nat, ch: Choice)
    requires i < |s.tasks|
    ensures Grows(s.h, StepEmit(s, i, out, segs, p, ch).h)
  {
    hide Replace;
  }

  lemma RespondGrows(s: Sys, i: nat, left: nat, half: bool, ch: Choice)
    requires i < |s.tasks|
    ensures Grows(s.h, StepRespond(s, i, left, half, ch).h)
  {
    hide Replace, ReadKeepAlive;
  }

  lemma HeadGrows(s: Sys, i: nat, left: nat, keep: bool)
    requires i < |s.tasks|
    ensures Grows(s.h, StepHead(s, i, left, keep).h)
  {
    hide Replace;
  }

  lemma NextExtends(s: Sys, e: Event)
    requires Enabled(s, e) && Fits(s)
    ensures Extends(s, Next(s, e))
  {
    hide Step;
    match e
    case Run(i, ch) =>
      HistoryGrows(s, i, ch);
      ClosingIff(s, i, ch);
    case IdleSweep =>
  }

  /** A part of a run, up to a state that has not been recycled. */
  lemma {:induction false} RunExtends(run: seq<Sys>, a: nat, b: nat)
    requires IsRun(run) && a <= b < |run| && !run[b].over
    ensures Extends(run[a], run[b]) && !run[a].over && Reachable(run[b], b)
    decreases b
  {
    hide Next, Enabled, Initial, Extends;
    var upTo := run[..b + 1];
    forall i | 0 <= i < |upTo| - 1 ensures Linked(upTo, i) { assert Linked(run, i); }
    assert IsRun(upTo);
    assert Reachable(run[b], b);
    if a < b {
      assert Linked(run, b - 1);
      var s := run[b - 1];
      var e :| Enabled(s, e) && run[b] == Next(s, e);
      EnabledIsOpen(s, e);
      NextExtends(s, e);
      RunExtends(run, a, b - 1);
      ExtendsTwice(run[a], s, run[b]);
    } else {
      ExtendsSelf(run[a]);
    }
  }

  lemma ExtendsSelf(s: Sys)
    ensures Extends(s, s)
  {
  }

  // ------------------------------------------------------------ what a handler reads

  /** Requests in the hands of the Process handler and responses owed by one Respond handler are unanswered. */
  lemma {:induction false} OutsAreUnanswered(ts: seq<Task>)
    ensures |Outs(ts)| <= Sum(Unanswered, ts)
  {
    if ts != [] {
      OutsAreUnanswered(ts[1..]);
    }
  }

  lemma OwedAreUnanswered(ts: seq<Task>, i: nat)
    requires i < |ts| && Responder(ts[i])
    ensures |Outs(ts)| + ts[i].left <= Sum(Unanswered, ts)
  {
    hide Outs, Sum;
    var a, b := ts[..i], ts[i + 1..];
    assert ts == a + [ts[i]] + b;
    OutsAppend(a + [ts[i]], b);
    OutsAppend(a, [ts[i]]);
    OutsOne(ts[i]);
    SumAppend(Unanswered, a + [ts[i]], b);
    SumAppend(Unanswered, a, [ts[i]]);
    SumOne(Unanswered, ts[i]);
    OutsAreUnanswered(a);
    OutsAreUnanswered(b);
  }

  /** Where a handler owes a response, fewer requests have been answered than were handed on. */
  lemma OwedCounts(s: Sys, i: nat)
    requires Inv(s) && i < |s.tasks| && Responder(s.tasks[i]) && s.tasks[i].left > 0
    ensures |Outs(s.tasks)| + Eors(s.h.enqueued) < |s.h.emitted|
    ensures s.c.served <= Eors(s.h.enqueued)
  {
    hide InOrder, Sum, Eors, Awake, BatchStable, Tokens, Outs;
    OwedAreUnanswered(s.tasks, i);
    EorsAppend(s.h.sent, s.c.txq);
  }

  /** The requests `ms` have been received and served, and some bytes of the requests `more` behind them, which agree. */
  ghost predicate Underway(s: Sys, ms: seq<Printed>, more: seq<Printed>, said: bool) {
    && (forall i :: 0 <= i < |ms| ==> Printable(ms[i]) && ms[i].order != [])
    && (forall i :: 0 <= i < |more| ==> Printable(more[i]) && more[i].order != [] && said == !AsksToClose(more[i].req.headers))
    && |PrintAll(ms)| <= |Flatten(s.h.parsed)| && |ms| <= Eors(s.h.enqueued) && |ms| <= s.c.served
    && exists rest :: Flatten(s.h.received) + rest == PrintAll(ms + more)
  }

  lemma FlattenSplit(a: seq<string>, b: seq<string>, c: seq<string>, rest: string)
    ensures Flatten(a + b + c) + rest == Flatten(a) + (Flatten(b + c) + rest)
  {
    assert a + b + c == a + (b + c);
    FlattenAppend(a, b + c);
    Assoc(Flatten(a), Flatten(b + c), rest);
  }

  lemma ParserIsWithin(s: Sys, ms: seq<Printed>, more: seq<Printed>, said: bool)
    requires Inv(s) && !s.h.overrun && Underway(s, ms, more, said)
    ensures |ms| <= |s.h.emitted| && s.h.emitted <= Requests(ms + more)
    ensures |s.h.emitted| > |ms| ==> s.http.keepAlive == said
  {
    hide Core, Sum, Local, FeedAll, Printable, AsksToClose, PrintAll, Eors, Flatten, Requests;
    var rest :| Flatten(s.h.received) + rest == PrintAll(ms + more);
    FlattenSplit(s.h.parsed, Local(s.tasks), s.c.rxq, rest);
    SomewhereInPipeline(ms, more, s.h.parsed, Flatten(Local(s.tasks) + s.c.rxq) + rest, said);
  }

  lemma {:induction false} RequestAt(ms: seq<Printed>, k: nat)
    requires k < |ms|
    ensures Requests(ms)[k] == ms[k].req
  {
    if k > 0 { RequestAt(ms[1..], k - 1); }
  }

  /** Whatever a handler reads that owes a response, it is what the requests behind `ms` agree on. */
  lemma ReadIsSaid(s: Sys, i: nat, ms: seq<Printed>, more: seq<Printed>, said: bool, seen: nat)
    requires Inv(s) && !s.h.overrun && Underway(s, ms, more, said)
    requires i < |s.tasks| && Responder(s.tasks[i]) && s.tasks[i].left > 0
    ensures ReadKeepAlive(s, seen) == said
    ensures |ms| <= s.c.served < |ms| + |more|
  {
    hide Inv, Outs, Printable, AsksToClose, PrintAll, Eors, Flatten, Requests, KeepAliveOf;
    ParserIsWithin(s, ms, more, said);
    OwedCounts(s, i);
    if |ms| <= seen < |s.h.emitted| {
      RequestAt(ms + more, seen);
      assert s.h.emitted[seen] == Requests(ms + more)[seen];
      PolicyMeaning(more[seen - |ms|].req.headers);
    }
  }

  // ------------------------------------------------------------ heads

  /** The decision is that of the requests, with a count of served responses from `low` to `high`. */
  predicate Chosen(keep: bool, said: bool, low: nat, high: nat, limit: nat) {
    (Kept(said, high, limit) ==> keep) && (keep ==> Kept(said, low, limit))
  }

  ghost predicate IsChosenHead(b: OwnedBuf, said: bool, low: nat, high: nat, limit: nat) {
    exists keep :: Chosen(keep, said, low, high, limit) && IsHead(b, keep)
  }

  /** All heads behind the first `from` segments, and those not enqueued yet. */
  ghost predicate HeadsChosen(s: Sys, from: nat, said: bool, low: nat, high: nat) {
    && (forall k :: from <= k < |s.h.enqueued| && !s.h.enqueued[k].eor ==> IsChosenHead(s.h.enqueued[k], said, low, high, s.limit))
    && (forall k :: 0 <= k < |s.tasks| && s.tasks[k].RespHead? ==> Chosen(s.tasks[k].keep, said, low, high, s.limit))
  }

  lemma PublishKeepsChosen(s: Sys, i: nat, next: Task, buf: OwnedBuf, from: nat, said: bool, low: nat, high: nat)
    requires HeadsChosen(s, from, said, low, high) && i < |s.tasks| && !next.RespHead?
    requires !buf.eor ==> IsChosenHead(buf, said, low, high, s.limit)
    ensures HeadsChosen(Publish(s, i, next, buf), from, said, low, high)
  {
    hide Chosen, IsChosenHead;
  }

  lemma MoveKeepsChosen(s: Sys, i: nat, next: seq<Task>, v: Sys, from: nat, said: bool, low: nat, high: nat)
    requires HeadsChosen(s, from, said, low, high) && i < |s.tasks|
    requires v.tasks == Replace(s.tasks, i, next) && v.h.enqueued == s.h.enqueued && v.limit == s.limit
    requires forall k :: 0 <= k < |next| && next[k].RespHead? ==> Chosen(next[k].keep, said, low, high, s.limit)
    ensures HeadsChosen(v, from, said, low, high)
  {
    hide Chosen, IsChosenHead;
  }

  lemma ReadIsChosen(said: bool, served: nat, low: nat, high: nat, limit: nat)
    requires low <= served <= high
    ensures Chosen(said && BelowLimit(served, limit), said, low, high, limit)
  {
  }

  lemma SendKeepsChosen(s: Sys, i: nat, ch: Choice, from: nat, ms: seq<Printed>, more: seq<Printed>, said: bool)
    requires Inv(s) && !s.h.overrun && Underway(s, ms, more, said) && more != [] && Fits(s)
    requires HeadsChosen(s, from, said, |ms|, |ms| + |more| - 1) && i < |s.tasks| && s.tasks[i].RespSend?
    ensures HeadsChosen(Step(s, i, ch), from, said, |ms|, |ms| + |more| - 1)
  {
    hide Inv, Underway, HeadsChosen, ReadKeepAlive, Replace, Publish, BelowLimit, Chosen, IsChosenHead;
    var low, high := |ms|, |ms| + |more| - 1;
    var left := s.tasks[i].left;
    if left == 0 {
      MoveKeepsChosen(s, i, [RespRecheck], Step(s, i, ch), from, said, low, high);
    } else if s.tasks[i].half {
      PublishKeepsChosen(s, i, RespSend(left - 1, false), OwnedBuf(BODY_TEXT, true), from, said, low, high);
    } else {
      ReadIsSaid(s, i, ms, more, said, ch.seen);
      ReadIsChosen(said, s.c.served, low, high, s.limit);
      MoveKeepsChosen(s, i, [RespHead(left, said && BelowLimit(s.c.served, s.limit))], Step(s, i, ch), from, said, low, high);
    }
  }

  lemma HeadKeepsChosen(s: Sys, i: nat, from: nat, said: bool, low: nat, high: nat)
    requires HeadsChosen(s, from, said, low, high) && i < |s.tasks| && s.tasks[i].RespHead?
    ensures HeadsChosen(StepHead(s, i, s.tasks[i].left, s.tasks[i].keep), from, said, low, high)
  {
    var keep := s.tasks[i].keep;
    assert Chosen(keep, said, low, high, s.limit);
    hide HeadsChosen, IsHead, Publish, Chosen;
    HeadIsText(keep);
    PublishKeepsChosen(s, i, RespSend(s.tasks[i].left, true), OwnedBuf(if keep then HEAD_KEEP else HEAD_CLOSE, false),
                       from, said, low, high);
  }

  lemma HeadStep(s: Sys, i: nat, ch: Choice)
    requires i < |s.tasks| && s.tasks[i].RespHead? && Fits(s)
    ensures Step(s, i, ch) == StepHead(s, i, s.tasks[i].left, s.tasks[i].keep)
  {
    hide StepHead;
  }

  lemma StepKeepsChosen(s: Sys, e: Event, from: nat, ms: seq<Printed>, more: seq<Printed>, said: bool)
    requires Inv(s) && !s.h.overrun && Underway(s, ms, more, said) && more != [] && Fits(s)
    requires HeadsChosen(s, from, said, |ms|, |ms| + |more| - 1) && Enabled(s, e) && !Next(s, e).over
    ensures HeadsChosen(Next(s, e), from, said, |ms|, |ms| + |more| - 1)
  {
    hide Inv, Underway, Step, HeadsChosen;
    match e
    case Run(i, ch) =>
      if s.tasks[i].RespSend? {
        SendKeepsChosen(s, i, ch, from, ms, more, said);
      } else if s.tasks[i].RespHead? {
        HeadKeepsChosen(s, i, from, said, |ms|, |ms| + |more| - 1);
        HeadStep(s, i, ch);
      } else {
        ClosingIff(s, i, ch);
        var next := StepShape(s, i, ch);
        MoveKeepsChosen(s, i, next, Step(s, i, ch), from, said, |ms|, |ms| + |more| - 1);
      }
  }

  // ------------------------------------------------------------ between two rests

  /** A live connection at rest, or not started yet, that has received the printed requests. */
  ghost predicate Stop(s: Sys, n: nat, ms: seq<Printed>) {
    && Reachable(s, n) && !s.over && (n == 0 || (!s.c.closing && Quiescent(s))) && !s.h.overrun
    && (forall i :: 0 <= i < |ms| ==> Printable(ms[i]) && ms[i].order != [])
    && Flatten(s.h.received) == PrintAll(ms)
  }

  lemma PrintIsNotEmpty(m: Printed)
    ensures Print(m.req, m.order) != ""
  {
    hide Lines, HeaderLines;
  }

  lemma NothingPrinted(ms: seq<Printed>)
    ensures PrintAll(ms) == "" <==> ms == []
  {
    hide Print;
    if ms != [] { PrintIsNotEmpty(ms[0]); }
  }

  /** At a stop everything received has been parsed, answered and served, by a head and a body for each request. */
  lemma StopFacts(s: Sys, n: nat, ms: seq<Printed>)
    requires Stop(s, n, ms)
    ensures Flatten(s.h.parsed) == PrintAll(ms) && Eors(s.h.enqueued) == |ms| == s.c.served
    ensures s.h.sent == s.h.enqueued && |s.h.sent| == 2 * |ms|
    ensures forall k :: 0 <= k < |s.tasks| ==> !s.tasks[k].RespHead?
  {
    if n == 0 {
      hide PrintAll, Printable;
      NothingPrinted(ms);
    } else {
      hide Reachable, Printable, PrintAll, Eors, FeedAll, HeadsAndBodies, HeadsFirst;
      QuiescenceMeansDelivery(s, n);
      PipelineIsAnswered(s, n, ms);
      RestHasPairs(s, n);
      QuietParsed(s, n);
    }
  }

  lemma QuietParsed(s: Sys, n: nat)
    requires Reachable(s, n) && !s.over && Quiescent(s) && s.c.rxq == [] && !s.h.overrun
    ensures s.h.received == s.h.parsed
  {
    hide Reachable, InOrder, Core, Quiescent;
    ReachableHasInv(s, n);
    QuietOrder(s);
  }

  lemma FlattenGrows(a: seq<string>, b: seq<string>)
    requires a <= b
    ensures Flatten(a) + Flatten(b[|a|..]) == Flatten(b)
  {
    assert a + b[|a|..] == b;
    FlattenAppend(a, b[|a|..]);
  }

  lemma EorsGrow(a: seq<OwnedBuf>, b: seq<OwnedBuf>)
    requires a <= b
    ensures Eors(a) <= Eors(b)
  {
    assert a + b[|a|..] == b;
    EorsAppend(a, b[|a|..]);
  }

  /** Every state behind a stop, and in front of one at which the requests `more` have been received too. */
  lemma UnderwayBetween(s: Sys, n: nat, r: Sys, t: Sys, ms: seq<Printed>, more: seq<Printed>, said: bool)
    requires Stop(s, n, ms) && Extends(s, r) && Extends(r, t)
    requires forall i :: 0 <= i < |more| ==> Printable(more[i]) && more[i].order != [] && said == !AsksToClose(more[i].req.headers)
    requires Flatten(t.h.received) == PrintAll(ms + more)
    ensures Underway(r, ms, more, said)
  {
    hide *;
    StopFacts(s, n, ms);
    GrowsUnfolds(s, r);
    GrowsUnfolds(r, t);
    FlattenGrows(s.h.parsed, r.h.parsed);
    FlattenGrows(r.h.received, t.h.received);
    EorsGrow(s.h.enqueued, r.h.enqueued);
    IsUnderway(s, n, r, ms, more, said, Flatten(t.h.received[|r.h.received|..]));
  }

  lemma GrowsUnfolds(s: Sys, r: Sys)
    requires Extends(s, r)
    ensures s.c.served <= r.c.served && s.h.parsed <= r.h.parsed && s.h.enqueued <= r.h.enqueued && s.h.received <= r.h.received
  {
  }

  lemma IsUnderway(s: Sys, n: nat, r: Sys, ms: seq<Printed>, more: seq<Printed>, said: bool, rest: string)
    requires Stop(s, n, ms)
    requires forall i :: 0 <= i < |more| ==> Printable(more[i]) && more[i].order != [] && said == !AsksToClose(more[i].req.headers)
    requires |PrintAll(ms)| <= |Flatten(r.h.parsed)| && |ms| <= Eors(r.h.enqueued) && |ms| <= r.c.served
    requires Flatten(r.h.received) + rest == PrintAll(ms + more)
    ensures Underway(r, ms, more, said)
  {
    hide Reachable, Quiescent, PrintAll, Flatten, Eors, Printable, AsksToClose;
  }

  /** Two stops of a run, and the requests received between them, which agree on whether to keep the connection. */
  ghost predicate Stretch(run: seq<Sys>, a: nat, b: nat, ms: seq<Printed>, more: seq<Printed>, said: bool) {
    && IsRun(run) && a <= b < |run| && more != []
    && Stop(run[a], a, ms) && Stop(run[b], b, ms + more) && b > 0
    && forall i :: 0 <= i < |more| ==> said == !AsksToClose(more[i].req.headers)
  }

  lemma {:induction false} RunIsChosen(run: seq<Sys>, a: nat, j: nat, b: nat, ms: seq<Printed>, more: seq<Printed>, said: bool)
    requires Stretch(run, a, b, ms, more, said) && a <= j <= b
    ensures HeadsChosen(run[j], |run[a].h.enqueued|, said, |ms|, |ms| + |more| - 1)
    decreases j
  {
    hide Next, Enabled, Extends, Underway, HeadsChosen, Reachable, PrintAll, Printable, AsksToClose, Flatten, Inv, Initial, Quiescent;
    RunExtends(run, a, b);
    if j == a {
      StopIsChosen(run[a], a, ms, said, |ms| + |more| - 1);
    } else {
      assert Linked(run, j - 1);
      var s := run[j - 1];
      var e :| Enabled(s, e) && run[j] == Next(s, e);
      assert !run[j].over by { RunExtends(run, j, b); }
      RunExtends(run, j - 1, b);
      RunExtends(run, a, j - 1);
      ReachableHasInv(s, j - 1);
      assert forall i :: 0 <= i < |more| ==> more[i] == (ms + more)[|ms| + i];
      UnderwayBetween(run[a], a, s, run[b], ms, more, said);
      OverrunStays(s, run[b]);
      RunIsChosen(run, a, j - 1, b, ms, more, said);
      StepKeepsChosen(s, e, |run[a].h.enqueued|, ms, more, said);
    }
  }

  lemma OverrunStays(s: Sys, v: Sys)
    requires Extends(s, v) && !v.h.overrun
    ensures !s.h.overrun
  {
  }

  lemma StopIsChosen(s: Sys, n: nat, ms: seq<Printed>, said: bool, high: nat)
    requires Stop(s, n, ms)
    ensures HeadsChosen(s, |s.h.enqueued|, said, |ms|, high)
  {
    StopFacts(s, n, ms);
  }

  // ------------------------------------------------------------ what the client is told

  /**
    Requests that agree: when all requests received since the connection was at rest keep it and the limit
    is not near, every head keeps it; when all of them close it, or the limit is reached, every head says so.
  */
  lemma {:induction false} HeadsSayWhatRequestsAgreeOn(run: seq<Sys>, a: nat, b: nat, ms: seq<Printed>, more: seq<Printed>, said: bool)
    requires Stretch(run, a, b, ms, more, said)
    ensures var q, limit := run[b].h.sent, run[b].limit;
            forall k :: 2 * |ms| <= k < |q| && !q[k].eor ==>
              && (Kept(said, |ms| + |more| - 1, limit) ==> IsHead(q[k], true))
              && (!Kept(said, |ms|, limit) ==> IsHead(q[k], false))
  {
    hide Stop, PrintAll, Printable, IsHead, Kept, AsksToClose, IsRun;
    StopFacts(run[a], a, ms);
    StopFacts(run[b], b, ms + more);
    RunIsChosen(run, a, b, b, ms, more, said);
  }

  /** The last two segments are a head and a body, when all others are heads and bodies of whole responses. */
  lemma LastPair(q: seq<OwnedBuf>, n: nat)
    requires HeadsAndBodies(q) && HeadsFirst(q) && |q| == 2 * n + 2 && Eors(q[..2 * n]) == n && Eors(q) == n + 1
    ensures !q[2 * n].eor && IsBody(q[2 * n + 1])
  {
    hide Eors, IsHead, IsBody;
    var p := q[..2 * n];
    assert q[..2 * n + 1] == p + [q[2 * n]] && q == q[..2 * n + 1] + [q[2 * n + 1]];
    EorsAppend(p, [q[2 * n]]);
    EorsOne(q[2 * n]);
    EorsAppend(q[..2 * n + 1], [q[2 * n + 1]]);
    EorsOne(q[2 * n + 1]);
    assert 2 * Eors(q[..2 * n + 1]) <= 2 * n + 1;
  }

  lemma WireOfPair(x: OwnedBuf, y: OwnedBuf)
    ensures Wire([x, y]) == x.bytes + y.bytes
  {
    assert [x, y][1..] == [y] && [y][1..] == [];
    assert Wire([y]) == y.bytes + "";
    EmptyBack(y.bytes);
  }

  lemma PairOnWire(q: seq<OwnedBuf>, n: nat, keep: bool)
    requires |q| == n + 2 && IsHead(q[n], keep) && IsBody(q[n + 1])
    ensures Wire(q) == Wire(q[..n]) + ResponseText(keep)
  {
    hide HeadText, Wire;
    assert q == q[..n] + [q[n], q[n + 1]];
    WireAppend(q[..n], [q[n], q[n + 1]]);
    WireOfPair(q[n], q[n + 1]);
  }

  /**
    A request that is received alone is answered with one response behind those sent before, which keeps the
    connection if and only if the request does not ask to close it and the limit allows one more request.
  */
  lemma {:induction false} NextRequestIsAnswered(run: seq<Sys>, a: nat, b: nat, ms: seq<Printed>, m: Printed)
    requires Stretch(run, a, b, ms, [m], !AsksToClose(m.req.headers))
    ensures Wire(run[b].h.sent)
         == Wire(run[a].h.sent) + ResponseText(Kept(!AsksToClose(m.req.headers), |ms|, run[b].limit))
  {
    var t := run[b];
    hide *;
    StretchFacts(run, a, b, ms, m);
    LastPair(t.h.sent, |ms|);
    HeadsSayWhatRequestsAgreeOn(run, a, b, ms, [m], !AsksToClose(m.req.headers));
    PairOnWire(t.h.sent, 2 * |ms|, Kept(!AsksToClose(m.req.headers), |ms|, t.limit));
  }

  lemma StretchFacts(run: seq<Sys>, a: nat, b: nat, ms: seq<Printed>, m: Printed)
    requires Stretch(run, a, b, ms, [m], !AsksToClose(m.req.headers))
    ensures var q := run[b].h.sent;
            && |q| == 2 * |ms| + 2 && run[a].h.sent == q[..2 * |ms|]
            && HeadsAndBodies(q) && HeadsFirst(q) && Eors(q[..2 * |ms|]) == |ms| && Eors(q) == |ms| + 1
  {
    hide Stop, PrintAll, Printable, AsksToClose, HeadsAndBodies, HeadsFirst, Eors, Linked, Initial, Reachable;
    StopFacts(run[a], a, ms);
    StopFacts(run[b], b, ms + [m]);
    StopIsLive(run[b], b, ms + [m]);
    RunExtends(run, a, b);
    AnswersAreTexts(run[b], b);
  }

  lemma StopIsLive(s: Sys, n: nat, ms: seq<Printed>)
    requires Stop(s, n, ms)
    ensures Reachable(s, n) && !s.over
  {
  }

  lemma SameDecisions(q: seq<OwnedBuf>, keeps: seq<bool>, keep: bool)
    requires Answering(q, keeps) && forall k :: 0 <= k < |q| && !q[k].eor ==> IsHead(q[k], keep)
    ensures keeps == seq(|keeps|, _ => keep)
  {
    TwoHeads();
    hide HeadText;
    forall k | 0 <= k < |keeps| ensures keeps[k] == keep {
      assert IsHead(q[2 * k], keeps[k]);
    }
  }

  lemma TwoHeads()
    ensures HeadText(true) != HeadText(false)
  {
    assert |HeadText(true)| != |HeadText(false)|;
  }

  /**
    From bytes to bytes: a printed pipeline of requests that agree, in at most sixteen segments cut anywhere,
    is answered by one response a request that says what they agree on, below or above the limit; with one
    request this needs no assumption about the handlers, and is exact.
  */
  lemma {:induction false} AgreedPipelineGetsItsBytes(run: seq<Sys>, ms: seq<Printed>, said: bool)
    requires IsRun(run) && |run| > 1 && (Exclusive(run) || |ms| == 1) && ms != []
    requires var s := run[|run| - 1];
             !s.over && !s.c.closing && Quiescent(s) && |s.h.received| <= 16 && Flatten(s.h.received) == PrintAll(ms)
    requires forall i :: 0 <= i < |ms| ==> Printable(ms[i]) && ms[i].order != [] && said == !AsksToClose(ms[i].req.headers)
    ensures var s := run[|run| - 1];
            && (Kept(said, |ms| - 1, s.limit) ==> Wire(s.h.sent) == Responses(seq(|ms|, _ => true)))
            && (!Kept(said, 0, s.limit) ==> Wire(s.h.sent) == Responses(seq(|ms|, _ => false)))
  {
    hide *;
    StartsAndStops(run, ms, said);
    var keeps := PipelineGetsItsBytes(run, ms);
    PipelineIsTold(run, ms, said, keeps);
  }

  lemma {:induction false} PipelineIsTold(run: seq<Sys>, ms: seq<Printed>, said: bool, keeps: seq<bool>)
    requires |run| > 1 && Stretch(run, 0, |run| - 1, [], ms, said) && |keeps| == |ms|
    requires var q := run[|run| - 1].h.sent; Answering(q, keeps) && Wire(q) == Responses(keeps)
    ensures var s := run[|run| - 1];
            && (Kept(said, |ms| - 1, s.limit) ==> Wire(s.h.sent) == Responses(seq(|ms|, _ => true)))
            && (!Kept(said, 0, s.limit) ==> Wire(s.h.sent) == Responses(seq(|ms|, _ => false)))
  {
    hide Kept, IsHead, Answering, Wire, Responses, AsksToClose, IsRun, Stop;
    var s := run[|run| - 1];
    HeadsSayWhatRequestsAgreeOn(run, 0, |run| - 1, [], ms, said);
    AllToldAlike(s.h.sent, keeps, said, s.limit);
  }

  /** Heads that all say the same are responses that do. */
  lemma AllToldAlike(q: seq<OwnedBuf>, keeps: seq<bool>, said: bool, limit: nat)
    requires Answering(q, keeps) && Wire(q) == Responses(keeps) && keeps != []
    requires forall k :: 0 <= k < |q| && !q[k].eor ==>
               && (Kept(said, |keeps| - 1, limit) ==> IsHead(q[k], true))
               && (!Kept(said, 0, limit) ==> IsHead(q[k], false))
    ensures Kept(said, |keeps| - 1, limit) ==> Wire(q) == Responses(seq(|keeps|, _ => true))
    ensures !Kept(said, 0, limit) ==> Wire(q) == Responses(seq(|keeps|, _ => false))
  {
    hide Kept, IsHead, Answering, Wire, Responses;
    if Kept(said, |keeps| - 1, limit) { SameDecisions(q, keeps, true); }
    if !Kept(said, 0, limit) { SameDecisions(q, keeps, false); }
  }

  lemma {:induction false} StartsAndStops(run: seq<Sys>, ms: seq<Printed>, said: bool)
    requires IsRun(run) && |run| > 1 && ms != []
    requires var s := run[|run| - 1];
             !s.over && !s.c.closing && Quiescent(s) && |s.h.received| <= 16 && Flatten(s.h.received) == PrintAll(ms)
    requires forall i :: 0 <= i < |ms| ==> Printable(ms[i]) && ms[i].order != [] && said == !AsksToClose(ms[i].req.headers)
    ensures Stretch(run, 0, |run| - 1, [], ms, said)
  {
    hide *;
    StartIsStop(run);
    EndIsStop(run, ms);
    assert [] + ms == ms;
    BothStops(run, ms, said);
  }

  lemma {:induction false} BothStops(run: seq<Sys>, ms: seq<Printed>, said: bool)
    requires IsRun(run) && |run| > 1 && ms != [] && Stop(run[0], 0, []) && Stop(run[|run| - 1], |run| - 1, [] + ms)
    requires forall i :: 0 <= i < |ms| ==> said == !AsksToClose(ms[i].req.headers)
    ensures Stretch(run, 0, |run| - 1, [], ms, said)
  {
    hide IsRun, Stop, AsksToClose;
  }

  lemma {:induction false} StartIsStop(run: seq<Sys>)
    requires IsRun(run) && |run| > 1 && !run[|run| - 1].over
    ensures Stop(run[0], 0, [])
  {
    RunExtends(run, 0, |run| - 1);
    RunExtends(run, 0, 0);
    hide Quiescent, Linked;
  }

  lemma {:induction false} EndIsStop(run: seq<Sys>, ms: seq<Printed>)
    requires IsRun(run) && |run| > 1
    requires var s := run[|run| - 1];
             !s.over && !s.c.closing && Quiescent(s) && |s.h.received| <= 16 && Flatten(s.h.received) == PrintAll(ms)
    requires forall i :: 0 <= i < |ms| ==> Printable(ms[i]) && ms[i].order != []
    ensures Stop(run[|run| - 1], |run| - 1, ms)
  {
    hide Quiescent, PrintAll, Printable, IsRun, Flatten, Reachable;
    RunExtends(run, |run| - 1, |run| - 1);
    FewSegmentsAreKept(run[|run| - 1], |run| - 1);
  }

  /** The run stops at the given places, having received one request more at each of them. */
  ghost predicate Lockstep(run: seq<Sys>, stops: seq<nat>, ms: seq<Printed>) {
    && IsRun(run) && |stops| == |ms| + 1 && stops[0] == 0
    && (forall k :: 0 <= k <= |ms| ==> stops[k] < |run| && Stop(run[stops[k]], stops[k], ms[..k]))
    && (forall k :: 0 <= k < |ms| ==> stops[k] < stops[k + 1])
  }

  /** The decisions for a client that waits for each response before it sends the next request. */
  ghost function Told(ms: seq<Printed>, limit: nat): seq<bool> {
    seq(|ms|, k requires 0 <= k < |ms| => Kept(!AsksToClose(ms[k].req.headers), k, limit))
  }

  lemma {:induction false} ResponsesAppend(ks: seq<bool>, keep: bool)
    ensures Responses(ks + [keep]) == Responses(ks) + ResponseText(keep)
  {
    hide ResponseText;
    if ks == [] {
      OneResponse(keep);
      assert [] + [keep] == [keep];
      EmptyFront(ResponseText(keep));
    } else {
      assert (ks + [keep])[1..] == ks[1..] + [keep];
      ResponsesAppend(ks[1..], keep);
      Assoc(ResponseText(ks[0]), Responses(ks[1..]), ResponseText(keep));
    }
  }

  /**
    A client that waits for each response gets, under every interleaving, exactly one response for every
    request, in order, and the k-th keeps the connection if and only if the k-th request does not ask to
    close it and k is below the limit less one.
  */
  lemma {:induction false} LockstepClientIsAnswered(run: seq<Sys>, stops: seq<nat>, ms: seq<Printed>)
    requires Lockstep(run, stops, ms)
    ensures Wire(run[stops[|ms|]].h.sent) == Responses(Told(ms, run[0].limit))
    decreases |ms|
  {
    hide *;
    if ms == [] {
      LockstepStarts(run, stops);
    } else {
      var n := |ms| - 1;
      LockstepBefore(run, stops, ms);
      LockstepClientIsAnswered(run, stops[..n + 1], ms[..n]);
      LockstepLast(run, stops, ms);
      NextRequestIsAnswered(run, stops[n], stops[n + 1], ms[..n], ms[n]);
      ToldAppend(ms, run[0].limit);
      ResponsesAppend(Told(ms[..n], run[0].limit), Kept(!AsksToClose(ms[n].req.headers), n, run[0].limit));
    }
  }

  lemma LockstepStarts(run: seq<Sys>, stops: seq<nat>)
    requires Lockstep(run, stops, [])
    ensures |run| > 0 && |stops| == 1 && stops[0] == 0
    ensures Wire(run[0].h.sent) == Responses(Told([], run[0].limit))
  {
    hide Linked;
  }

  lemma LockstepBefore(run: seq<Sys>, stops: seq<nat>, ms: seq<Printed>)
    requires Lockstep(run, stops, ms) && ms != []
    ensures |stops| == |ms| + 1 && Lockstep(run, stops[..|ms|], ms[..|ms| - 1])
  {
    hide Stop, IsRun;
    assert forall k :: 0 <= k < |ms| ==> ms[..|ms| - 1][..k] == ms[..k];
  }

  lemma LockstepLast(run: seq<Sys>, stops: seq<nat>, ms: seq<Printed>)
    requires Lockstep(run, stops, ms) && ms != []
    ensures var n := |ms| - 1;
            && |stops| == |ms| + 1 && stops[n] < stops[n + 1] < |run|
            && run[0].limit == run[stops[n + 1]].limit
            && Stretch(run, stops[n], stops[n + 1], ms[..n], [ms[n]], !AsksToClose(ms[n].req.headers))
  {
    hide Stop, IsRun, AsksToClose, Reachable;
    var n := |ms| - 1;
    assert ms[..n] + [ms[n]] == ms[..n + 1];
    StopIsLive(run[stops[n + 1]], stops[n + 1], ms[..n + 1]);
    RunExtends(run, 0, stops[n + 1]);
  }

  lemma ToldAppend(ms: seq<Printed>, limit: nat)
    requires ms != []
    ensures var n := |ms| - 1;
            Told(ms, limit) == Told(ms[..n], limit) + [Kept(!AsksToClose(ms[n].req.headers), n, limit)]
  {
    hide Kept, AsksToClose;
  }
}
