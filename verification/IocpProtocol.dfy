/**
  All interleavings of one IOCP connection, from `init` to `close_and_recycle`.

  A task is a token in the completion port, an operation outstanding in the kernel, or a handler
  that runs on some worker and has reached a lock boundary. A step lets one task run its next
  lock section; which task, and how the kernel and the clock answer, is free.
*/
module IocpProtocol {
  import opened StreamParser
  import opened Segments
  import opened IocpConnection

  datatype Task =
    | RecvPosted                     // WSARecv outstanding
    | RecvArm                        // Recv handler behind its lock section
    | RecvIssue                      // buffer held, WSARecv about to be called
    | ProcQueued                     // Process token in the port
    | ProcLoop(processed: nat)       // Process handler about to take segments
    | ProcRun(segs: seq<string>, processed: nat)
    | ProcEmit(out: seq<Request>, segs: seq<string>, processed: nat)  // inside on_segment
    | ProcFinish                     // about to run its last lock section
    | ProcRepost                     // about to post the token again
    | RespQueued                     // Respond token in the port
    | RespSend(left: nat, half: bool)  // responses left to enqueue; head of the next one is out
    | RespHead(left: nat, keep: bool)  // head of the next one chosen, not enqueued yet
    | RespRecheck
    | KickQueued                     // Kick token, queued or dequeued but not yet locked
    | KickSend                       // batch marked, WSASend about to be called
    | SendPosted                     // WSASend outstanding
    | SendDone(finished: bool)       // Send handler behind its lock section

  /** What has happened so far. */
  datatype History = History(
    received: seq<string>, parsed: seq<string>, dropped: seq<string>, overrun: bool,
    emitted: seq<Request>, enqueued: seq<OwnedBuf>, sent: seq<OwnedBuf>)

  datatype Sys = Sys(c: Conn, http: Parser, tasks: seq<Task>, h: History, limit: nat, over: bool)

  /** Free answers: received bytes, success of a kernel call, time budget used up, how far the parser has come. */
  datatype Choice = Choice(bytes: string, ok: bool, timeUp: bool, seen: nat)

  /** After `init` and before the first `start_recv`. */
  function Init(limit: nat, tx: seq<string>): Sys
    requires |tx| == MAX_WSABUF
  {
    Sys(Conn(false, [], false, [], false, [], false, false, 0, false, tx, 0, false),
        INITIAL, [RecvArm], History([], [], [], false, [], [], []), limit, false)
  }

  function Replace(ts: seq<Task>, i: nat, next: seq<Task>): seq<Task>
    requires i < |ts|
  {
    ts[..i] + next + ts[i + 1..]
  }

  function When(b: bool, t: Task): seq<Task> { if b then [t] else [] }

  predicate Fits(s: Sys) { |s.c.tx| == MAX_WSABUF }

  function Become(s: Sys, i: nat, c: Conn, next: seq<Task>): Sys
    requires i < |s.tasks|
  {
    s.(c := c, tasks := Replace(s.tasks, i, next))
  }

  /** Task `i` runs its next lock section. */
  function Step(s: Sys, i: nat, ch: Choice): (s': Sys)
    requires i < |s.tasks| && Fits(s)
  {
    match s.tasks[i]
    case RecvPosted => StepRecv(s, i, ch)
    case RecvArm => StepArm(s, i)
    case RecvIssue => StepIssue(s, i, ch)
    case ProcQueued => Become(s, i, s.c, [ProcLoop(0)])
    case ProcLoop(processed) => StepTake(s, i, processed)
    case ProcRun(segs, processed) => StepParse(s, i, segs, processed)
    case ProcEmit(out, segs, processed) => StepEmit(s, i, out, segs, processed, ch)
    case ProcFinish => StepFinish(s, i)
    case ProcRepost => Become(s, i, s.c, [ProcQueued])
    case RespQueued => StepDrain(s, i)
    case RespSend(left, half) => StepRespond(s, i, left, half, ch)
    case RespHead(left, keep) => StepHead(s, i, left, keep)
    case RespRecheck => StepRecheck(s, i)
    case KickQueued => StepKick(s, i)
    case KickSend => StepIssueSend(s, i, ch)
    case SendPosted => StepSent(s, i, ch)
    case SendDone(finished) => StepServed(s, i, finished)
  }

  function StepArm(s: Sys, i: nat): Sys
    requires i < |s.tasks|
  {
    if s.c.closing then Become(s, i, s.c, []) else Become(s, i, s.c.(rxHold := true), [RecvIssue])
  }

  function StepIssue(s: Sys, i: nat, ch: Choice): Sys
    requires i < |s.tasks|
  {
    if ch.ok then Become(s, i, s.c, [RecvPosted]) else Become(s, i, s.c.(closing := true), [])
  }

  function StepFinish(s: Sys, i: nat): Sys
    requires i < |s.tasks|
  {
    Become(s, i, FinishProcess(s.c), When(s.c.rxq != [], ProcRepost))
  }

  function StepDrain(s: Sys, i: nat): Sys
    requires i < |s.tasks|
  {
    Become(s, i, DrainRequests(s.c), [RespSend(|s.c.respq|, false)])
  }

  function StepRecheck(s: Sys, i: nat): Sys
    requires i < |s.tasks|
  {
    Become(s, i, RecheckRespond(s.c), When(s.c.respq != [] && !s.c.respondInflight, RespQueued))
  }

  function StepKick(s: Sys, i: nat): Sys
    requires i < |s.tasks| && Fits(s)
  {
    Become(s, i, StartSend(s.c), When(CanSend(s.c), KickSend))
  }

  function StepIssueSend(s: Sys, i: nat, ch: Choice): Sys
    requires i < |s.tasks|
  {
    if ch.ok then Become(s, i, s.c, [SendPosted]) else Become(s, i, FailSend(s.c), [])
  }

  function StepRecv(s: Sys, i: nat, ch: Choice): Sys
    requires i < |s.tasks|
  {
    if !ch.ok || ch.bytes == "" then s.(over := true)
    else
      Become(s, i, PublishRecv(s.c, ch.bytes), [RecvArm] + When(!s.c.parseInflight, ProcQueued))
        .(h := s.h.(received := s.h.received + [ch.bytes]))
  }

  function StepTake(s: Sys, i: nat, processed: nat): Sys
    requires i < |s.tasks|
  {
    var segs := TakenSegments(s.c);
    if segs == [] then Become(s, i, s.c, [ProcFinish])
    else
      Become(s, i, TakeSegments(s.c), [ProcRun(segs, processed)])
        .(h := s.h.(overrun := s.h.overrun || processed + |segs| > PROC_MAX_SEGMENTS))
  }

  function StepParse(s: Sys, i: nat, segs: seq<string>, processed: nat): Sys
    requires i < |s.tasks|
  {
    if segs == [] then Become(s, i, s.c, [ProcFinish])
    else
      var o := Feed(s.http, segs[0]);
      Become(s, i, s.c, [ProcEmit(o.emitted, segs[1..], processed)])
        .(http := o.parser, h := s.h.(parsed := s.h.parsed + [segs[0]], emitted := s.h.emitted + o.emitted))
  }

  function StepEmit(s: Sys, i: nat, out: seq<Request>, segs: seq<string>, processed: nat, ch: Choice): Sys
    requires i < |s.tasks|
  {
    if out != [] then
      Become(s, i, EnqueueRequest(s.c, out[0]),
             [ProcEmit(out[1..], segs, processed)] + When(!s.c.respondInflight, RespQueued))
    else if processed + 1 >= PROC_MAX_SEGMENTS then
      Become(s, i, s.c, [ProcFinish]).(h := s.h.(dropped := s.h.dropped + segs))
    else if segs != [] then Become(s, i, s.c, [ProcRun(segs, processed + 1)])
    else Become(s, i, s.c, [if ch.timeUp then ProcFinish else ProcLoop(processed + 1)])
  }

  /** Requests that the Process handler has parsed and not handed on yet. */
  function Out(t: Task): seq<Request> { if t.ProcEmit? then t.out else [] }

  function Outs(ts: seq<Task>): seq<Request> {
    if ts == [] then [] else Out(ts[0]) + Outs(ts[1..])
  }

  /**
    What a handler reads of the parser's `keep_alive`, without a lock. While the parser is at work the
    flag is that of the request handed on last, of a later one, or the one it will be left with.
  */
  function ReadKeepAlive(s: Sys, seen: nat): bool {
    if |s.h.emitted| - |Outs(s.tasks)| - 1 <= seen < |s.h.emitted| then KeepAliveOf(s.h.emitted[seen].headers)
    else s.http.keepAlive
  }

  /** One response: the head is chosen, head and body are enqueued. */
  function StepRespond(s: Sys, i: nat, left: nat, half: bool, ch: Choice): Sys
    requires i < |s.tasks|
  {
    if left == 0 then Become(s, i, s.c, [RespRecheck])
    else if half then Publish(s, i, RespSend(left - 1, false), OwnedBuf(BODY_TEXT, true))
    else Become(s, i, s.c, [RespHead(left, ReadKeepAlive(s, ch.seen) && BelowLimit(s.c.served, s.limit))])
  }

  function StepHead(s: Sys, i: nat, left: nat, keep: bool): Sys
    requires i < |s.tasks|
  {
    Publish(s, i, RespSend(left, true), OwnedBuf(if keep then HEAD_KEEP else HEAD_CLOSE, false))
  }

  function Publish(s: Sys, i: nat, next: Task, buf: OwnedBuf): Sys
    requires i < |s.tasks|
  {
    Become(s, i, TxEnqueue(s.c, buf), [next] + When(!s.c.kickPending, KickQueued))
      .(h := s.h.(enqueued := s.h.enqueued + [buf]))
  }

  function StepSent(s: Sys, i: nat, ch: Choice): Sys
    requires i < |s.tasks|
  {
    if !ch.ok then s.(over := true)
    else
      var d := CompleteSend(s.c);
      Become(s, i, d, [SendDone(s.c.inflightEor)] + When(!s.c.kickPending && d.txq != [], KickQueued))
        .(h := s.h.(sent := s.h.sent + s.c.txq[..Min(s.c.inflightCount, |s.c.txq|)]))
  }

  function StepServed(s: Sys, i: nat, finished: bool): Sys
    requires i < |s.tasks|
  {
    if !finished then Become(s, i, s.c, [])
    else
      var d := s.c.(served := s.c.served + 1);
      if d.served < s.limit && !d.closing then Become(s, i, d, [])
      else Become(s, i, d, []).(over := true)
  }

  // ------------------------------------------------------------ runs

  /** A task takes a step, or the idle sweep closes the connection. */
  datatype Event = Run(task: nat, choice: Choice) | IdleSweep

  predicate Enabled(s: Sys, e: Event) {
    !s.over && (e.Run? ==> e.task < |s.tasks|)
  }

  function Next(s: Sys, e: Event): Sys
    requires Enabled(s, e) && Fits(s)
  {
    match e
    case Run(i, ch) => Step(s, i, ch)
    case IdleSweep => s.(c := s.c.(closing := true), over := true)
  }

  ghost predicate Initial(s: Sys) { exists limit, tx | |tx| == MAX_WSABUF :: s == Init(limit, tx) }

  /** The state behind position `i` of a run is a next state of the one at `i`. */
  ghost predicate Linked(run: seq<Sys>, i: int) {
    0 <= i && i + 1 < |run| && Fits(run[i])
    && exists e :: Enabled(run[i], e) && run[i + 1] == Next(run[i], e)
  }

  ghost predicate IsRun(run: seq<Sys>) {
    run != [] && Initial(run[0]) && forall i :: 0 <= i < |run| - 1 ==> Linked(run, i)
  }

  /** Reached from `init` in `n` steps. */
  ghost predicate Reachable(s: Sys, n: nat) {
    exists run :: IsRun(run) && |run| == n + 1 && run[n] == s
  }

  lemma ReachableStart(limit: nat, tx: seq<string>)
    requires |tx| == MAX_WSABUF
    ensures Reachable(Init(limit, tx), 0)
  {
    hide Init;
    assert IsRun([Init(limit, tx)]);
  }

  lemma ReachableNext(s: Sys, n: nat, e: Event)
    requires Reachable(s, n) && Enabled(s, e) && Fits(s)
    ensures Reachable(Next(s, e), n + 1)
  {
    hide Next, Enabled, Initial;
    var run :| IsRun(run) && |run| == n + 1 && run[n] == s;
    var longer := run + [Next(s, e)];
    forall i | 0 <= i < |longer| - 1 ensures Linked(longer, i) {
      if i < n { assert Linked(run, i); }
    }
    assert IsRun(longer);
  }

  /** The last step of a run. */
  lemma ReachableLast(s: Sys, n: nat) returns (r: Sys, e: Event)
    requires Reachable(s, n) && n > 0
    ensures Reachable(r, n - 1) && Enabled(r, e) && Fits(r) && s == Next(r, e)
  {
    hide Next, Enabled, Initial;
    var run :| IsRun(run) && |run| == n + 1 && run[n] == s;
    assert Linked(run, n - 1);
    r := run[n - 1];
    e :| Enabled(r, e) && s == Next(r, e);
    var shorter := run[..n];
    forall i | 0 <= i < |shorter| - 1 ensures Linked(shorter, i) {
      assert Linked(run, i);
    }
    assert IsRun(shorter);
  }

  // ------------------------------------------------------------ counting tasks

  /**
    What is counted: Process tokens and handlers, Respond tokens, Kick tokens, sends in progress,
    the receive side, buffers it holds, requests not yet answered, finished sends not yet served,
    handlers holding more segments than they will look at, handlers past their segment budget
    or with nothing to parse; Respond handlers, and those of them that have sent a head without its body;
    and two that measure the work left.
  */
  datatype Kind =
    | Parsing | RespTokens | KickTokens | Sending | Receiving | Holding | Unanswered | Serving
    | Overrunning | Late | Responding | Halves | Finishing | Work

  function Weight(k: Kind, t: Task): nat {
    match k
    case Parsing =>
      if t.ProcQueued? || t.ProcLoop? || t.ProcRun? || t.ProcEmit? || t.ProcFinish? || t.ProcRepost? then 1 else 0
    case RespTokens => if t.RespQueued? then 1 else 0
    case KickTokens => if t.KickQueued? then 1 else 0
    case Sending => if t.KickSend? || t.SendPosted? then 1 else 0
    case Receiving => if t.RecvPosted? || t.RecvArm? || t.RecvIssue? then 1 else 0
    case Holding => if t.RecvPosted? || t.RecvIssue? then 1 else 0
    case Unanswered => if t.ProcEmit? then |t.out| else if t.RespSend? || t.RespHead? then t.left else 0
    case Serving => if t.SendDone? && t.finished then 1 else 0
    case Overrunning =>
      if (t.ProcRun? && t.processed + |t.segs| > PROC_MAX_SEGMENTS)
         || (t.ProcEmit? && t.processed + 1 + |t.segs| > PROC_MAX_SEGMENTS) then 1 else 0
    case Responding => if t.RespSend? || t.RespHead? then 1 else 0
    case Halves => if t.RespSend? && t.half then 1 else 0
    case Finishing => if t.ProcFinish? then 1 else 0
    case Work => StepsLeft(t)
    case Late =>
      if ((t.ProcLoop? || t.ProcRun? || t.ProcEmit?) && t.processed >= PROC_MAX_SEGMENTS)
         || (t.ProcRun? && t.segs == []) then 1 else 0
  }

  /** Steps a task still has in it, counting those of the tokens and segments it will produce. */
  function StepsLeft(t: Task): nat {
    match t
    case RecvPosted => 0
    case RecvArm => 2
    case RecvIssue => 1
    case ProcQueued => 7
    case ProcLoop(_) => 6
    case ProcRun(_, _) => 5
    case ProcEmit(out, _, _) => 10 + 50 * |out|
    case ProcFinish => 1
    case ProcRepost => 8
    case RespQueued => 5
    case RespSend(left, half) => if half && left > 0 then 30 * left - 12 else 30 * left + 3
    case RespHead(left, _) => if left > 0 then 30 * left + 2 else 17
    case RespRecheck => 2
    case KickQueued => 3
    case KickSend => 2
    case SendPosted => 1
    case SendDone(_) => 1
  }

  function Sum(k: Kind, ts: seq<Task>): nat {
    if ts == [] then 0 else Weight(k, ts[0]) + Sum(k, ts[1..])
  }

  lemma {:induction false} SumAppend(k: Kind, a: seq<Task>, b: seq<Task>)
    ensures Sum(k, a + b) == Sum(k, a) + Sum(k, b)
  {
    hide Weight;
    if a == [] {
      assert a + b == b;
    } else {
      assert (a + b)[1..] == a[1..] + b;
      SumAppend(k, a[1..], b);
    }
  }

  /** The sum when `next` takes the place of task `i`. */
  lemma SumReplace(k: Kind, ts: seq<Task>, i: nat, next: seq<Task>)
    requires i < |ts|
    ensures Sum(k, Replace(ts, i, next)) == Sum(k, ts) - Weight(k, ts[i]) + Sum(k, next)
  {
    hide Weight;
    assert ts == ts[..i] + [ts[i]] + ts[i + 1..];
    SumAppend(k, ts[..i] + [ts[i]], ts[i + 1..]);
    SumAppend(k, ts[..i], [ts[i]]);
    SumAppend(k, ts[..i] + next, ts[i + 1..]);
    SumAppend(k, ts[..i], next);
    SumOne(k, ts[i]);
  }

  lemma SumOne(k: Kind, t: Task)
    ensures Sum(k, [t]) == Weight(k, t)
  {
    hide Weight;
    assert [t][1..] == [];
  }

  lemma SumAtLeast(k: Kind, ts: seq<Task>, i: nat)
    requires i < |ts|
    ensures Weight(k, ts[i]) <= Sum(k, ts)
  {
    hide Weight;
    SumReplace(k, ts, i, []);
  }

  /** Two different tasks together weigh no more than all. */
  lemma SumTwo(k: Kind, ts: seq<Task>, i: nat, j: nat)
    requires i < j < |ts|
    ensures Weight(k, ts[i]) + Weight(k, ts[j]) <= Sum(k, ts)
  {
    hide Weight;
    SumReplace(k, ts, j, []);
    SumAtLeast(k, Replace(ts, j, []), i);
  }

  /** Every sum when task `i` goes away, turns into `t`, or turns into `t` and perhaps posts `u`. */
  lemma Became(ts: seq<Task>, i: nat, t: Task, b: bool, u: Task)
    requires i < |ts|
    ensures forall k :: Weight(k, ts[i]) <= Sum(k, ts)
    ensures forall k :: Sum(k, Replace(ts, i, [])) == Sum(k, ts) - Weight(k, ts[i])
    ensures forall k :: Sum(k, Replace(ts, i, [t])) == Sum(k, ts) - Weight(k, ts[i]) + Weight(k, t)
    ensures forall k :: Sum(k, Replace(ts, i, [t] + When(b, u)))
                     == Sum(k, ts) - Weight(k, ts[i]) + Weight(k, t) + if b then Weight(k, u) else 0
  {
    hide Weight, Replace;
    assert [t] + [] == [t];
    forall k
      ensures Weight(k, ts[i]) <= Sum(k, ts)
      ensures Sum(k, Replace(ts, i, [])) == Sum(k, ts) - Weight(k, ts[i])
      ensures Sum(k, Replace(ts, i, [t])) == Sum(k, ts) - Weight(k, ts[i]) + Weight(k, t)
      ensures Sum(k, Replace(ts, i, [t] + When(b, u)))
           == Sum(k, ts) - Weight(k, ts[i]) + Weight(k, t) + if b then Weight(k, u) else 0
    {
      SumAtLeast(k, ts, i);
      SumReplace(k, ts, i, []);
      SumReplace(k, ts, i, [t]);
      SumReplace(k, ts, i, [t] + When(b, u));
      SumOne(k, t);
      SumOne(k, u);
      SumAppend(k, [t], [u]);
    }
  }
}
