/** What holds in every run of completions on an io_uring connection. */
module UringTheorems {
  import opened Text
  import opened Segments
  import opened Accumulator
  import opened AccumulatorTheorems
  import opened UringTransmit
  import opened UringInvariant

  // ------------------------------------------------------------ runs

  ghost predicate Possible(w: World, ins: seq<Input>, limit: nat)
    decreases |ins|
  {
    ins != [] ==> Enabled(w, ins[0].e) && Possible(Step(w, ins[0].e, ins[0].sqes, limit), ins[1..], limit)
  }

  function Run(w: World, ins: seq<Input>, limit: nat): World
    requires Possible(w, ins, limit)
    decreases |ins|
  {
    if ins == [] then w else Run(Step(w, ins[0].e, ins[0].sqes, limit), ins[1..], limit)
  }

  ghost predicate NeverAbandoned(w: World, ins: seq<Input>, limit: nat)
    requires Possible(w, ins, limit)
    decreases |ins|
  {
    ins != [] ==> !Abandons(w, ins[0], limit)
                  && NeverAbandoned(Step(w, ins[0].e, ins[0].sqes, limit), ins[1..], limit)
  }

  lemma StartHasInv()
    ensures Inv(START) && Awake(START)
  {
    EmptyFront("");
    NothingToFrame(true);
  }

  lemma {:induction false} RunKeepsInv(w: World, ins: seq<Input>, limit: nat)
    requires Inv(w) && Possible(w, ins, limit)
    ensures Inv(Run(w, ins, limit))
    ensures Awake(w) && NeverAbandoned(w, ins, limit) ==> Awake(Run(w, ins, limit))
    decreases |ins|
  {
    hide Step, Inv, Awake, Abandons;
    if ins != [] {
      StepKeepsInv(w, ins[0], limit);
      RunKeepsInv(Step(w, ins[0].e, ins[0].sqes, limit), ins[1..], limit);
    }
  }

  /**
    Response conservation over every run: retired, in flight and queued make up what was enqueued, in
    order; every request in the received bytes has been answered once and is counted once; and at
    most one send is outstanding.
  */
  lemma {:induction false} ResponsesAreConserved(ins: seq<Input>, limit: nat)
    requires Possible(START, ins, limit)
    ensures var w := Run(START, ins, limit);
            && w.log.retired + (w.tx.inflight + w.tx.txq) == w.log.enqueued
            && w.tx.served == Eors(w.log.retired)
            && |Receive(FRESH_RX, w.log.received).frames| == w.tx.served + Eors(w.tx.inflight) + Eors(w.tx.txq)
            && w.ring[SendOp] <= 1
            && |w.tx.inflight| <= 8
            && (w.tx.inflight != [] ==> Batch(w.tx))
  {
    hide Run, Eors, Receive;
    StartHasInv();
    RunKeepsInv(START, ins, limit);
    var w := Run(START, ins, limit);
    EorsAppend(w.log.retired, w.tx.inflight + w.tx.txq);
    EorsAppend(w.tx.inflight, w.tx.txq);
  }

  /**
    Without a refused poll, a refused close and an endless loop, waiting segments always have a send, a
    poll, a kick or a close outstanding, and a closing connection its close.
  */
  lemma {:induction false} NoSendStall(ins: seq<Input>, limit: nat)
    requires Possible(START, ins, limit) && NeverAbandoned(START, ins, limit)
    ensures Awake(Run(START, ins, limit))
  {
    hide Run, Inv, Awake;
    StartHasInv();
    RunKeepsInv(START, ins, limit);
  }

  ghost predicate AllGranted(sqes: seq<bool>) { forall b :: b in sqes ==> b }

  ghost predicate EntriesFree(ins: seq<Input>) { forall i :: i in ins ==> AllGranted(i.sqes) }

  lemma FirstIsGranted(sqes: seq<bool>)
    requires AllGranted(sqes)
    ensures Granted(sqes)
  {
    if sqes != [] { assert sqes[0] in sqes; }
  }

  lemma StepHangs(w: World, e: Event, sqes: seq<bool>, limit: nat)
    requires Enabled(w, e) && Hangs(w, e)
    ensures Step(w, e, sqes, limit).stuck
  {
    hide Receive, Answers, Enqueue;
    ParsedIsOpen(Delivered(w, multiset{}), e.bytes, limit);
  }

  lemma StuckEndsRun(w: World, ins: seq<Input>, limit: nat)
    requires Possible(w, ins, limit) && w.stuck
    ensures ins == [] && Run(w, ins, limit) == w
  {
  }

  /** When submission entries can be had and the worker is not caught in a loop, nothing has stalled. */
  lemma {:induction false} GrantedNeverAbandoned(w: World, ins: seq<Input>, limit: nat)
    requires Possible(w, ins, limit) && EntriesFree(ins) && !Run(w, ins, limit).stuck
    ensures NeverAbandoned(w, ins, limit)
    decreases |ins|
  {
    hide Step, Hangs, MustClose;
    if ins != [] {
      var i := ins[0];
      assert i in ins && AllGranted(i.sqes);
      FirstIsGranted(i.sqes);
      var v := Step(w, i.e, i.sqes, limit);
      if Hangs(w, i.e) {
        StepHangs(w, i.e, i.sqes, limit);
        StuckEndsRun(v, ins[1..], limit);
        assert false;
      }
      GrantedNeverAbandoned(v, ins[1..], limit);
    }
  }

  ghost predicate NoGenerate(ins: seq<Input>) { forall i :: i in ins ==> !i.e.Generate? }

  lemma GrantedPostsNoKick(t: Tx, ring: multiset<Op>, sqes: seq<bool>)
    requires Granted(sqes)
    ensures SendKick(t, ring, sqes).ring[KickOp] == ring[KickOp]
  {
  }

  lemma StepPostsNoKick(w: World, e: Event, sqes: seq<bool>, limit: nat)
    requires Enabled(w, e) && !e.Generate? && Granted(sqes) && w.ring[KickOp] == 0
    ensures Step(w, e, sqes, limit).ring[KickOp] == 0
  {
    hide SendKick, PostKick, Receive, Answers, MustClose, Left;
    var v := Delivered(w, OpOf(e));
    match e
    case Recv(bytes) =>
      ParsedIsOpen(v, bytes, limit);
      GrantedPostsNoKick(Parsed(v, bytes, limit).tx, v.ring, sqes);
    case SendOk(_) => GrantedPostsNoKick(Retire(v.tx), v.ring, sqes);
    case PollOut => GrantedPostsNoKick(v.tx.(polloutArmed := false), v.ring, sqes);
    case Task => GrantedPostsNoKick(v.tx, v.ring, sqes);
    case _ =>
  }

  lemma {:induction false} RunPostsNoKick(w: World, ins: seq<Input>, limit: nat)
    requires Possible(w, ins, limit) && EntriesFree(ins) && NoGenerate(ins) && w.ring[KickOp] == 0
    ensures Run(w, ins, limit).ring[KickOp] == 0
    decreases |ins|
  {
    hide Step;
    if ins != [] {
      var i := ins[0];
      assert i in ins && AllGranted(i.sqes);
      FirstIsGranted(i.sqes);
      StepPostsNoKick(w, i.e, i.sqes, limit);
      RunPostsNoKick(Step(w, i.e, i.sqes, limit), ins[1..], limit);
    }
  }

  /** With entries free the server never posts a kick: waiting segments have a send, a poll or a close outstanding. */
  lemma {:induction false} NoStallWithoutKicks(ins: seq<Input>, limit: nat)
    requires Possible(START, ins, limit) && EntriesFree(ins) && NoGenerate(ins)
    ensures var w := Run(START, ins, limit);
            && w.ring[KickOp] == 0
            && (w.open && !w.stuck && w.tx.txq != []
                ==> w.ring[SendOp] > 0 || w.ring[PollOutOp] > 0 || w.ring[CloseOp] > 0)
  {
    RunPostsNoKick(START, ins, limit);
    hide Run, Inv;
    if !Run(START, ins, limit).stuck {
      GrantedNeverAbandoned(START, ins, limit);
      NoSendStall(ins, limit);
    }
  }

  ghost predicate Quiet(w: World) {
    w.ring[SendOp] == 0 && w.ring[PollOutOp] == 0 && w.ring[KickOp] == 0
  }

  /** When nothing is outstanding on a live connection, every request received has been served. */
  lemma {:induction false} QuiescenceMeansServed(ins: seq<Input>, limit: nat)
    requires Possible(START, ins, limit) && NeverAbandoned(START, ins, limit)
    requires var w := Run(START, ins, limit); w.open && (!w.tx.closing || w.ring[CloseOp] == 0) && Quiet(w)
    ensures var w := Run(START, ins, limit);
            && w.tx.txq == [] && w.tx.inflight == [] && w.log.retired == w.log.enqueued
            && w.tx.served == |Receive(FRESH_RX, w.log.received).frames|
  {
    hide Run, Eors, Receive;
    StartHasInv();
    RunKeepsInv(START, ins, limit);
  }

  /** The worker is caught exactly when the framing of the bytes received so far never ends. */
  lemma {:induction false} StuckIffSpinning(ins: seq<Input>, limit: nat)
    requires Possible(START, ins, limit)
    ensures var w := Run(START, ins, limit); w.stuck <==> Receive(FRESH_RX, w.log.received).spins
  {
    hide Run, Eors, Receive;
    StartHasInv();
    RunKeepsInv(START, ins, limit);
  }

  /** One request of 39 bytes is enough. */
  lemma {:induction false} HangHappens(limit: nat)
    ensures var ins := [Input(Recv(SPINNING), [])];
            Possible(START, ins, limit) && Run(START, ins, limit).stuck
  {
    var ins := [Input(Recv(SPINNING), [])];
    SpinningRequest();
    hide Receive, Step;
    StepHangs(START, Recv(SPINNING), [], limit);
    RunOne(START, ins[0], limit);
  }

  /** A stalled connection is woken by every completion that does not abandon it again. */
  lemma {:induction false} StallIsRepaired(w: World, i: Input, limit: nat)
    requires Inv(w) && w.open && Closes(w) && Enabled(w, i.e)
    ensures Awake(Step(w, i.e, i.sqes, limit)) <==> !Abandons(w, i, limit)
  {
    hide Inv, Step, Awake, Abandons, Closes;
    OpenStep(w, i, limit);
  }

  /** The stall is real: one request, a send that would block, and no entry for the poll. */
  lemma {:induction false} StallHappens()
    ensures var ins := [Input(Recv("\r\n\r\n"), []), Input(SendAgain, [false])];
            && Possible(START, ins, 100)
            && !Awake(Run(START, ins, 100)) && Run(START, ins, 100).tx.served == 0
  {
    var first, second := Input(Recv("\r\n\r\n"), []), Input(SendAgain, [false]);
    FirstAnswerIsSent();
    StartHasInv();
    hide Step, Inv, Awake;
    var v := Step(START, first.e, [], 100);
    StepKeepsInv(START, first, 100);
    StepKeepsInv(v, second, 100);
    RefusedServesNothing(v);
    RunOne(v, second, 100);
    RunCons(START, first, [second], 100);
  }

  const TWO_REQUESTS: string := "\r\n\r\n\r\n\r\n"

  /**
    A refused close is real too: two requests, the end of the input without an entry for the close, and
    the completion of the first response without one. The second response waits on an open connection,
    nothing is outstanding, and nobody will ever come back.
  */
  lemma {:induction false} RefusedCloseHappens(sent: nat, limit: nat)
    ensures var ins := [Input(Recv(TWO_REQUESTS), []), Input(RecvEnd, [false]), Input(SendOk(sent), [false])];
            && Possible(START, ins, limit)
            && (var w := Run(START, ins, limit);
                w.open && !w.stuck && w.tx.txq != [] && w.ring == multiset{} && !Awake(w))
  {
    var a, b, c := Input(Recv(TWO_REQUESTS), []), Input(RecvEnd, [false]), Input(SendOk(sent), [false]);
    TwoAnswersAreQueued(limit);
    var v := Step(START, a.e, a.sqes, limit);
    var u := Step(v, b.e, b.sqes, limit);
    EndIsRefused(v, limit);
    SentIsRefused(u, sent, limit);
    hide Step, Awake;
    RunOne(u, c, limit);
    RunCons(v, b, [c], limit);
    RunCons(START, a, [b, c], limit);
    assert [b] + [c] == [b, c] && [a] + [b, c] == [a, b, c];
    var w := Step(u, c.e, c.sqes, limit);
    NothingOutstanding(w);
  }

  lemma NothingOutstanding(w: World)
    ensures w.open && w.tx.txq != [] && w.ring == multiset{} ==> !Awake(w)
  {
  }

  /** A response in flight, and another one queued. */
  ghost predicate OneInFlight(w: World, closing: bool) {
    && w.open && !w.stuck && w.tx.txq != [] && w.ring == multiset{SendOp}
    && w.tx.inflightEor && w.tx.closing == closing
  }

  lemma EndIsRefused(w: World, limit: nat)
    requires OneInFlight(w, false)
    ensures Enabled(w, RecvEnd) && OneInFlight(Step(w, RecvEnd, [false], limit), true)
  {
    assert Delivered(w, multiset{}) == w;
  }

  lemma SentIsRefused(w: World, sent: nat, limit: nat)
    requires OneInFlight(w, true)
    ensures Enabled(w, SendOk(sent))
    ensures var v := Step(w, SendOk(sent), [false], limit);
            v.open && !v.stuck && v.tx.txq != [] && v.ring == multiset{}
  {
    hide Left;
  }

  lemma TwoAnswersAreQueued(limit: nat)
    ensures Enabled(START, Recv(TWO_REQUESTS))
    ensures OneInFlight(Step(START, Recv(TWO_REQUESTS), [], limit), false)
  {
    var f := Frame("\r\n\r\n", true);
    TwoRequestsAreFramed();
    EmptyFront(TWO_REQUESTS);
    hide Receive;
    assert Delivered(START, multiset{}) == START;
    TwoAnswers(f, limit);
    FirstBatch(Answers([f, f], 0, limit));
    var p := Parsed(START, TWO_REQUESTS, limit);
    assert p.tx.txq == Answers([f, f], 0, limit);
  }

  lemma TwoRequestsAreFramed()
    ensures var o := Receive(FRESH_RX, TWO_REQUESTS); var f := Frame("\r\n\r\n", true);
            o.frames == [f, f] && !o.spins
  {
    var f := Frame("\r\n\r\n", true);
    var fs := [f, f];
    BlankIsExact();
    assert Short("") by { assert Find("", CRLF2, 0).None?; }
    OnlyOneFraming(fs, "", true, 0);
    assert fs[1..] == [f] && [f][1..] == [];
    assert BytesOf([]) == "" && BytesOf([f]) == f.bytes + "" && BytesOf(fs) == f.bytes + BytesOf([f]);
    EmptyBack(f.bytes);
    assert BytesOf(fs) + "" == TWO_REQUESTS;
    EmptyFront(TWO_REQUESTS);
  }

  lemma BlankIsExact()
    ensures ExactFrame(Frame("\r\n\r\n", true))
  {
    var a := "\r\n\r\n";
    assert a[0..4] == CRLF2;
    assert Find(a, CRLF2, 0) == Some(0);
    assert Scan(a, 0) == DEFAULT;
    assert Total(a, 0) == 4;
    assert Exact(a);
  }

  lemma TwoAnswers(f: Frame, limit: nat)
    ensures var q := Answers([f, f], 0, limit);
            |q| == 4 && !q[0].eor && q[1].eor
  {
    assert [f, f][1..] == [f] && [f][1..] == [];
    var a := Answer(f.keep, 0, limit);
    assert Answers([], 0, limit) == [];
    assert Answers([f], 0, limit) == a + [];
    assert Answers([f, f], 0, limit) == a + (a + []);
  }

  /** A queue that starts with one response: the first batch is that response. */
  lemma FirstBatch(q: seq<OwnedBuf>)
    requires |q| > 2 && !q[0].eor && q[1].eor
    ensures BatchCount(q, MAX_IOV) == 2
  {
    assert q[1..][0] == q[1];
    assert BatchCount(q[1..], MAX_IOV - 1) == 1;
  }

  lemma RunOne(w: World, i: Input, limit: nat)
    requires Enabled(w, i.e)
    ensures Possible(w, [i], limit) && Run(w, [i], limit) == Step(w, i.e, i.sqes, limit)
  {
    hide Step;
    var v := Step(w, i.e, i.sqes, limit);
    assert [i][1..] == [];
    assert Possible(v, [], limit) && Run(v, [], limit) == v;
  }

  lemma RunCons(w: World, i: Input, ins: seq<Input>, limit: nat)
    requires Enabled(w, i.e) && Possible(Step(w, i.e, i.sqes, limit), ins, limit)
    ensures Possible(w, [i] + ins, limit)
    ensures Run(w, [i] + ins, limit) == Run(Step(w, i.e, i.sqes, limit), ins, limit)
  {
    hide Step;
    assert ([i] + ins)[0] == i && ([i] + ins)[1..] == ins;
  }

  lemma RefusedServesNothing(w: World)
    requires Enabled(w, SendAgain)
    ensures Step(w, SendAgain, [false], 100).tx.served == w.tx.served
  {
  }

  lemma OneEmptyRequest()
    ensures var o := Receive(FRESH_RX, "\r\n\r\n"); o == Framed(FRESH_RX, [Frame("\r\n\r\n", true)], false)
  {
    var a := "\r\n\r\n";
    EmptyFront(a);
    assert a[0..4] == CRLF2;
    assert Find(a, CRLF2, 0) == Some(0);
    assert Scan(a, 0) == DEFAULT;
    assert a[..4] == a && a[4..] == "";
    NothingToFrame(true);
  }

  lemma FirstAnswerIsSent()
    ensures var v := Step(START, Recv("\r\n\r\n"), [], 100);
            v.tx.sendInflight && v.tx.inflight != [] && v.ring == multiset{SendOp} && v.open && !v.stuck && !v.tx.polloutArmed
            && !v.tx.closing && v.tx.served == 0
  {
    OneEmptyRequest();
    hide Receive, Answer;
    assert Delivered(START, multiset{}) == START;
    var p := Parsed(START, "\r\n\r\n", 100);
    AnswerIsNotEmpty();
    assert p.tx.txq != [];
    BatchShape(p.tx.txq, MAX_IOV);
  }

  lemma AnswerIsNotEmpty()
    ensures Answers([Frame("\r\n\r\n", true)], 0, 100) != []
  {
  }

  // ------------------------------------------------------------ the library server

  ghost predicate NoRecv(ins: seq<Input>) { forall i :: i in ins ==> !i.e.Recv? }

  lemma StepFramesNothing(w: World, e: Event, sqes: seq<bool>, limit: nat)
    requires Enabled(w, e) && !e.Recv?
    ensures Step(w, e, sqes, limit).log.framed == w.log.framed
  {
    hide SendKick, PostKick, ArmPollout, StartClose;
  }

  lemma {:induction false} RunFramesNothing(w: World, ins: seq<Input>, limit: nat)
    requires Possible(w, ins, limit) && NoRecv(ins)
    ensures Run(w, ins, limit).log.framed == w.log.framed
    decreases |ins|
  {
    hide Step;
    if ins != [] {
      assert ins[0] in ins;
      StepFramesNothing(w, ins[0].e, ins[0].sqes, limit);
      RunFramesNothing(Step(w, ins[0].e, ins[0].sqes, limit), ins[1..], limit);
    }
  }

  /**
    The library never marks a segment as the end of a response: through whole runs `served` stays 0 and
    no send completion closes the connection, whatever the keep-alive limit and `keep_alive` say.
  */
  lemma {:induction false} LibraryNeverCounts(ins: seq<Input>, limit: nat)
    requires Possible(START, ins, limit) && NoRecv(ins)
    ensures var w := Run(START, ins, limit);
            w.tx.served == 0 && forall keep, n :: !MustClose(w.tx, keep, n)
  {
    hide Run, Eors, Receive;
    StartHasInv();
    RunKeepsInv(START, ins, limit);
    RunFramesNothing(START, ins, limit);
    var w := Run(START, ins, limit);
    EorsAppend(w.log.retired, w.tx.inflight + w.tx.txq);
    EorsAppend(w.tx.inflight, w.tx.txq);
    if w.tx.inflight != [] {
      EorsOfBatch(w.tx.inflight);
    }
  }

  // ------------------------------------------------------------ sending comes to an end

  /** The completion of a send, a kick or a poll, with entries free. */
  ghost predicate MayRun(w: World, i: Input) {
    w.open && Enabled(w, i.e) && (i.e.SendOk? || i.e.Task? || i.e.PollOut?) && AllGranted(i.sqes)
  }

  function Unsent(t: Tx): nat { |t.inflight| + |t.txq| }

  function Wakers(w: World): nat { w.ring[KickOp] + w.ring[PollOutOp] }

  lemma GrantedKick(t: Tx, ring: multiset<Op>, sqes: seq<bool>)
    requires TxOk(t) && Granted(sqes)
    ensures var a := SendKick(t, ring, sqes);
            && Unsent(a.tx) == Unsent(t) && a.ring[KickOp] == ring[KickOp] && a.ring[PollOutOp] == ring[PollOutOp]
            && a.tx.closing == t.closing
  {
    if CanKick(t) {
      BatchShape(t.txq, MAX_IOV);
    }
  }

  /** With entries free, every such completion shrinks what is unsent, or keeps it and uses up a kick or a poll. */
  lemma {:induction false} CompletionProgress(w: World, i: Input, limit: nat)
    requires Inv(w) && MayRun(w, i)
    ensures var v := Step(w, i.e, i.sqes, limit);
            && v.open && v.log.received == w.log.received && !Abandons(w, i, limit)
            && (Unsent(v.tx) < Unsent(w.tx) || (Unsent(v.tx) == Unsent(w.tx) && Wakers(v) < Wakers(w)))
  {
    hide SendKick, Conserved, Receive, BatchCount, Left, MustClose;
    FirstIsGranted(i.sqes);
    var v := Delivered(w, OpOf(i.e));
    match i.e
    case SendOk(_) =>
      assert w.ring[SendOp] > 0;
      GrantedKick(Retire(w.tx), v.ring, i.sqes);
      assert Batch(w.tx);
    case Task => GrantedKick(w.tx, v.ring, i.sqes);
    case PollOut => GrantedKick(w.tx.(polloutArmed := false), v.ring, i.sqes);
  }

  /** Delivers whatever completion the schedule picks, until it picks none. */
  ghost function Settle(w: World, schedule: World -> Input, limit: nat): World
    requires Inv(w)
    decreases Unsent(w.tx), Wakers(w)
  {
    var i := schedule(w);
    if !MayRun(w, i) then w else
    CompletionProgress(w, i, limit);
    StepKeepsInv(w, i, limit);
    Settle(Step(w, i.e, i.sqes, limit), schedule, limit)
  }

  /** It is a run without receives, it keeps the connection awake, and it ends where the schedule pauses. */
  lemma {:induction false} SettleIsARun(w: World, schedule: World -> Input, limit: nat) returns (ins: seq<Input>)
    requires Inv(w) && Awake(w)
    ensures Possible(w, ins, limit) && NoRecv(ins) && Run(w, ins, limit) == Settle(w, schedule, limit)
    ensures var r := Settle(w, schedule, limit);
            && Inv(r) && Awake(r) && !MayRun(r, schedule(r))
            && r.open == w.open && r.log.received == w.log.received
    decreases Unsent(w.tx), Wakers(w)
  {
    hide Step, Inv, Awake, Abandons;
    var i := schedule(w);
    if !MayRun(w, i) {
      ins := [];
    } else {
      CompletionProgress(w, i, limit);
      StepKeepsInv(w, i, limit);
      var v := Step(w, i.e, i.sqes, limit);
      var rest := SettleIsARun(v, schedule, limit);
      ins := [i] + rest;
      assert ins[1..] == rest && ins[0] == i;
      assert Possible(w, ins, limit) && Run(w, ins, limit) == Run(v, rest, limit);
    }
  }

  /**
    Sending comes to an end in every order: when the kernel goes on completing what is outstanding and
    entries are free, a live connection comes to rest, and unless its close is outstanding all it received
    is served.
  */
  lemma {:induction false} SettlesInEveryOrder(w: World, schedule: World -> Input, limit: nat)
    requires Inv(w) && Awake(w) && w.open
    requires forall v :: Quiet(v) || !v.open || v.stuck || MayRun(v, schedule(v))
    ensures var r := Settle(w, schedule, limit);
            && Quiet(r) && r.log.received == w.log.received
            && (r.ring[CloseOp] > 0
                || (r.tx.txq == [] && r.tx.inflight == [] && r.log.retired == r.log.enqueued
                    && r.tx.served == |Receive(FRESH_RX, w.log.received).frames|))
  {
    hide Settle, MayRun, Receive;
    var ins := SettleIsARun(w, schedule, limit);
    var r := Settle(w, schedule, limit);
    assert Quiet(r) && r.ring[CloseOp] == 0 ==> r.log.retired == r.log.enqueued;
  }

  // ------------------------------------------------------------ short sends

  /** Every send completion of the run reports the whole batch. */
  ghost predicate AllWhole(w: World, ins: seq<Input>, limit: nat)
    requires Possible(w, ins, limit)
    decreases |ins|
  {
    ins != [] ==> Whole(w, ins[0].e) && AllWhole(Step(w, ins[0].e, ins[0].sqes, limit), ins[1..], limit)
  }

  predicate Whole(w: World, e: Event) { w.open && e.SendOk? ==> e.sent >= |Wire(w.tx.inflight)| }

  lemma StepSends(w: World, i: Input, limit: nat)
    requires Enabled(w, i.e)
    ensures var v := Step(w, i.e, i.sqes, limit);
            if w.open && i.e.SendOk?
            then v.log.retired == w.log.retired + w.tx.inflight && v.log.wire == w.log.wire + Left(w.tx.inflight, i.e.sent)
            else v.log.retired == w.log.retired && v.log.wire == w.log.wire
  {
    hide SendKick, PostKick, Receive, Answers, MustClose, Left, Retire, Rollback, ArmPollout, StartClose;
  }

  /** A completion puts the bytes it reports on the wire, all that are retired exactly if it reports them. */
  lemma StepWire(w: World, i: Input, limit: nat)
    requires Enabled(w, i.e)
    ensures var v := Step(w, i.e, i.sqes, limit);
            && (Whole(w, i.e) && w.log.wire == Wire(w.log.retired) ==> v.log.wire == Wire(v.log.retired))
            && |Wire(v.log.retired)| - |v.log.wire| >= |Wire(w.log.retired)| - |w.log.wire|
            && (!Whole(w, i.e) ==> |Wire(v.log.retired)| - |v.log.wire| > |Wire(w.log.retired)| - |w.log.wire|)
  {
    hide Step, Wire;
    StepSends(w, i, limit);
    if w.open && i.e.SendOk? {
      var bytes := Wire(w.tx.inflight);
      WireAppend(w.log.retired, w.tx.inflight);
      assert bytes[..|bytes|] == bytes;
    }
  }

  lemma {:induction false} RunWire(w: World, ins: seq<Input>, limit: nat)
    requires Possible(w, ins, limit)
    ensures var v := Run(w, ins, limit);
            && (AllWhole(w, ins, limit) && w.log.wire == Wire(w.log.retired) ==> v.log.wire == Wire(v.log.retired))
            && |Wire(v.log.retired)| - |v.log.wire| >= |Wire(w.log.retired)| - |w.log.wire|
            && (!AllWhole(w, ins, limit) ==> |Wire(v.log.retired)| - |v.log.wire| > |Wire(w.log.retired)| - |w.log.wire|)
    decreases |ins|
  {
    hide Step, Wire, Whole;
    if ins != [] {
      StepWire(w, ins[0], limit);
      RunWire(Step(w, ins[0].e, ins[0].sqes, limit), ins[1..], limit);
    }
  }

  /** The client gets the bytes of the retired segments if and only if every completion reported its whole batch. */
  lemma {:induction false} WireIsRetiredIff(ins: seq<Input>, limit: nat)
    requires Possible(START, ins, limit)
    ensures var w := Run(START, ins, limit);
            w.log.wire == Wire(w.log.retired) <==> AllWhole(START, ins, limit)
  {
    RunWire(START, ins, limit);
    assert Wire([]) == "";
  }
}
