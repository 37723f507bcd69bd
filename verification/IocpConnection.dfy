/**
  One connection of the IOCP server: its three mutex-protected queues and the lock sections that
  handlers run on them. `Conn` is the value of the fields; every method of the class is one lock
  section and is proved equal to the section function on `Conn`. A section that calls
  PostQueuedCompletionStatus reports it through `post`.
*/
module IocpConnection {
  import opened Segments
  import opened StreamParser

  const PROC_MAX_SEGMENTS: nat := 16
  const MAX_WSABUF: nat := 8

  datatype Conn = Conn(
    rxHold: bool, rxq: seq<string>, parseInflight: bool,
    respq: seq<Request>, respondInflight: bool,
    txq: seq<OwnedBuf>, kickPending: bool, sendInflight: bool,
    inflightCount: nat, inflightEor: bool, tx: seq<string>,
    served: nat, closing: bool)

  // ------------------------------------------------------------ lock sections on values

  /** Recv handler: move the held buffer to rxq, wake the parser unless it is awake. */
  function PublishRecv(c: Conn, bytes: string): Conn {
    c.(rxHold := false, rxq := if c.rxHold then c.rxq + [bytes] else c.rxq, parseInflight := true)
  }

  /** Process handler: take at most PROC_MAX_SEGMENTS segments. */
  function TakenSegments(c: Conn): seq<string> { c.rxq[..Min(PROC_MAX_SEGMENTS, |c.rxq|)] }

  function TakeSegments(c: Conn): Conn { c.(rxq := c.rxq[Min(PROC_MAX_SEGMENTS, |c.rxq|)..]) }

  /** Process handler, last section: stay awake exactly when segments have arrived meanwhile. */
  function FinishProcess(c: Conn): Conn { c.(parseInflight := c.parseInflight && c.rxq != []) }

  function EnqueueRequest(c: Conn, r: Request): Conn {
    c.(respq := c.respq + [r], respondInflight := true)
  }

  function DrainRequests(c: Conn): Conn { c.(respq := [], respondInflight := false) }

  function RecheckRespond(c: Conn): Conn {
    c.(respondInflight := c.respondInflight || c.respq != [])
  }

  function TxEnqueue(c: Conn, buf: OwnedBuf): Conn {
    c.(txq := c.txq + [buf], kickPending := true)
  }

  predicate CanSend(c: Conn) { !c.sendInflight && c.txq != [] }

  /** Kick handler: put the next batch into `tx` and mark it in flight. */
  function StartSend(c: Conn): Conn
    requires |c.tx| == MAX_WSABUF
  {
    var d := c.(kickPending := false);
    if !CanSend(c) then d
    else
      var n := BatchCount(c.txq, MAX_WSABUF);
      d.(sendInflight := true, inflightCount := n, inflightEor := c.txq[n - 1].eor,
         tx := Bytes(c.txq[..n]) + c.tx[n..])
  }

  function FailSend(c: Conn): Conn { c.(sendInflight := false, closing := true) }

  /** Send handler: retire the batch, wake the sender if segments are left. */
  function CompleteSend(c: Conn): Conn {
    var rest := c.txq[Min(c.inflightCount, |c.txq|)..];
    c.(txq := rest, inflightCount := 0, inflightEor := false, sendInflight := false,
       kickPending := c.kickPending || rest != [])
  }

  lemma BufferIs(q: seq<OwnedBuf>, n: nat, before: seq<string>, after: seq<string>)
    requires n <= |q| && n <= |before| == |after|
    requires forall k :: 0 <= k < n ==> after[k] == q[k].bytes
    requires forall k :: n <= k < |before| ==> after[k] == before[k]
    ensures after == Bytes(q[..n]) + before[n..]
  {
  }

  // ------------------------------------------------------------ the code

  class PerClientStorage {
    var rxHold: bool
    var rxq: seq<string>
    var parseInflight: bool
    var respq: seq<Request>
    var respondInflight: bool
    var txq: seq<OwnedBuf>
    var kickPending: bool
    var sendInflight: bool
    var inflightCount: nat
    var inflightEor: bool
    const tx: array<string>
    var served: nat
    var closing: bool

    ghost predicate Valid()
      reads this
    {
      tx.Length == MAX_WSABUF
    }

    ghost function View(): (c: Conn)
      requires Valid()
      reads this, tx
      ensures |c.tx| == MAX_WSABUF
    {
      Conn(rxHold, rxq, parseInflight, respq, respondInflight, txq, kickPending, sendInflight,
           inflightCount, inflightEor, tx[..], served, closing)
    }

    /** State after `init`. */
    constructor ()
      ensures Valid() && fresh(tx)
      ensures View() == Conn(false, [], false, [], false, [], false, false, 0, false, tx[..], 0, false)
    {
      rxHold, rxq, parseInflight := false, [], false;
      respq, respondInflight := [], false;
      txq, kickPending, sendInflight, inflightCount, inflightEor := [], false, false, 0, false;
      tx := new string[MAX_WSABUF](_ => "");
      served, closing := 0, false;
    }

    method RecvSection(bytes: string) returns (post: bool)
      requires Valid()
      modifies this
      ensures Valid() && View() == PublishRecv(old(View()), bytes)
      ensures post <==> !old(parseInflight)
    {
      var hold := rxHold;
      rxHold := false;
      if hold {
        rxq := rxq + [bytes];
      }
      post := false;
      if !parseInflight {
        parseInflight := true;
        post := true;
      }
    }

    method TakeSection() returns (segs: seq<string>)
      requires Valid()
      modifies this
      ensures Valid() && View() == TakeSegments(old(View()))
      ensures segs == TakenSegments(old(View()))
    {
      segs := PopSegments(Min(PROC_MAX_SEGMENTS, |rxq|));
    }

    method PopSegments(take: nat) returns (segs: seq<string>)
      requires take <= |rxq|
      modifies this`rxq
      ensures rxq == old(rxq)[take..] && segs == old(rxq)[..take]
    {
      segs := [];
      var i := 0;
      while i < take
        invariant 0 <= i <= take
        invariant rxq == old(rxq)[i..] && segs == old(rxq)[..i]
      {
        segs := segs + [rxq[0]];
        rxq := rxq[1..];
        i := i + 1;
      }
    }

    method FinishSection() returns (repost: bool)
      requires Valid() && parseInflight
      modifies this
      ensures Valid() && View() == FinishProcess(old(View()))
      ensures repost <==> old(rxq) != []
    {
      repost := false;
      if rxq != [] {
        repost := true;
      } else {
        parseInflight := false;
      }
    }

    method EnqueueRequestForResponse(r: Request) returns (post: bool)
      requires Valid()
      modifies this
      ensures Valid() && View() == EnqueueRequest(old(View()), r)
      ensures post <==> !old(respondInflight)
    {
      respq := respq + [r];
      post := false;
      if !respondInflight {
        respondInflight := true;
        post := true;
      }
    }

    method DrainSection() returns (reqs: seq<Request>)
      requires Valid()
      modifies this
      ensures Valid() && View() == DrainRequests(old(View()))
      ensures reqs == old(respq)
    {
      reqs := PopRequests();
      respondInflight := false;
    }

    method PopRequests() returns (reqs: seq<Request>)
      modifies this`respq
      ensures respq == [] && reqs == old(respq)
    {
      reqs := [];
      while respq != []
        invariant |reqs| + |respq| == |old(respq)|
        invariant respq == old(respq)[|reqs|..] && reqs == old(respq)[..|reqs|]
        decreases |respq|
      {
        reqs := reqs + [respq[0]];
        respq := respq[1..];
      }
    }

    method RecheckSection() returns (post: bool)
      requires Valid()
      modifies this
      ensures Valid() && View() == RecheckRespond(old(View()))
      ensures post <==> old(respq) != [] && !old(respondInflight)
    {
      post := false;
      if respq != [] && !respondInflight {
        respondInflight := true;
        post := true;
      }
    }

    method TxEnqueueSegment(bytes: string, eor: bool) returns (post: bool)
      requires Valid()
      modifies this
      ensures Valid() && View() == TxEnqueue(old(View()), OwnedBuf(bytes, eor))
      ensures post <==> !old(kickPending)
    {
      txq := txq + [OwnedBuf(bytes, eor)];
      post := false;
      if !kickPending {
        kickPending := true;
        post := true;
      }
    }

    /** The loop that fills `tx` from the front of txq. */
    method FillBatch() returns (count: nat, eor: bool)
      requires Valid() && txq != []
      modifies tx
      ensures count == BatchCount(txq, MAX_WSABUF) && eor == txq[count - 1].eor
      ensures forall k :: 0 <= k < count ==> tx[k] == txq[k].bytes
      ensures forall k :: count <= k < MAX_WSABUF ==> tx[k] == old(tx[k])
    {
      hide BatchCount;
      count, eor := 0, false;
      assert txq[0..] == txq;
      while count < |txq| && count < MAX_WSABUF
        invariant 0 <= count <= |txq| && count <= MAX_WSABUF
        invariant !eor && (count > 0 ==> !txq[count - 1].eor)
        invariant BatchCount(txq, MAX_WSABUF) == count + BatchCount(txq[count..], MAX_WSABUF - count)
        invariant forall k :: 0 <= k < count ==> tx[k] == txq[k].bytes
        invariant forall k :: count <= k < MAX_WSABUF ==> tx[k] == old(tx[k])
      {
        BatchGrows(txq, MAX_WSABUF, count);
        tx[count] := txq[count].bytes;
        count := count + 1;
        if txq[count - 1].eor {
          eor := true;
          break;
        }
      }
      BatchStops(txq[count..], MAX_WSABUF - count);
    }

    /** The lock section of maybe_start_send_worker; `started` says that WSASend follows. */
    method KickSection() returns (started: bool)
      requires Valid()
      modifies this, tx
      ensures Valid() && View() == StartSend(old(View()))
      ensures started <==> CanSend(old(View()))
    {
      kickPending := false;
      if sendInflight || txq == [] { return false; }
      var count, eor := FillBatch();
      BufferIs(txq, count, old(tx[..]), tx[..]);
      inflightCount := count;
      inflightEor := eor;
      sendInflight := true;
      started := true;
    }

    method SendFailedSection()
      requires Valid()
      modifies this
      ensures Valid() && View() == FailSend(old(View()))
    {
      sendInflight := false;
      closing := true;
    }

    /** The loop that pops the retired segments. */
    method PopBatch()
      requires Valid()
      modifies this`txq
      ensures txq == old(txq)[Min(inflightCount, |old(txq)|)..]
    {
      var i := 0;
      while i < inflightCount && txq != []
        invariant 0 <= i <= inflightCount && i <= |old(txq)| && txq == old(txq)[i..]
      {
        txq := txq[1..];
        i := i + 1;
      }
    }

    method SendCompleteSection() returns (finished: bool, post: bool)
      requires Valid()
      modifies this
      ensures Valid() && View() == CompleteSend(old(View()))
      ensures finished == old(inflightEor)
      ensures post <==> !old(kickPending) && CompleteSend(old(View())).txq != []
    {
      PopBatch();
      finished := inflightEor;
      inflightCount, inflightEor, sendInflight := 0, false, false;
      post := false;
      if txq != [] && !kickPending {
        kickPending := true;
        post := true;
      }
    }
  }
}
