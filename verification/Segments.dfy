/** Transmit segments with end-of-response marks, and the batches the servers cut from their queues. */
module Segments {

  /** A transmit segment; `eor` marks the end of a response. */
  datatype OwnedBuf = OwnedBuf(bytes: string, eor: bool)

  /** The body of every response of the servers, and its two possible heads. */
  const BODY_TEXT: string := "Hello, World!\n"
  const HEAD_KEEP: string :=
    "HTTP/1.1 200 OK\r\n" + "Content-Type: text/plain\r\n" + "Content-Length: 14\r\n" + "Connection: keep-alive\r\n" + "\r\n"
  const HEAD_CLOSE: string :=
    "HTTP/1.1 200 OK\r\n" + "Content-Type: text/plain\r\n" + "Content-Length: 14\r\n" + "Connection: close\r\n" + "\r\n"

  /** `served < keepalive_limit - 1` in the unsigned arithmetic of C++: a limit of 0 never closes here. */
  predicate BelowLimit(served: nat, limit: nat) {
    if limit == 0 then served < 0xFFFF_FFFF else served < limit - 1
  }

  function Min(a: nat, b: nat): nat { if a <= b then a else b }

  function B(b: bool): nat { if b then 1 else 0 }

  /** Length of the next batch: at most `room` segments, ending behind the first end-of-response. */
  function BatchCount(q: seq<OwnedBuf>, room: nat): (n: nat)
    ensures n <= room && n <= |q|
    ensures q != [] && room > 0 ==> n > 0
    decreases room
  {
    if q == [] || room == 0 then 0
    else if q[0].eor then 1
    else 1 + BatchCount(q[1..], room - 1)
  }

  function Bytes(q: seq<OwnedBuf>): (bs: seq<string>)
    ensures |bs| == |q| && forall i :: 0 <= i < |q| ==> bs[i] == q[i].bytes
  {
    seq(|q|, i requires 0 <= i < |q| => q[i].bytes)
  }

  // ------------------------------------------------------------ the shape of a batch

  /** A batch has an end-of-response only in its last place, and stops early only because of one. */
  lemma {:induction false} BatchShape(q: seq<OwnedBuf>, room: nat)
    requires q != [] && room > 0
    ensures var n := BatchCount(q, room);
            && 0 < n <= room && n <= |q|
            && (forall k :: 0 <= k < n - 1 ==> !q[k].eor)
            && (n < room && n < |q| ==> q[n - 1].eor)
    decreases room
  {
    if !q[0].eor && room > 1 && |q| > 1 {
      BatchShape(q[1..], room - 1);
      var m := BatchCount(q[1..], room - 1);
      assert forall k :: 0 < k < m ==> q[k] == q[1..][k - 1];
    }
  }

  /** Growing a batch by one segment that ends no response. */
  lemma BatchGrows(q: seq<OwnedBuf>, room: nat, n: nat)
    requires n < |q| && n < room
    requires BatchCount(q, room) == n + BatchCount(q[n..], room - n)
    ensures if q[n].eor then BatchCount(q, room) == n + 1
            else BatchCount(q, room) == n + 1 + BatchCount(q[n + 1..], room - n - 1)
  {
    assert q[n..][1..] == q[n + 1..];
  }

  lemma BatchStops(q: seq<OwnedBuf>, room: nat)
    ensures q == [] || room == 0 ==> BatchCount(q, room) == 0
  {
  }

  function Eors(q: seq<OwnedBuf>): nat {
    if q == [] then 0 else B(q[0].eor) + Eors(q[1..])
  }

  lemma {:induction false} EorsAppend(a: seq<OwnedBuf>, b: seq<OwnedBuf>)
    ensures Eors(a + b) == Eors(a) + Eors(b)
  {
    if a == [] {
      assert a + b == b;
    } else {
      assert (a + b)[1..] == a[1..] + b;
      EorsAppend(a[1..], b);
    }
  }

  lemma EorsOne(b: OwnedBuf)
    ensures Eors([b]) == B(b.eor)
  {
    assert [b][1..] == [];
  }

  /** A batch ends as many responses as its last segment does. */
  lemma {:induction false} EorsOfBatch(q: seq<OwnedBuf>)
    requires q != [] && forall k :: 0 <= k < |q| - 1 ==> !q[k].eor
    ensures Eors(q) == B(q[|q| - 1].eor)
    decreases |q|
  {
    if |q| == 1 {
      EorsOne(q[0]);
      assert q == [q[0]];
    } else {
      EorsOfBatch(q[1..]);
    }
  }

  // ------------------------------------------------------------ bytes in a queue

  function Wire(q: seq<OwnedBuf>): string {
    if q == [] then "" else q[0].bytes + Wire(q[1..])
  }

  lemma {:induction false} WireAppend(a: seq<OwnedBuf>, b: seq<OwnedBuf>)
    ensures Wire(a + b) == Wire(a) + Wire(b)
  {
    if a == [] {
      assert a + b == b;
    } else {
      assert (a + b)[1..] == a[1..] + b;
      WireAppend(a[1..], b);
    }
  }

  lemma WireCons(q: seq<OwnedBuf>)
    requires q != []
    ensures |Wire(q)| == |q[0].bytes| + |Wire(q[1..])|
  {
  }
}
