/**
  What every header block on the way through a stream says, and from it when the streaming parser asks for
  more memory than there is: the exact guard, and where it does not matter.
*/
module StreamBlocks {
  import opened Text
  import opened StreamParser
  import opened StreamTheorems

  lemma MoreLine(p: Parser, b: string)
    requires p.phase.StartLine? && Find(p.acc, CRLF, 0).Some?
    ensures var e := Find(p.acc, CRLF, 0).value;
            Find(More(p, b).acc, CRLF, 0) == Some(e) && TakeLine(More(p, b), e) == More(TakeLine(p, e), b)
  {
    var e := Find(p.acc, CRLF, 0).value;
    FindStable(p.acc, b, CRLF, 0);
    assert (p.acc + b)[..e] == p.acc[..e];
    assert (p.acc + b)[e + 2..] == p.acc[e + 2..] + b;
  }

  lemma MoreHeaders(p: Parser, b: string)
    requires p.phase.Headers? && Find(p.acc, CRLF2, 0).Some?
    ensures var e := Find(p.acc, CRLF2, 0).value;
            Find(More(p, b).acc, CRLF2, 0) == Some(e) && TakeHeaders(More(p, b), e) == More(TakeHeaders(p, e), b)
  {
    var e := Find(p.acc, CRLF2, 0).value;
    FindStable(p.acc, b, CRLF2, 0);
    assert (p.acc + b)[..e + 2] == p.acc[..e + 2];
    assert (p.acc + b)[e + 4..] == p.acc[e + 4..] + b;
  }

  lemma BodyBlocksByTake(p: Parser, r: Parser, ok: Parser -> bool)
    requires p.phase.Body? && r.phase.Body? && TakeBody(p) == TakeBody(r)
    ensures EveryBlock(p, ok) == EveryBlock(r, ok)
  {
  }

  /** The header blocks do not depend on the cut: those of all bytes are those of the first and then of the rest. */
  lemma {:induction false} BlocksInTwo(p: Parser, b: string, ok: Parser -> bool)
    requires forall q: Parser :: ok(More(q, b)) == ok(q)
    ensures EveryBlock(More(p, b), ok) <==> EveryBlock(p, ok) && EveryBlock(More(Drain(p).parser, b), ok)
    decreases |p.acc|, if p.phase.Body? then 1 else 0
  {
    hide Find, ScanHeaders, ParseRequestLine;
    match p.phase
    case StartLine =>
      if Find(p.acc, CRLF, 0).Some? {
        MoreLine(p, b);
        BlocksInTwo(TakeLine(p, Find(p.acc, CRLF, 0).value), b, ok);
      }
    case Headers =>
      if Find(p.acc, CRLF2, 0).Some? {
        MoreHeaders(p, b);
        BlocksInTwo(TakeHeaders(p, Find(p.acc, CRLF2, 0).value), b, ok);
      }
    case Body =>
      var q := TakeBody(p);
      BodyStep(p);
      BodyBlocks(p, ok);
      if q.need > 0 {
        TakeBodyInTwo(p, b);
        BodyBlocksByTake(More(q, b), More(p, b), ok);
      } else {
        TakeBodyThenMore(p, b);
        BodyBlocks(More(p, b), ok);
        BlocksInTwo(NextRequest(q), b, ok);
      }
  }

  /** The guard does not depend on the cut: it holds for all bytes iff it holds for the first and then for the rest. */
  lemma ReserveInTwo(p: Parser, b: string, limit: nat)
    ensures Reserves(More(p, b), limit) <==> Reserves(p, limit) && Reserves(More(Drain(p).parser, b), limit)
  {
    hide EveryBlock, Drain;
    BlocksInTwo(p, b, Within(limit));
  }

  lemma LineBlocks(r: Request, tail: string, need: nat, keep: bool, ok: Parser -> bool)
    requires NoCrlf(RequestLine(r)) && ' ' !in r.verb && ' ' !in r.path
    ensures EveryBlock(Between(RequestLine(r) + CRLF + tail, need, keep), ok)
         == EveryBlock(AfterLine(r, tail, need, keep), ok)
  {
    var line := RequestLine(r);
    var acc := line + CRLF + tail;
    FirstCrlf(line, tail);
    assert acc[..|line|] == line && acc[|line| + 2..] == tail;
    ParsePrintedLine(r, EMPTY_REQUEST);
  }

  lemma HeadersBlock(p: Parser, e: nat, ok: Parser -> bool)
    requires p.phase.Headers? && Find(p.acc, CRLF2, 0) == Some(e)
    ensures EveryBlock(p, ok) <==> ok(TakeHeaders(p, e)) && EveryBlock(TakeHeaders(p, e), ok)
  {
  }

  lemma PrintedBodyBlocks(r: Request, rest: string, keep: bool, ok: Parser -> bool)
    ensures EveryBlock(InBody(r, rest, keep), ok) == EveryBlock(Between(rest, 0, keep), ok)
  {
    var p := InBody(r, rest, keep);
    assert p.acc[..|r.body|] == r.body && p.acc[|r.body|..] == rest;
    assert "" + r.body == r.body;
    BodyBlocks(p, ok);
  }

  /** The parser behind the header block of a printed request. */
  function InBody(r: Request, rest: string, keep: bool): Parser {
    Parser(Body, r.body + rest, |r.body|, keep, r.(body := ""))
  }

  /** A printed request adds its header block to those of the bytes behind it. */
  lemma PrintedRequestBlocks(r: Request, order: seq<string>, rest: string, need: nat, keep: bool, ok: Parser -> bool)
    requires WellFormed(r, order) && order != []
    ensures EveryBlock(Between(Print(r, order) + rest, need, keep), ok)
       <==> ok(InBody(r, rest, !AsksToClose(r.headers))) && EveryBlock(Between(rest, 0, !AsksToClose(r.headers)), ok)
  {
    hide EveryBlock, KeepAliveOf, TakeHeaders, Find;
    var tail := r.body + rest;
    PrintedBytes(r, order, rest);
    LineBlocks(r, Block(r, order) + CRLF + tail, need, keep, ok);
    PrintedBlockEnd(r, order, tail);
    HeadersBlock(AfterLine(r, Block(r, order) + CRLF + tail, need, keep), |Block(r, order)| - 2, ok);
    PrintedHeadersTaken(r, order, tail, need, keep);
    PolicyMeaning(r.headers);
    PrintedBodyBlocks(r, rest, KeepAliveOf(r.headers), ok);
  }

  /** A printed pipeline is parsed without an exception if and only if every body fits into what can be reserved. */
  lemma {:induction false} PipelineReservesIff(ms: seq<Printed>, keep: bool, limit: nat)
    requires forall i :: 0 <= i < |ms| ==> Printable(ms[i]) && ms[i].order != []
    ensures Reserves(Between(PrintAll(ms), 0, keep), limit)
       <==> forall i :: 0 <= i < |ms| ==> |ms[i].req.body| <= limit
    decreases |ms|
  {
    hide Print, AsksToClose, EveryBlock;
    if ms == [] {
      NothingToReserve(keep, limit);
    } else {
      var m, rest := ms[0], ms[1..];
      PrintedRequestBlocks(m.req, m.order, PrintAll(rest), 0, keep, Within(limit));
      PipelineReservesIff(rest, !AsksToClose(m.req.headers), limit);
      assert (forall i :: 0 <= i < |ms| ==> |ms[i].req.body| <= limit)
          == (|m.req.body| <= limit && forall i :: 0 <= i < |rest| ==> |rest[i].req.body| <= limit) by {
        assert forall i :: 0 < i < |ms| ==> ms[i] == rest[i - 1];
      }
    }
  }

  lemma NothingToReserve(keep: bool, limit: nat)
    ensures Reserves(Between("", 0, keep), limit)
  {
  }

  // ------------------------------------------------------------ what header blocks say about the connection

  /** The header block says whether the connection is to be kept. */
  function Says(keep: bool): Parser -> bool { (q: Parser) => q.keepAlive == keep }

  /** When all header blocks say the same, the parser is left with it once a request has been handed on. */
  lemma {:induction false} FlagIsSaid(p: Parser, keep: bool)
    requires EveryBlock(p, Says(keep))
    ensures var o := Drain(p);
            && (p.keepAlive == keep ==> o.parser.keepAlive == keep)
            && (o.emitted != [] && !p.phase.Body? ==> o.parser.keepAlive == keep)
    decreases |p.acc|, if p.phase.Body? then 1 else 0
  {
    hide Find, ScanHeaders, ParseRequestLine;
    match p.phase
    case StartLine =>
      if Find(p.acc, CRLF, 0).Some? { FlagIsSaid(TakeLine(p, Find(p.acc, CRLF, 0).value), keep); }
    case Headers =>
      if Find(p.acc, CRLF2, 0).Some? { FlagIsSaid(TakeHeaders(p, Find(p.acc, CRLF2, 0).value), keep); }
    case Body =>
      BodyStep(p);
      BodyBlocks(p, Says(keep));
      if TakeBody(p).need == 0 { FlagIsSaid(NextRequest(TakeBody(p)), keep); }
  }

  /** What the requests of a printed pipeline agree on is what all its header blocks say. */
  lemma {:induction false} PipelineSays(ms: seq<Printed>, need: nat, keep: bool, said: bool)
    requires forall i :: 0 <= i < |ms| ==> Printable(ms[i]) && ms[i].order != [] && said == !AsksToClose(ms[i].req.headers)
    ensures EveryBlock(Between(PrintAll(ms), need, keep), Says(said))
    decreases |ms|
  {
    hide Print, AsksToClose, EveryBlock;
    if ms == [] {
      NothingSaid(need, keep, said);
    } else {
      var m, rest := ms[0], ms[1..];
      PrintedRequestBlocks(m.req, m.order, PrintAll(rest), need, keep, Says(said));
      PipelineSays(rest, 0, !AsksToClose(m.req.headers), said);
    }
  }

  lemma NothingSaid(need: nat, keep: bool, said: bool)
    ensures EveryBlock(Between("", need, keep), Says(said))
  {
  }

  // ------------------------------------------------------------ a front of a pipeline

  lemma {:induction false} PrintAllAppend(ms: seq<Printed>, more: seq<Printed>)
    ensures PrintAll(ms + more) == PrintAll(ms) + PrintAll(more) && Requests(ms + more) == Requests(ms) + Requests(more)
  {
    hide Print;
    if ms == [] {
      assert ms + more == more;
      EmptyFront(PrintAll(more));
    } else {
      assert (ms + more)[1..] == ms[1..] + more;
      PrintAllAppend(ms[1..], more);
      Assoc(Print(ms[0].req, ms[0].order), PrintAll(ms[1..]), PrintAll(more));
    }
  }

  lemma OneDrain(ss: seq<string>)
    ensures FeedAll(INITIAL, ss) == Drain(Between(Flatten(ss), 0, true))
  {
    if ss != [] {
      SegmentationIndependence(INITIAL, ss);
      EmptyFront(Flatten(ss));
    }
  }

  lemma Split(w: string, rest: string, a: string, b: string)
    requires w + rest == a + b && |a| <= |w|
    ensures w == a + w[|a|..] && w[|a|..] + rest == b
  {
    assert (w + rest)[..|a|] == w[..|a|] && (a + b)[..|a|] == a;
    assert (w + rest)[|a|..] == w[|a|..] + rest && (a + b)[|a|..] == b;
  }

  /** From between two requests, a front of a printed pipeline hands on a front of its requests, and no other decision. */
  lemma FrontOfPipeline(more: seq<Printed>, keep: bool, x: string, rest: string, said: bool)
    requires forall i :: 0 <= i < |more| ==> Printable(more[i]) && more[i].order != [] && said == !AsksToClose(more[i].req.headers)
    requires x + rest == PrintAll(more)
    ensures var o := Drain(Between(x, 0, keep));
            o.emitted <= Requests(more) && (o.emitted != [] ==> o.parser.keepAlive == said)
  {
    hide Drain, EveryBlock, Printable, AsksToClose, PrintAll;
    PipelineDrains(more, keep);
    DrainThenFeed(Between(x, 0, keep), rest);
    PipelineSays(more, 0, keep, said);
    BlocksInTwo(Between(x, 0, keep), rest, Says(said));
    FlagIsSaid(Between(x, 0, keep), said);
  }

  /**
    The parser somewhere in a printed pipeline, behind its first requests: it has handed on a front of the
    requests, and behind the first ones the flag is what the others agree on.
  */
  lemma SomewhereInPipeline(ms: seq<Printed>, more: seq<Printed>, ss: seq<string>, rest: string, said: bool)
    requires forall i :: 0 <= i < |ms| ==> Printable(ms[i]) && ms[i].order != []
    requires forall i :: 0 <= i < |more| ==> Printable(more[i]) && more[i].order != [] && said == !AsksToClose(more[i].req.headers)
    requires Flatten(ss) + rest == PrintAll(ms + more) && |PrintAll(ms)| <= |Flatten(ss)|
    ensures var o := FeedAll(INITIAL, ss);
            && |ms| <= |o.emitted| && o.emitted <= Requests(ms + more)
            && (|o.emitted| > |ms| ==> o.parser.keepAlive == said)
  {
    hide Drain, Printable, AsksToClose, PrintAll, FeedAll;
    var w, keep := Flatten(ss), LastKeepAlive(ms, true);
    PrintAllAppend(ms, more);
    Split(w, rest, PrintAll(ms), PrintAll(more));
    var x := w[|PrintAll(ms)|..];
    OneDrain(ss);
    PipelineDrains(ms, true);
    DrainThenFeed(Between(PrintAll(ms), 0, true), x);
    EmptyFront(x);
    FrontOfPipeline(more, keep, x, rest, said);
  }
}
