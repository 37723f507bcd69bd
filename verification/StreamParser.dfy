/** The three-state streaming HTTP/1.1 parser shared by the IOCP and the epoll server. */
module StreamParser {
  import opened Text
  import opened Numbers

  datatype Request = Request(verb: string, path: string, protocol: string,
                             headers: map<string, string>, body: string)

  const EMPTY_REQUEST := Request("", "", "", map[], "")

  datatype Phase = StartLine | Headers | Body

  /** Parser state together with the request under construction (`owner->req`). */
  datatype Parser = Parser(phase: Phase, acc: string, need: nat, keepAlive: bool, req: Request)

  const INITIAL := Parser(StartLine, "", 0, true, EMPTY_REQUEST)

  // ------------------------------------------------------------ request line and header block

  function ParseRequestLine(line: string, req: Request): Request {
    var p1 := Find(line, " ", 0);
    var p2 := if p1.None? then None else Find(line, " ", p1.value + 1);
    req.(verb := if p1.None? then line else line[..p1.value],
         path := if p1.None? || p2.None? then "/" else line[p1.value + 1..p2.value],
         protocol := if p2.None? then "HTTP/1.1" else line[p2.value + 1..])
  }

  /** `unordered_map::emplace`: the first value stored under a name stays. */
  function Emplace(hs: map<string, string>, name: string, value: string): map<string, string> {
    if name in hs then hs else hs[name := value]
  }

  /** Effect of one header line; a line without a colon has none. */
  function AddLine(hs: map<string, string>, line: string): map<string, string> {
    match Find(line, ":", 0)
    case None => hs
    case Some(c) => Emplace(hs, line[..c], TrimLeft(line[c + 1..]))
  }

  function LineEnd(block: string, start: nat): (e: nat)
    requires start <= |block|
    ensures start <= e <= |block|
  {
    match Find(block, CRLF, start) case None => |block| case Some(e) => e
  }

  /** The header map after the lines of `block` from `start` on, up to the first empty one. */
  function ScanHeaders(block: string, start: nat, hs: map<string, string>): map<string, string>
    decreases |block| - start
  {
    if start >= |block| then hs
    else
      var end := LineEnd(block, start);
      if end == start then hs
      else ScanHeaders(block, end + 2, AddLine(hs, block[start..end]))
  }

  function KeepAliveOf(hs: map<string, string>): bool {
    "Connection" in hs ==> Find(Lower(hs["Connection"]), "close", 0).None?
  }

  function ContentLengthOf(hs: map<string, string>): nat {
    if "Content-Length" in hs then Strtoull(hs["Content-Length"]) else 0
  }

  // ------------------------------------------------------------ the machine

  /** Where a run of the machine stops, and the requests it handed on. */
  datatype Outcome = Outcome(parser: Parser, emitted: seq<Request>)

  /** Runs the machine until it needs more bytes. */
  function Drain(p: Parser): Outcome
    decreases |p.acc|, if p.phase.Body? then 1 else 0
  {
    match p.phase
    case StartLine =>
      var e := Find(p.acc, CRLF, 0);
      if e.None? then Outcome(p, []) else Drain(TakeLine(p, e.value))
    case Headers =>
      var e := Find(p.acc, CRLF2, 0);
      if e.None? then Outcome(p, []) else Drain(TakeHeaders(p, e.value))
    case Body =>
      var q := TakeBody(p);
      if q.need > 0 then Outcome(q, []) else Prepend([q.req], Drain(NextRequest(q)))
  }

  function Prepend(out: seq<Request>, o: Outcome): Outcome {
    o.(emitted := out + o.emitted)
  }

  lemma PrependTwice(a: seq<Request>, b: seq<Request>, o: Outcome)
    ensures Prepend(a, Prepend(b, o)) == Prepend(a + b, o)
  {
    assert a + (b + o.emitted) == (a + b) + o.emitted;
  }

  function NextRequest(p: Parser): Parser {
    p.(req := EMPTY_REQUEST, phase := StartLine)
  }

  /** What the Body phase does: stall with an empty accumulator, or hand the request on. */
  lemma BodyStep(p: Parser)
    requires p.phase.Body?
    ensures var q := TakeBody(p);
            if q.need > 0 then q.acc == "" && Drain(p) == Outcome(q, []) && Drain(q) == Outcome(q, [])
            else Drain(p) == Prepend([q.req], Drain(NextRequest(q)))
  {
    hide Find, TakeLine, TakeHeaders, NextRequest;
    BodyWaits(p);
  }

  /** Where the body falls short nothing is held and nothing is left to take. */
  lemma BodyWaits(p: Parser)
    ensures var q := TakeBody(p); q.need > 0 ==> q.acc == "" && TakeBody(q) == q
  {
    var q := TakeBody(p);
    if q.need > 0 {
      assert q.req.body + "" == q.req.body;
      assert q.acc[..0] == "" && q.acc[0..] == "";
    }
  }

  function TakeLine(p: Parser, e: nat): Parser
    requires e + 2 <= |p.acc|
  {
    p.(req := ParseRequestLine(p.acc[..e], p.req), acc := p.acc[e + 2..], phase := Headers)
  }

  function TakeHeaders(p: Parser, e: nat): Parser
    requires e + 4 <= |p.acc|
  {
    var hs := ScanHeaders(p.acc[..e + 2], 0, p.req.headers);
    p.(req := p.req.(headers := hs, body := ""), keepAlive := KeepAliveOf(hs),
       need := ContentLengthOf(hs), acc := p.acc[e + 4..], phase := Body)
  }

  function TakeBody(p: Parser): (q: Parser)
    ensures q.phase == p.phase
  {
    var take := if p.need <= |p.acc| then p.need else |p.acc|;
    p.(req := p.req.(body := p.req.body + p.acc[..take]), acc := p.acc[take..], need := p.need - take)
  }

  /** The run from `p` meets no header block behind which the parser fails `ok`. */
  predicate EveryBlock(p: Parser, ok: Parser -> bool)
    decreases |p.acc|, if p.phase.Body? then 1 else 0
  {
    match p.phase
    case StartLine =>
      var e := Find(p.acc, CRLF, 0);
      e.Some? ==> EveryBlock(TakeLine(p, e.value), ok)
    case Headers =>
      var e := Find(p.acc, CRLF2, 0);
      e.Some? ==> ok(TakeHeaders(p, e.value)) && EveryBlock(TakeHeaders(p, e.value), ok)
    case Body =>
      var q := TakeBody(p);
      q.need == 0 ==> EveryBlock(NextRequest(q), ok)
  }

  /** `reserve` throws when it is asked for more than `limit` bytes: no header block on the way states more. */
  predicate Reserves(p: Parser, limit: nat) { EveryBlock(p, Within(limit)) }

  function Within(limit: nat): Parser -> bool { (q: Parser) => q.need <= limit }

  function Feed(p: Parser, s: string): Outcome {
    Drain(p.(acc := p.acc + s))
  }

  function FeedAll(p: Parser, ss: seq<string>): Outcome
    decreases ss
  {
    if ss == [] then Outcome(p, []) else
    var o := Feed(p, ss[0]);
    Prepend(o.emitted, FeedAll(o.parser, ss[1..]))
  }

  // ------------------------------------------------------------ the code

  class RequestContext {
    var state: Phase
    var acc: string
    var bodyBytesNeeded: nat
    var keepAlive: bool
    var req: Request            // owner->req
    var emitted: seq<Request>   // requests handed to enqueue_request_for_response
    const reserveLimit: nat     // the largest `reserve` that does not throw

    ghost function View(): Parser
      reads this
    {
      Parser(state, acc, bodyBytesNeeded, keepAlive, req)
    }

    constructor (limit: nat)
      ensures View() == INITIAL && emitted == [] && reserveLimit == limit
    {
      reserveLimit := limit;
      state, acc, bodyBytesNeeded, keepAlive := StartLine, "", 0, true;
      req, emitted := EMPTY_REQUEST, [];
    }

    static method ReadHeaderLine(block: string, start: nat, end: nat, headers: map<string, string>)
      returns (hs: map<string, string>)
      requires start <= end <= |block|
      ensures hs == AddLine(headers, block[start..end])
    {
      hs := headers;
      var colon := Find(block, ":", start);
      LineColon(block, start, end);
      if colon.Some? && colon.value < end {
        var vbeg := SkipBlanks(block, colon.value + 1, end);
        ghost var line := block[start..end];
        assert line[..colon.value - start] == block[start..colon.value];
        assert line[colon.value - start + 1..] == block[colon.value + 1..end];
        hs := Emplace(hs, block[start..colon.value], block[vbeg..end]);
      }
    }

    static method ParseHeaders(block: string, headers: map<string, string>)
      returns (hs: map<string, string>, keep: bool, contentLength: nat)
      ensures hs == ScanHeaders(block, 0, headers)
      ensures keep == KeepAliveOf(hs) && contentLength == ContentLengthOf(hs)
    {
      hs, keep, contentLength := headers, true, 0;
      var start := 0;
      ghost var goal := ScanHeaders(block, 0, headers);
      while start < |block|
        invariant ScanHeaders(block, start, hs) == goal
        decreases |block| - start
      {
        var end := LineEnd(block, start);
        if end == start { break; }
        hs := ReadHeaderLine(block, start, end, hs);
        start := end + 2;
      }
      if "Connection" in hs {
        keep := Find(Lower(hs["Connection"]), "close", 0).None?;
      }
      if "Content-Length" in hs {
        contentLength := Strtoull(hs["Content-Length"]);
      }
    }

    static method SkipBlanks(block: string, from: nat, end: nat) returns (vbeg: nat)
      requires from <= end <= |block|
      ensures from <= vbeg <= end && block[vbeg..end] == TrimLeft(block[from..end])
    {
      vbeg := from;
      while vbeg < end && IsBlank(block[vbeg])
        invariant from <= vbeg <= end
        invariant TrimLeft(block[vbeg..end]) == TrimLeft(block[from..end])
      {
        assert block[vbeg..end][1..] == block[vbeg + 1..end];
        vbeg := vbeg + 1;
      }
    }

    /** The StartLine phase; `more` is false when the line is not complete. */
    method ReadLine() returns (more: bool)
      requires state == StartLine
      modifies this
      ensures emitted == old(emitted) && Drain(View()) == Drain(old(View()))
      ensures Reserves(View(), reserveLimit) == Reserves(old(View()), reserveLimit)
      ensures if more then state == Headers && |acc| < |old(acc)|
              else Drain(View()) == Outcome(View(), []) && Reserves(View(), reserveLimit)
    {
      var eol := Find(acc, CRLF, 0);
      more := eol.Some?;
      if more {
        req := ParseRequestLine(acc[..eol.value], req);
        acc := acc[eol.value + 2..];
        state := Headers;
      }
    }

    /** The Headers phase; `more` is false when the block is not complete, `thrown` says that `reserve` threw. */
    method ReadHeaders() returns (more: bool, thrown: bool)
      requires state == Headers
      modifies this
      ensures thrown ==> !Reserves(old(View()), reserveLimit)
      ensures !thrown ==> emitted == old(emitted) && Drain(View()) == Drain(old(View()))
      ensures !thrown ==> Reserves(View(), reserveLimit) == Reserves(old(View()), reserveLimit)
      ensures thrown || (if more then state == Body && |acc| < |old(acc)|
                         else Drain(View()) == Outcome(View(), []) && Reserves(View(), reserveLimit))
    {
      hide ScanHeaders, KeepAliveOf, ContentLengthOf;
      thrown := false;
      var hdrEnd := Find(acc, CRLF2, 0);
      more := hdrEnd.Some?;
      if more {
        var hs, keep, contentLength := ParseHeaders(acc[..hdrEnd.value + 2], req.headers);
        keepAlive := keep;
        acc := acc[hdrEnd.value + 4..];
        req := req.(headers := hs, body := "");
        if contentLength > reserveLimit { return false, true; }
        bodyBytesNeeded := contentLength;
        state := Body;
      }
    }

    /** The Body phase; `more` is false when bytes of the body are missing. */
    method ReadBody() returns (more: bool)
      requires state == Body
      modifies this
      ensures Prepend(emitted, Drain(View())) == Prepend(old(emitted), Drain(old(View())))
      ensures Reserves(View(), reserveLimit) == Reserves(old(View()), reserveLimit)
      ensures |acc| <= |old(acc)|
      ensures if more then state == StartLine else Drain(View()) == Outcome(View(), []) && Reserves(View(), reserveLimit)
    {
      hide Drain, EveryBlock;
      ghost var p := View();
      ghost var q := TakeBody(p);
      BodyStep(p);
      BodyBlocks(p, Within(reserveLimit));
      TakeSome();
      more := bodyBytesNeeded == 0;
      if more {
        emitted := emitted + [req];
        req := EMPTY_REQUEST;
        state := StartLine;
        assert View() == NextRequest(q);
        PrependTwice(old(emitted), [q.req], Drain(NextRequest(q)));
      }
    }

    /** Moves as many bytes of the body as there are, at most those that are missing. */
    method TakeSome()
      modifies this`req, this`acc, this`bodyBytesNeeded
      ensures View() == TakeBody(old(View()))
    {
      var take := if bodyBytesNeeded <= |acc| then bodyBytesNeeded else |acc|;
      if take > 0 {
        req := req.(body := req.body + acc[..take]);
        acc := acc[take..];
        bodyBytesNeeded := bodyBytesNeeded - take;
      } else {
        assert req.body + acc[..0] == req.body;
      }
    }

    /** One segment; `thrown` says that a header block stated more than can be reserved, and nothing catches that. */
    method OnSegment(p: string) returns (thrown: bool)
      modifies this
      ensures thrown <==> !Reserves(old(View()).(acc := old(acc) + p), reserveLimit)
      ensures !thrown ==> Outcome(View(), emitted) == Prepend(old(emitted), Feed(old(View()), p))
    {
      hide Drain, Reserves;
      acc := acc + p;
      ghost var goal := Prepend(emitted, Drain(View()));
      ghost var reserves := Reserves(View(), reserveLimit);
      thrown := false;
      while true
        invariant Prepend(emitted, Drain(View())) == goal && Reserves(View(), reserveLimit) == reserves && !thrown
        decreases |acc|, if state.Body? then 1 else 0
      {
        if state == StartLine {
          var more := ReadLine();
          if !more { break; }
        }
        if state == Headers {
          var more, failed := ReadHeaders();
          if failed { return true; }
          if !more { break; }
        }
        if state == Body {
          var more := ReadBody();
          if !more { break; }
        }
      }
      assert emitted + [] == emitted;
    }
  }

  lemma BodyBlocks(p: Parser, ok: Parser -> bool)
    requires p.phase.Body?
    ensures var q := TakeBody(p);
            if q.need > 0 then EveryBlock(p, ok) && EveryBlock(q, ok)
            else EveryBlock(p, ok) == EveryBlock(NextRequest(q), ok)
  {
    hide Find, TakeLine, TakeHeaders, NextRequest;
    BodyWaits(p);
  }

  /** Looking for the colon in the block, bounded by the line end, is looking in the line. */
  lemma {:induction false} LineColon(block: string, start: nat, end: nat)
    requires start <= end <= |block|
    ensures var c := Find(block, ":", start); var l := Find(block[start..end], ":", 0);
            (c.Some? && c.value < end <==> l.Some?) && (l.Some? ==> c.value == start + l.value)
    decreases end - start
  {
    if start < end {
      var line := block[start..end];
      assert block[start..start + 1] == [block[start]] == line[0..1];
      if block[start] != ':' {
        LineColon(block, start + 1, end);
        assert line == [block[start]] + block[start + 1..end];
        FindShift([block[start]], block[start + 1..end], ":", 0);
      }
    }
  }
}
