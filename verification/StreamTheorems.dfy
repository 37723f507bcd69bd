/** What the streaming parser promises: the cut of the input does not matter, and it undoes printing. */
module StreamTheorems {
  import opened Text
  import opened Numbers
  import opened StreamParser

  // ------------------------------------------------------------ segmentation

  function More(p: Parser, b: string): Parser { p.(acc := p.acc + b) }

  lemma LineWithMore(p: Parser, b: string)
    requires p.phase.StartLine? && Find(p.acc, CRLF, 0).Some?
    ensures var e := Find(p.acc, CRLF, 0).value;
            Drain(p) == Drain(TakeLine(p, e)) && Feed(p, b) == Feed(TakeLine(p, e), b)
  {
    var e := Find(p.acc, CRLF, 0).value;
    FindStable(p.acc, b, CRLF, 0);
    assert (p.acc + b)[..e] == p.acc[..e];
    assert (p.acc + b)[e + 2..] == p.acc[e + 2..] + b;
    assert TakeLine(More(p, b), e) == More(TakeLine(p, e), b);
  }

  lemma HeadersWithMore(p: Parser, b: string)
    requires p.phase.Headers? && Find(p.acc, CRLF2, 0).Some?
    ensures var e := Find(p.acc, CRLF2, 0).value;
            Drain(p) == Drain(TakeHeaders(p, e)) && Feed(p, b) == Feed(TakeHeaders(p, e), b)
  {
    var e := Find(p.acc, CRLF2, 0).value;
    FindStable(p.acc, b, CRLF2, 0);
    assert (p.acc + b)[..e + 2] == p.acc[..e + 2];
    assert (p.acc + b)[e + 4..] == p.acc[e + 4..] + b;
    assert TakeHeaders(More(p, b), e) == More(TakeHeaders(p, e), b);
  }

  lemma BodyWithMore(p: Parser, b: string)
    requires p.phase.Body?
    ensures var q := TakeBody(p);
            if q.need > 0 then Drain(p) == Outcome(q, []) && Feed(q, b) == Feed(p, b)
            else Drain(p) == Prepend([q.req], Drain(NextRequest(q)))
                 && Feed(p, b) == Prepend([q.req], Feed(NextRequest(q), b))
  {
    if TakeBody(p).need > 0 {
      TakeBodyInTwo(p, b);
      BodyStep(More(TakeBody(p), b));
    } else {
      TakeBodyThenMore(p, b);
    }
    BodyStep(p);
    BodyStep(More(p, b));
  }

  lemma TakeBodyInTwo(p: Parser, b: string)
    requires p.phase.Body? && |p.acc| < p.need
    ensures TakeBody(More(TakeBody(p), b)) == TakeBody(More(p, b))
  {
    var rest := p.need - |p.acc|;
    var take := if rest <= |b| then rest else |b|;
    assert p.acc[..|p.acc|] == p.acc;
    assert TakeBody(p).acc + b == b;
    assert (p.acc + b)[..|p.acc| + take] == p.acc + b[..take];
    assert (p.acc + b)[|p.acc| + take..] == b[take..];
    assert p.req.body + (p.acc + b[..take]) == (p.req.body + p.acc) + b[..take];
  }

  lemma TakeBodyThenMore(p: Parser, b: string)
    requires p.phase.Body? && p.need <= |p.acc|
    ensures TakeBody(More(p, b)) == More(TakeBody(p), b)
    ensures NextRequest(More(TakeBody(p), b)) == More(NextRequest(TakeBody(p)), b)
  {
    assert (p.acc + b)[..p.need] == p.acc[..p.need];
    assert (p.acc + b)[p.need..] == p.acc[p.need..] + b;
  }

  /** Draining first and feeding `b` afterwards is draining everything at once, from any state. */
  lemma {:induction false} DrainThenFeed(p: Parser, b: string)
    ensures Prepend(Drain(p).emitted, Feed(Drain(p).parser, b)) == Feed(p, b)
    decreases |p.acc|, if p.phase.Body? then 1 else 0
  {
    match p.phase
    case StartLine =>
      if Find(p.acc, CRLF, 0).Some? {
        LineWithMore(p, b);
        DrainThenFeed(TakeLine(p, Find(p.acc, CRLF, 0).value), b);
      }
    case Headers =>
      if Find(p.acc, CRLF2, 0).Some? {
        HeadersWithMore(p, b);
        DrainThenFeed(TakeHeaders(p, Find(p.acc, CRLF2, 0).value), b);
      }
    case Body =>
      BodyWithMore(p, b);
      var q := TakeBody(p);
      if q.need == 0 {
        DrainThenFeed(NextRequest(q), b);
        var o := Drain(NextRequest(q));
        PrependTwice([q.req], o.emitted, Feed(o.parser, b));
      }
  }

  /** Two segments one after the other are the same as their concatenation, in every state. */
  lemma {:induction false} FeedTwice(p: Parser, a: string, b: string)
    ensures Prepend(Feed(p, a).emitted, Feed(Feed(p, a).parser, b)) == Feed(p, a + b)
  {
    hide Drain;
    DrainThenFeed(p.(acc := p.acc + a), b);
    Assoc(p.acc, a, b);
  }

  /** Any segmentation of the same bytes gives the same requests and the same final state. */
  lemma {:induction false} SegmentationIndependence(p: Parser, ss: seq<string>)
    requires ss != []
    ensures FeedAll(p, ss) == Feed(p, Flatten(ss))
    decreases |ss|
  {
    var o := Feed(p, ss[0]);
    if |ss| == 1 {
      assert ss[0] + Flatten(ss[1..]) == ss[0];
      assert o.emitted + [] == o.emitted;
    } else {
      SegmentationIndependence(o.parser, ss[1..]);
      FeedTwice(p, ss[0], Flatten(ss[1..]));
    }
  }

  /** What is left behind when the machine waits: no complete line, no complete block, or a short body. */
  ghost predicate Waiting(p: Parser) {
    match p.phase
    case StartLine => Find(p.acc, CRLF, 0).None?
    case Headers => Find(p.acc, CRLF2, 0).None?
    case Body => p.acc == "" && p.need > 0
  }

  lemma {:induction false} DrainWaits(p: Parser)
    ensures Waiting(Drain(p).parser)
    decreases |p.acc|, if p.phase.Body? then 1 else 0
  {
    match p.phase
    case StartLine =>
      var e := Find(p.acc, CRLF, 0);
      if e.Some? { DrainWaits(TakeLine(p, e.value)); }
    case Headers =>
      var e := Find(p.acc, CRLF2, 0);
      if e.Some? { DrainWaits(TakeHeaders(p, e.value)); }
    case Body =>
      BodyStep(p);
      if TakeBody(p).need == 0 { DrainWaits(NextRequest(TakeBody(p))); }
  }

  // ------------------------------------------------------------ printing

  function RequestLine(r: Request): string { r.verb + " " + r.path + " " + r.protocol }

  function HeaderLine(name: string, value: string): string { name + ": " + value }

  function ValueOf(hs: map<string, string>, name: string): string {
    if name in hs then hs[name] else ""
  }

  function HeaderLines(hs: map<string, string>, order: seq<string>): seq<string> {
    if order == [] then [] else [HeaderLine(order[0], ValueOf(hs, order[0]))] + HeaderLines(hs, order[1..])
  }

  /** The wire form of a request whose headers are written in the given order. */
  function Print(r: Request, order: seq<string>): string {
    RequestLine(r) + CRLF + (Lines(HeaderLines(r.headers, order)) + CRLF + r.body)
  }

  /** A header that survives the trip: no line end inside, no colon in the name, no blank before the value. */
  ghost predicate GoodHeader(name: string, value: string) {
    && NoCrlf(HeaderLine(name, value))
    && ':' !in name
    && (value != "" ==> !IsBlank(value[0]))
  }

  ghost predicate ListsOnce(order: seq<string>, names: set<string>) {
    && (forall n :: n in order <==> n in names)
    && (forall i, j :: 0 <= i < j < |order| ==> order[i] != order[j])
  }

  /** The Connection header of the map holds the word "close". */
  ghost predicate AsksToClose(hs: map<string, string>) {
    "Connection" in hs && HasClose(hs["Connection"])
  }

  /** The Content-Length header of the map states the size of the body; without one there is none. */
  ghost predicate StatesBody(hs: map<string, string>, body: string) {
    if "Content-Length" in hs then Strtoull(hs["Content-Length"]) == |body| else body == ""
  }

  /** The size of a body, printed in decimal, states it. */
  lemma DecimalStatesBody(hs: map<string, string>, body: string)
    requires "Content-Length" in hs && hs["Content-Length"] == Decimal(|body|) && |body| <= ULLONG_MAX
    ensures StatesBody(hs, body)
  {
    StrtoullDecimal(|body|);
  }

  /** What the parser makes of any header map. */
  lemma PolicyMeaning(hs: map<string, string>)
    ensures KeepAliveOf(hs) <==> !AsksToClose(hs)
    ensures ContentLengthOf(hs) == if "Content-Length" in hs then Strtoull(hs["Content-Length"]) else 0
    ensures forall body :: StatesBody(hs, body) ==> ContentLengthOf(hs) == |body|
  {
    if "Connection" in hs { CloseIsFound(hs["Connection"]); }
  }

  ghost predicate WellFormed(r: Request, order: seq<string>) {
    && NoCrlf(RequestLine(r)) && ' ' !in r.verb && ' ' !in r.path
    && ListsOnce(order, r.headers.Keys)
    && (forall n :: n in r.headers ==> GoodHeader(n, r.headers[n]))
    && StatesBody(r.headers, r.body)
  }

  // ------------------------------------------------------------ parsing what was printed

  lemma ParsePrintedLine(r: Request, req: Request)
    requires ' ' !in r.verb && ' ' !in r.path
    ensures ParseRequestLine(RequestLine(r), req)
         == req.(verb := r.verb, path := r.path, protocol := r.protocol)
  {
    var line := RequestLine(r);
    var a, b := |r.verb|, |r.verb| + 1 + |r.path|;
    assert line[..a] == r.verb && line[a + 1..b] == r.path && line[b + 1..] == r.protocol;
    assert line[0..a] == r.verb;
    FindChar(line, ' ', 0, a);
    FindChar(line, ' ', a + 1, b);
  }

  lemma AddPrintedLine(hs: map<string, string>, name: string, value: string)
    requires GoodHeader(name, value)
    ensures AddLine(hs, HeaderLine(name, value)) == Emplace(hs, name, value)
  {
    var line := HeaderLine(name, value);
    assert line[0..|name|] == line[..|name|] == name;
    FindChar(line, ':', 0, |name|);
    assert line[|name| + 1..] == " " + value;
    assert (" " + value)[1..] == value;
    assert TrimLeft(" " + value) == TrimLeft(value) == value;
  }

  /** A request line without the two spaces it should have: defaults stand for what is missing. */
  lemma ShortRequestLine(verb: string, rest: string, req: Request)
    requires ' ' !in verb && ' ' !in rest
    ensures ParseRequestLine(verb, req) == req.(verb := verb, path := "/", protocol := "HTTP/1.1")
    ensures ParseRequestLine(verb + " " + rest, req) == req.(verb := verb, path := "/", protocol := "HTTP/1.1")
  {
    FindNoChar(verb, ' ', 0) by { assert verb[0..] == verb; }
    var line := verb + " " + rest;
    assert line[0..|verb|] == verb && line[|verb| + 1..] == rest;
    FindChar(line, ' ', 0, |verb|);
    FindNoChar(line, ' ', |verb| + 1);
    assert line[..|verb|] == verb;
  }

  /** With two spaces the protocol is everything behind the second, further spaces included. */
  lemma LongRequestLine(verb: string, path: string, protocol: string, req: Request)
    requires ' ' !in verb && ' ' !in path
    ensures ParseRequestLine(verb + " " + path + " " + protocol, req) == req.(verb := verb, path := path, protocol := protocol)
  {
    ParsePrintedLine(Request(verb, path, protocol, map[], ""), req);
  }

  /** A header line of any shape: no colon, no effect; otherwise the first value given for a name stays, without blanks in front. */
  lemma {:induction false} HeaderLineMeaning(hs: map<string, string>, name: string, blanks: string, value: string)
    requires ':' !in name && (forall c :: c in blanks ==> c == ' ' || c == '\t')
    requires value == "" || (value[0] != ' ' && value[0] != '\t')
    ensures AddLine(hs, name) == hs
    ensures AddLine(hs, name + ":" + blanks + value) == if name in hs then hs else hs[name := value]
  {
    hide Find, TrimLeft;
    AtColon(name, blanks + value);
    Assoc(name + ":", blanks, value);
    TrimsBlanks(blanks, value);
  }

  lemma {:induction false} AtColon(name: string, rest: string)
    requires ':' !in name
    ensures Find(name, ":", 0) == None
    ensures var line := name + ":" + rest;
            Find(line, ":", 0) == Some(|name|) && line[..|name|] == name && line[|name| + 1..] == rest
  {
    assert name[0..] == name;
    FindNoChar(name, ':', 0);
    var line := name + ":" + rest;
    assert line[0..|name|] == name;
    FindChar(line, ':', 0, |name|);
  }

  lemma {:induction false} TrimsBlanks(blanks: string, value: string)
    requires (forall c :: c in blanks ==> c == ' ' || c == '\t') && (value == "" || (value[0] != ' ' && value[0] != '\t'))
    ensures TrimLeft(blanks + value) == value
    decreases |blanks|
  {
    if blanks == "" {
      EmptyFront(value);
    } else {
      assert (blanks + value)[1..] == blanks[1..] + value && (blanks + value)[0] == blanks[0] && blanks[0] in blanks;
      assert forall c :: c in blanks[1..] ==> c in blanks;
      TrimsBlanks(blanks[1..], value);
    }
  }

  function FoldLines(hs: map<string, string>, ls: seq<string>): map<string, string>
    decreases ls
  {
    if ls == [] then hs else FoldLines(AddLine(hs, ls[0]), ls[1..])
  }

  /** Scanning a block of good lines is folding over the lines. */
  lemma {:induction false} ScanIsFold(pre: string, ls: seq<string>, hs: map<string, string>)
    requires GoodLines(ls)
    ensures ScanHeaders(pre + Lines(ls), |pre|, hs) == FoldLines(hs, ls)
    decreases |ls|
  {
    hide AddLine, ScanHeaders;
    if ls == [] {
      ScanNothing(pre, hs);
    } else {
      hide Lines;
      SplitBlock(pre, ls);
      ScanOne(pre, ls[0], Lines(ls[1..]), hs);
      ScanIsFold(pre + (ls[0] + CRLF), ls[1..], AddLine(hs, ls[0]));
    }
  }

  lemma ScanNothing(pre: string, hs: map<string, string>)
    ensures ScanHeaders(pre + "", |pre|, hs) == hs
  {
  }

  lemma {:induction false} SplitBlock(pre: string, ls: seq<string>)
    requires ls != []
    ensures pre + Lines(ls) == pre + (ls[0] + CRLF + Lines(ls[1..]))
    ensures pre + Lines(ls) == (pre + (ls[0] + CRLF)) + Lines(ls[1..])
    ensures |pre + (ls[0] + CRLF)| == |pre| + |ls[0]| + 2
  {
  }

  lemma {:induction false} ScanOne(pre: string, l: string, rest: string, hs: map<string, string>)
    requires NoCrlf(l) && l != ""
    ensures var block := pre + (l + CRLF + rest);
            ScanHeaders(block, |pre|, hs) == ScanHeaders(block, |pre| + |l| + 2, AddLine(hs, l))
  {
    LineAt(pre, l, rest);
    ScanStep(pre + (l + CRLF + rest), |pre|, hs);
  }

  lemma LineAt(pre: string, l: string, rest: string)
    requires NoCrlf(l)
    ensures var block := pre + (l + CRLF + rest);
            LineEnd(block, |pre|) == |pre| + |l| && block[|pre|..|pre| + |l|] == l
  {
    FirstCrlf(l, rest);
    FindShift(pre, l + CRLF + rest, CRLF, 0);
  }

  lemma ScanStep(block: string, start: nat, hs: map<string, string>)
    requires start < |block| && LineEnd(block, start) != start
    ensures var end := LineEnd(block, start);
            ScanHeaders(block, start, hs) == ScanHeaders(block, end + 2, AddLine(hs, block[start..end]))
  {
  }

  /** Folding over printed headers stores every one of them. */
  lemma {:induction false} FoldPrinted(all: map<string, string>, order: seq<string>, hs: map<string, string>)
    requires forall n :: n in order ==> n in all && n !in hs && GoodHeader(n, all[n])
    requires forall i, j :: 0 <= i < j < |order| ==> order[i] != order[j]
    ensures FoldLines(hs, HeaderLines(all, order)) == hs + (map n | n in order :: all[n])
    decreases |order|
  {
    if order == [] {
      assert hs + (map n | n in order :: all[n]) == hs;
    } else {
      AddPrintedLine(hs, order[0], all[order[0]]);
      FoldPrinted(all, order[1..], hs[order[0] := all[order[0]]]);
      MapShift(all, order, hs);
    }
  }

  lemma MapShift(all: map<string, string>, order: seq<string>, hs: map<string, string>)
    requires order != [] && order[0] !in order[1..]
    requires forall n :: n in order ==> n in all && n !in hs
    ensures hs + (map n | n in order :: all[n])
         == hs[order[0] := all[order[0]]] + (map n | n in order[1..] :: all[n])
  {
    assert order == [order[0]] + order[1..];
  }

  lemma {:induction false} PrintedLinesAreGood(hs: map<string, string>, order: seq<string>)
    requires forall n :: n in order ==> n in hs && GoodHeader(n, hs[n])
    ensures GoodLines(HeaderLines(hs, order))
  {
    if order != [] {
      PrintedLinesAreGood(hs, order[1..]);
    }
  }

  /** A parser between two requests whose accumulator holds `acc`. */
  function Between(acc: string, need: nat, keep: bool): Parser {
    Parser(StartLine, acc, need, keep, EMPTY_REQUEST)
  }

  /** The parser once the request line of `r` is off the accumulator. */
  function AfterLine(r: Request, acc: string, need: nat, keep: bool): Parser {
    Parser(Headers, acc, need, keep, EMPTY_REQUEST.(verb := r.verb, path := r.path, protocol := r.protocol))
  }

  function Block(r: Request, order: seq<string>): string {
    Lines(HeaderLines(r.headers, order))
  }

  lemma PrintedLineStep(r: Request, tail: string, need: nat, keep: bool)
    requires NoCrlf(RequestLine(r)) && ' ' !in r.verb && ' ' !in r.path
    ensures Drain(Between(RequestLine(r) + CRLF + tail, need, keep)) == Drain(AfterLine(r, tail, need, keep))
  {
    var line := RequestLine(r);
    var acc := line + CRLF + tail;
    FirstCrlf(line, tail);
    assert acc[..|line|] == line && acc[|line| + 2..] == tail;
    ParsePrintedLine(r, EMPTY_REQUEST);
  }

  lemma PrintedBlockIsRead(r: Request, order: seq<string>)
    requires WellFormed(r, order)
    ensures ScanHeaders(Block(r, order), 0, map[]) == r.headers
  {
    PrintedLinesAreGood(r.headers, order);
    EmptyFront(Block(r, order));
    ScanIsFold("", HeaderLines(r.headers, order), map[]);
    FoldPrinted(r.headers, order, map[]);
    ListedMap(r.headers, order);
  }

  lemma ListedMap(hs: map<string, string>, order: seq<string>)
    requires ListsOnce(order, hs.Keys)
    ensures map[] + (map n | n in order :: hs[n]) == hs
  {
  }

  lemma PrintedHeadersStep(r: Request, order: seq<string>, tail: string, need: nat, keep: bool)
    requires WellFormed(r, order) && order != []
    ensures Drain(AfterLine(r, Block(r, order) + CRLF + tail, need, keep))
         == Drain(Parser(Body, tail, |r.body|, KeepAliveOf(r.headers), r.(body := "")))
  {
    PrintedBlockEnd(r, order, tail);
    var p := AfterLine(r, Block(r, order) + CRLF + tail, need, keep);
    HeadersStep(p, |Block(r, order)| - 2);
    PrintedHeadersTaken(r, order, tail, need, keep);
  }

  lemma HeadersStep(p: Parser, e: nat)
    requires p.phase.Headers? && Find(p.acc, CRLF2, 0) == Some(e)
    ensures Drain(p) == Drain(TakeHeaders(p, e))
  {
  }

  lemma PrintedBlockEnd(r: Request, order: seq<string>, tail: string)
    requires WellFormed(r, order) && order != []
    ensures |Block(r, order)| >= 2
    ensures Find(Block(r, order) + CRLF + tail, CRLF2, 0) == Some(|Block(r, order)| - 2)
  {
    PrintedLinesAreGood(r.headers, order);
    FirstCrlf2(HeaderLines(r.headers, order), tail);
  }

  lemma PrintedHeadersTaken(r: Request, order: seq<string>, tail: string, need: nat, keep: bool)
    requires WellFormed(r, order) && |Block(r, order)| >= 2
    ensures TakeHeaders(AfterLine(r, Block(r, order) + CRLF + tail, need, keep), |Block(r, order)| - 2)
         == Parser(Body, tail, |r.body|, KeepAliveOf(r.headers), r.(body := ""))
  {
    var block := Block(r, order);
    var acc := block + CRLF + tail;
    assert acc[..|block|] == block && acc[|block| + 2..] == tail;
    PolicyMeaning(r.headers);
    PrintedBlockIsRead(r, order);
  }

  lemma PrintedBodyStep(r: Request, rest: string, keep: bool)
    ensures Drain(Parser(Body, r.body + rest, |r.body|, keep, r.(body := "")))
         == Prepend([r], Drain(Between(rest, 0, keep)))
  {
    var p := Parser(Body, r.body + rest, |r.body|, keep, r.(body := ""));
    assert p.acc[..|r.body|] == r.body && p.acc[|r.body|..] == rest;
    assert "" + r.body == r.body;
    BodyStep(p);
  }

  lemma PrintedBytes(r: Request, order: seq<string>, rest: string)
    ensures Print(r, order) + rest == RequestLine(r) + CRLF + (Block(r, order) + CRLF + (r.body + rest))
  {
  }

  /** A printed request with a header in front of `rest` is handed on, and parsing goes on with `rest`. */
  lemma {:induction false} PrintedRequestIsParsed(r: Request, order: seq<string>, rest: string, need: nat, keep: bool)
    requires WellFormed(r, order) && order != []
    ensures Drain(Between(Print(r, order) + rest, need, keep))
         == Prepend([r], Drain(Between(rest, 0, !AsksToClose(r.headers))))
  {
    var tail := r.body + rest;
    PrintedBytes(r, order, rest);
    PrintedLineStep(r, Block(r, order) + CRLF + tail, need, keep);
    PrintedHeadersStep(r, order, tail, need, keep);
    PolicyMeaning(r.headers);
    PrintedBodyStep(r, rest, KeepAliveOf(r.headers));
  }

  // ------------------------------------------------------------ pipelines

  /** A request with the order in which its headers are written. */
  datatype Printed = Printed(req: Request, order: seq<string>)

  ghost predicate Printable(m: Printed) { WellFormed(m.req, m.order) }

  function PrintAll(ms: seq<Printed>): string {
    if ms == [] then "" else Print(ms[0].req, ms[0].order) + PrintAll(ms[1..])
  }

  function Requests(ms: seq<Printed>): (rs: seq<Request>)
    ensures |rs| == |ms|
  {
    if ms == [] then [] else [ms[0].req] + Requests(ms[1..])
  }

  ghost function LastKeepAlive(ms: seq<Printed>, keep: bool): bool {
    if ms == [] then keep else !AsksToClose(ms[|ms| - 1].req.headers)
  }

  lemma {:induction false} PipelineDrains(ms: seq<Printed>, keep: bool)
    requires forall i :: 0 <= i < |ms| ==> Printable(ms[i]) && ms[i].order != []
    ensures Drain(Between(PrintAll(ms), 0, keep))
         == Outcome(Between("", 0, LastKeepAlive(ms, keep)), Requests(ms))
    decreases |ms|
  {
    if ms != [] {
      PrintedRequestIsParsed(ms[0].req, ms[0].order, PrintAll(ms[1..]), 0, keep);
      PipelineDrains(ms[1..], !AsksToClose(ms[0].req.headers));
    }
  }

  /** Pipelined round trip: however the bytes are cut, the parser hands on exactly the printed requests. */
  lemma {:induction false} PipelineRoundTrip(ms: seq<Printed>, segments: seq<string>)
    requires forall i :: 0 <= i < |ms| ==> Printable(ms[i]) && ms[i].order != []
    requires Flatten(segments) == PrintAll(ms)
    ensures FeedAll(INITIAL, segments) == Outcome(INITIAL.(keepAlive := LastKeepAlive(ms, true)), Requests(ms))
  {
    if segments == [] {
      assert ms == [];
    } else {
      SegmentationIndependence(INITIAL, segments);
      EmptyFront(PrintAll(ms));
      PipelineDrains(ms, true);
    }
  }

  // ------------------------------------------------------------ requests without headers

  /** The request line's own line end is gone, so the empty line alone never ends the block. */
  lemma {:induction false} HeaderlessRequestWaits(r: Request, need: nat, keep: bool)
    requires WellFormed(r, [])
    ensures Drain(Between(Print(r, []), need, keep)) == Outcome(AfterLine(r, CRLF, need, keep), [])
  {
    assert r.headers == map[];
    assert Print(r, []) == RequestLine(r) + CRLF + CRLF;
    PrintedLineStep(r, CRLF, need, keep);
  }

  /** The exact condition for one request: it comes back if and only if it has a header. */
  lemma {:induction false} RoundTripIffHeader(r: Request, order: seq<string>, segments: seq<string>)
    requires WellFormed(r, order) && Flatten(segments) == Print(r, order)
    ensures FeedAll(INITIAL, segments) == Outcome(INITIAL.(keepAlive := !AsksToClose(r.headers)), [r])
       <==> order != []
  {
    if order == [] {
      SegmentationIndependence(INITIAL, segments);
      EmptyFront(Print(r, order));
      HeaderlessRequestWaits(r, 0, true);
    } else {
      var ms := [Printed(r, order)];
      EmptyBack(Print(r, order));
      PipelineRoundTrip(ms, segments);
    }
  }

  /** Behind a request without headers the head of the next one is swallowed; parsing resumes in its body. */
  lemma {:induction false} HeaderlessSwallowsNextHead(r: Request, next: Request, order: seq<string>, rest: string, need: nat, keep: bool)
    requires WellFormed(r, []) && WellFormed(next, order)
    ensures Drain(Between(Print(r, []) + (Print(next, order) + rest), need, keep))
         == Prepend([r], Drain(Between(next.body + rest, 0, true)))
  {
    var ls, tail := HeadLines(next, order), next.body + rest;
    var acc := CRLF + (Lines(ls) + CRLF + tail);
    HeadlessBytes(r, next, order, rest);
    PrintedLineStep(r, acc, need, keep);
    PrintedLinesAreGood(next.headers, order);
    SwallowedBlock(ls, tail);
    HeadersStep(AfterLine(r, acc, need, keep), |Lines(ls)|);
    SwallowedTaken(r, ls, tail, need, keep);
    PrintedBodyStep(r, tail, true);
  }

  function HeadLines(r: Request, order: seq<string>): seq<string> {
    [RequestLine(r)] + HeaderLines(r.headers, order)
  }

  lemma HeadlessBytes(r: Request, next: Request, order: seq<string>, rest: string)
    requires WellFormed(r, [])
    ensures r.body == "" && r.headers == map[] && r.body + (next.body + rest) == next.body + rest
    ensures Print(r, []) + (Print(next, order) + rest)
         == RequestLine(r) + CRLF + (CRLF + (Lines(HeadLines(next, order)) + CRLF + (next.body + rest)))
  {
    assert r.headers == map[];
    HeadlessConcat(RequestLine(r), RequestLine(next), Lines(HeaderLines(next.headers, order)), next.body, rest);
    assert HeadLines(next, order)[1..] == HeaderLines(next.headers, order);
  }

  lemma HeadlessConcat(a: string, b: string, lines: string, body: string, rest: string)
    ensures a + CRLF + ("" + CRLF + "") + (b + CRLF + (lines + CRLF + body) + rest)
         == a + CRLF + (CRLF + (b + CRLF + lines + CRLF + (body + rest)))
  {
  }

  lemma SwallowedTaken(r: Request, ls: seq<string>, tail: string, need: nat, keep: bool)
    requires WellFormed(r, []) && r.headers == map[] && r.body == ""
    requires ScanHeaders((CRLF + (Lines(ls) + CRLF + tail))[..|Lines(ls)| + 2], 0, map[]) == map[]
    ensures TakeHeaders(AfterLine(r, CRLF + (Lines(ls) + CRLF + tail), need, keep), |Lines(ls)|)
         == Parser(Body, tail, 0, true, r.(body := ""))
  {
    assert (CRLF + (Lines(ls) + CRLF + tail))[|Lines(ls)| + 4..] == tail;
  }

  /** A block that starts with an empty line ends at the next one and yields no header. */
  lemma SwallowedBlock(ls: seq<string>, tail: string)
    requires ls != [] && GoodLines(ls)
    ensures var acc := CRLF + (Lines(ls) + CRLF + tail);
            Find(acc, CRLF2, 0) == Some(|Lines(ls)|) && ScanHeaders(acc[..|Lines(ls)| + 2], 0, map[]) == map[]
  {
    var s := Lines(ls) + CRLF + tail;
    var acc := CRLF + s;
    BlockEnd(ls, tail);
    var more := Lines(ls[1..]) + CRLF + tail;
    assert s == ls[0] + CRLF + more;
    LineThen(ls[0], more);
    assert FirstEmptyLine(acc, |Lines(ls)|) by {
      assert forall k {:trigger CrlfAt(acc, k)} :: 2 <= k ==> (CrlfAt(acc, k) <==> CrlfAt(s, k - 2));
      assert !CrlfAt(s, 0);
    }
    FirstEmptyLineIsFound(acc, |Lines(ls)|);
    var block := acc[..|Lines(ls)| + 2];
    CrlfPoint(block, 0);
    FindIs(block, CRLF, 0, 0);
  }
}
