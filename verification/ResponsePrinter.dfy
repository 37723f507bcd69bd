/** The library's response printer, and how its output is delimited. */
module ResponsePrinter {
  import opened Text
  import opened Numbers
  import opened Segments
  import opened StreamTheorems
  import opened Accumulator
  import opened AccumulatorTheorems
  import UringTransmit

  datatype Response = Response(code: string, headers: map<string, string>, body: string)

  function StatusLine(r: Response): string { "HTTP/1.1 " + r.code }

  function LengthLine(r: Response): string { "Content-Length: " + Decimal(|r.body|) }

  /** All lines of the head, the header map in some order. */
  function HeadLines(r: Response, order: seq<string>): seq<string> {
    [StatusLine(r), LengthLine(r)] + HeaderLines(r.headers, order)
  }

  /** The message that the queued segments have to add up to. */
  function MessageOf(r: Response, order: seq<string>): Message { Message(HeadLines(r, order), r.body) }

  // ------------------------------------------------------------ the code

  /** What a route handler makes of a request and of the response object it is given. */
  type Handler = (StreamParser.Request, Response) -> Response

  class PerClientStorage {
    var req: StreamParser.Request
    var res: Response
    var requestHandler: Option<Handler>
    var txq: seq<OwnedBuf>

    constructor (req: StreamParser.Request, res: Response, handler: Option<Handler>)
      ensures this.req == req && this.res == res && requestHandler == handler && txq == []
    {
      this.req, this.res, requestHandler, txq := req, res, handler, [];
    }

    /** `order` is the iteration order of header maps; `flush` says that a flush task is posted. */
    method GenerateResponse(order: Response -> seq<string>) returns (flush: bool)
      modifies this`res, this`txq
      ensures flush == requestHandler.Some?
      ensures requestHandler.None? ==> txq == old(txq) && res == old(res)
      ensures requestHandler.Some? ==>
                && res == requestHandler.value(req, old(res))
                && |old(txq)| <= |txq| && txq[..|old(txq)|] == old(txq)
                && Wire(txq[|old(txq)|..]) == MessageText(MessageOf(res, order(res)))
                && (forall k :: |old(txq)| <= k < |txq| ==> !txq[k].eor)
    {
      if requestHandler == None { return false; }
      res := requestHandler.value(req, res);
      hide HeaderLines, Lines, Flatten;
      ghost var before, answer := txq, res;
      var response := "HTTP/1.1 " + res.code + "\r\n";
      response := response + ("Content-Length: " + Decimal(|res.body|) + "\r\n");
      ghost var sent: seq<string> := [];
      QueueStarts(before);
      QueueOne(before, sent, response);
      txq := txq + [OwnedBuf(response, false)];
      sent := sent + [response];
      var names := order(res);
      var i := 0;
      NoHeaderLines(res.headers, names, response);
      while i < |names|
        invariant res == answer
        invariant 0 <= i <= |names| && txq == before + UringTransmit.Unmarked(sent)
        invariant Flatten(sent) == response + Lines(HeaderLines(res.headers, names[..i]))
      {
        var header := names[i] + ": " + ValueOf(res.headers, names[i]) + "\r\n";
        OneMoreHeader(res.headers, names, i, response);
        QueueOne(before, sent, header);
        txq := txq + [OwnedBuf(header, false)];
        sent := sent + [header];
        i := i + 1;
      }
      assert names[..|names|] == names;
      QueueOne(before, sent, "\r\n");
      txq := txq + [OwnedBuf("\r\n", false)];
      sent := sent + ["\r\n"];
      QueueOne(before, sent, res.body);
      txq := txq + [OwnedBuf(res.body, false)];
      sent := sent + [res.body];
      QueueEnds(before, sent);
      MessageBytes(res, names);
      flush := true;
    }
  }

  // ------------------------------------------------------------ the queue holds the message

  lemma QueueStarts(before: seq<OwnedBuf>)
    ensures before == before + UringTransmit.Unmarked([]) && Flatten([]) == ""
  {
  }

  lemma QueueOne(before: seq<OwnedBuf>, sent: seq<string>, text: string)
    ensures before + UringTransmit.Unmarked(sent) + [OwnedBuf(text, false)] == before + UringTransmit.Unmarked(sent + [text])
    ensures Flatten(sent + [text]) == Flatten(sent) + text
  {
    FlattenAppend(sent, [text]);
    assert [text][1..] == [];
    EmptyBack(text);
    assert UringTransmit.Unmarked(sent + [text]) == UringTransmit.Unmarked(sent) + [OwnedBuf(text, false)];
  }

  lemma QueueEnds(before: seq<OwnedBuf>, sent: seq<string>)
    ensures var q := before + UringTransmit.Unmarked(sent);
            && q[..|before|] == before && Wire(q[|before|..]) == Flatten(sent)
            && (forall k :: |before| <= k < |q| ==> !q[k].eor)
  {
    var q := before + UringTransmit.Unmarked(sent);
    assert q[|before|..] == UringTransmit.Unmarked(sent);
    WireOfTexts(sent);
  }

  lemma {:induction false} WireOfTexts(sent: seq<string>)
    ensures Wire(UringTransmit.Unmarked(sent)) == Flatten(sent)
    decreases |sent|
  {
    if sent != [] {
      assert UringTransmit.Unmarked(sent)[1..] == UringTransmit.Unmarked(sent[1..]);
      WireOfTexts(sent[1..]);
    }
  }

  lemma NoHeaderLines(hs: map<string, string>, names: seq<string>, response: string)
    ensures Flatten([]) + response == response + Lines(HeaderLines(hs, names[..0]))
  {
    EmptyFront(response);
    EmptyBack(response);
    assert names[..0] == [];
  }

  lemma {:induction false} HeaderLinesAppend(hs: map<string, string>, a: seq<string>, b: seq<string>)
    ensures HeaderLines(hs, a + b) == HeaderLines(hs, a) + HeaderLines(hs, b)
  {
    if a == [] {
      assert a + b == b;
    } else {
      assert (a + b)[1..] == a[1..] + b;
      HeaderLinesAppend(hs, a[1..], b);
    }
  }

  lemma OneMoreHeader(hs: map<string, string>, names: seq<string>, i: nat, response: string)
    requires i < |names|
    ensures var header := names[i] + ": " + ValueOf(hs, names[i]) + "\r\n";
            response + Lines(HeaderLines(hs, names[..i])) + header == response + Lines(HeaderLines(hs, names[..i + 1]))
  {
    var line := HeaderLine(names[i], ValueOf(hs, names[i]));
    assert names[..i + 1] == names[..i] + [names[i]];
    HeaderLinesAppend(hs, names[..i], [names[i]]);
    assert [names[i]][1..] == [];
    assert HeaderLines(hs, [names[i]]) == [line] by { assert [line] + [] == [line]; }
    LinesAppend(HeaderLines(hs, names[..i]), [line]);
    assert [line][1..] == [];
    EmptyBack(line + CRLF);
    assert Lines([line]) == line + CRLF;
    Assoc(response, Lines(HeaderLines(hs, names[..i])), line + CRLF);
  }

  lemma MessageBytes(r: Response, order: seq<string>)
    ensures MessageText(MessageOf(r, order))
         == "HTTP/1.1 " + r.code + "\r\n" + ("Content-Length: " + Decimal(|r.body|) + "\r\n")
            + Lines(HeaderLines(r.headers, order)) + "\r\n" + r.body
  {
    var hs := HeaderLines(r.headers, order);
    var a, b := StatusLine(r), LengthLine(r);
    LinesAppend([a, b], hs);
    assert [a, b][1..] == [b] && [b][1..] == [];
    assert Lines([b]) == b + CRLF + "" && Lines([a, b]) == a + CRLF + Lines([b]);
    EmptyBack(b + CRLF);
  }

  // ------------------------------------------------------------ the message delimits itself

  /** No line of the head has a line end inside, and no header of the handler names a length. */
  ghost predicate Plain(r: Response) {
    && NoCrlf(StatusLine(r))
    && (forall n :: n in r.headers ==> NoCrlf(HeaderLine(n, r.headers[n])) && !LineNames(HeaderLine(n, r.headers[n]), "content-length"))
  }

  lemma LengthLineStates(r: Response)
    ensures LineIs(LengthLine(r), "content-length", Decimal(|r.body|))
    ensures NoCrlf(LengthLine(r))
  {
    hide NoCrlf, Decimal, LineIs;
    LengthLineIs(Decimal(|r.body|));
  }

  lemma {:induction false} HandlerLines(hs: map<string, string>, order: seq<string>)
    requires forall n :: n in order ==> n in hs
    requires forall n :: n in order ==> NoCrlf(HeaderLine(n, hs[n]))
    ensures GoodLines(HeaderLines(hs, order))
    ensures (forall n :: n in order ==> !LineNames(HeaderLine(n, hs[n]), "content-length"))
            ==> NoneNames(HeaderLines(hs, order), "content-length")
    decreases |order|
  {
    hide LineNames;
    if order != [] {
      assert order[0] in order;
      HandlerLines(hs, order[1..]);
    }
  }

  lemma PlainIsGood(r: Response, order: seq<string>)
    requires Plain(r) && ListsOnce(order, r.headers.Keys) && |r.body| <= ULLONG_MAX
    ensures var m := MessageOf(r, order);
            GoodLines(m.lines) && m.lines != [] && |r.body| == ApplyLines(DEFAULT, m.lines).length
  {
    hide LineNames, LineIs, ApplyLine, ApplyLines;
    var hs := HeaderLines(r.headers, order);
    HandlerLines(r.headers, order);
    LengthLineStates(r);
    LastLineDecides(DEFAULT, [StatusLine(r)], LengthLine(r), hs, Decimal(|r.body|));
    StrtoullDecimal(|r.body|);
    assert [StatusLine(r)] + [LengthLine(r)] + hs == HeadLines(r, order);
    assert StatusLine(r) != "" && LengthLine(r) != "";
  }

  /**
    The message says itself where it ends, in every order of the header map and whatever follows it: its
    first empty line is followed by exactly as many bytes as its Content-Length states, and they are the
    body (section 6.3 of RFC 9112).
  */
  lemma {:induction false} ResponseIsSelfDelimiting(r: Response, order: seq<string>, following: string)
    requires Plain(r) && ListsOnce(order, r.headers.Keys) && |r.body| <= ULLONG_MAX
    ensures var wire := MessageText(MessageOf(r, order)) + following; var e := Find(wire, CRLF2, 0);
            && e.Some?
            && Scan(wire, e.value).length == |r.body| && |wire| == e.value + 4 + |r.body| + |following|
            && wire[e.value + 4..][..|r.body|] == r.body
  {
    hide ApplyLine, ApplyLines, ScanLines, HeadLines, Lines, Find;
    PlainIsGood(r, order);
    var ls := HeadLines(r, order);
    BlockIsScanned(ls, r.body + following);
    var wire := MessageText(MessageOf(r, order)) + following;
    Assoc(Lines(ls) + CRLF, r.body, following);
    BodyAt(Lines(ls) + CRLF, r.body, following);
  }

  lemma BodyAt(head: string, body: string, following: string)
    ensures (head + (body + following))[|head|..][..|body|] == body
  {
  }

  /** A response whose head lines are sound is delimited if and only if the length they state last is the body's. */
  lemma {:induction false} DelimitedIffLastLength(r: Response, order: seq<string>)
    requires GoodLines(HeadLines(r, order))
    ensures Exact(MessageText(MessageOf(r, order))) <==>
              ApplyLines(DEFAULT, HeadLines(r, order)).length == |r.body| && |MessageText(MessageOf(r, order))| < SIZE_LIMIT
  {
    hide ApplyLine, ApplyLines, ScanLines, HeadLines, Lines, Find;
    HeadIsNotEmpty(r, order);
    BlockIsScanned(HeadLines(r, order), r.body);
  }

  lemma HeadIsNotEmpty(r: Response, order: seq<string>)
    ensures HeadLines(r, order) != []
  {
  }

  /** A handler's own Content-Length header takes precedence; the message is delimited only if it states the same length. */
  lemma {:induction false} OwnLengthDecides(r: Response, before: seq<string>, name: string, after: seq<string>)
    requires ListsOnce(before + [name] + after, r.headers.Keys) && GoodLines(HeadLines(r, before + [name] + after))
    requires LineIs(HeaderLine(name, r.headers[name]), "content-length", TrimLeft(r.headers[name]))
    requires forall n :: n in after ==> !LineNames(HeaderLine(n, r.headers[n]), "content-length")
    ensures var wire := MessageText(MessageOf(r, before + [name] + after));
            Exact(wire) <==> Strtoull(TrimLeft(r.headers[name])) == |r.body| && |wire| < SIZE_LIMIT
  {
    hide LineNames, LineIs, ApplyLine, ApplyLines, MessageText, Exact, HeaderLines;
    var order := before + [name] + after;
    var hs := r.headers;
    DelimitedIffLastLength(r, order);
    assert forall n :: n in after ==> n in order;
    AfterNames(hs, after);
    var front := [StatusLine(r), LengthLine(r)] + HeaderLines(hs, before);
    var own := HeaderLine(name, hs[name]);
    HeaderLinesAppend(hs, before + [name], after);
    HeaderLinesAppend(hs, before, [name]);
    assert name in order;
    OneHeaderLine(hs, name);
    LastLineDecides(DEFAULT, front, own, HeaderLines(hs, after), TrimLeft(hs[name]));
    assert front + [own] + HeaderLines(hs, after) == HeadLines(r, order);
  }

  /** Every line that states a length states `n`: what section 6.3 of RFC 9112 asks of repeated fields. */
  ghost predicate LengthsAgree(ls: seq<string>, n: nat) {
    forall i :: 0 <= i < |ls| ==> forall v :: LineIs(ls[i], "content-length", v) ==> Strtoull(v) == n
  }

  /**
    A reader that rejects lengths that differ, whichever line it takes, accepts the head if and only if
    every length the handler states itself is the body's.
  */
  lemma {:induction false} LengthsAgreeIff(r: Response, order: seq<string>)
    requires |r.body| <= ULLONG_MAX
    ensures LengthsAgree(HeadLines(r, order), |r.body|)
       <==> LengthsAgree([StatusLine(r)], |r.body|) && LengthsAgree(HeaderLines(r.headers, order), |r.body|)
  {
    hide LineIs, Strtoull;
    var hs := HeaderLines(r.headers, order);
    var ls := HeadLines(r, order);
    var n := |r.body|;
    LengthLineAgrees(r);
    assert ls[0] == StatusLine(r) && ls[1] == LengthLine(r);
    assert forall i :: 0 <= i < |hs| ==> ls[i + 2] == hs[i];
    if LengthsAgree(ls, n) {
      forall i | 0 <= i < |hs| ensures forall v :: LineIs(hs[i], "content-length", v) ==> Strtoull(v) == n {
        assert hs[i] == ls[i + 2];
      }
    }
    if LengthsAgree([StatusLine(r)], n) && LengthsAgree(hs, n) {
      forall i | 0 <= i < |ls| ensures forall v :: LineIs(ls[i], "content-length", v) ==> Strtoull(v) == n {
        if i >= 2 { assert ls[i] == hs[i - 2]; }
        assert [StatusLine(r)][0] == StatusLine(r);
      }
    }
  }

  lemma LengthLineAgrees(r: Response)
    requires |r.body| <= ULLONG_MAX
    ensures forall v :: LineIs(LengthLine(r), "content-length", v) ==> Strtoull(v) == |r.body|
  {
    hide Strtoull, Decimal, NoCrlf;
    LengthLineStates(r);
    StrtoullDecimal(|r.body|);
  }

  lemma OneHeaderLine(hs: map<string, string>, name: string)
    requires name in hs
    ensures HeaderLines(hs, [name]) == [HeaderLine(name, hs[name])]
  {
    assert [name][1..] == [];
    assert HeaderLines(hs, []) == [];
  }

  lemma {:induction false} AfterNames(hs: map<string, string>, order: seq<string>)
    requires forall n :: n in order ==> n in hs && !LineNames(HeaderLine(n, hs[n]), "content-length")
    ensures NoneNames(HeaderLines(hs, order), "content-length")
    decreases |order|
  {
    hide LineNames;
    if order != [] {
      assert order[0] in order;
      AfterNames(hs, order[1..]);
    }
  }

  datatype Printed = Printed(res: Response, order: seq<string>)

  ghost predicate Printable(p: Printed) {
    Plain(p.res) && ListsOnce(p.order, p.res.headers.Keys) && |MessageText(MessageOf(p.res, p.order))| < SIZE_LIMIT
  }

  function MessagesOf(ps: seq<Printed>): (ms: seq<Message>)
    ensures |ms| == |ps| && forall i :: 0 <= i < |ps| ==> ms[i] == MessageOf(ps[i].res, ps[i].order)
  {
    seq(|ps|, i requires 0 <= i < |ps| => MessageOf(ps[i].res, ps[i].order))
  }

  /** A peer that frames by Content-Length finds exactly the printed responses in the stream, however it is cut. */
  lemma {:induction false} PrintedResponsesAreFramed(ps: seq<Printed>, ss: seq<string>)
    requires ss != [] && forall p :: p in ps ==> Printable(p)
    requires Flatten(ss) == BytesOf(FramesOf(MessagesOf(ps)))
    ensures var o := ReceiveAll(Rx("", true, 0), ss);
            o == Framed(Rx("", LastKeep(FramesOf(MessagesOf(ps)), true), 0), FramesOf(MessagesOf(ps)), false)
  {
    hide Plain, ReceiveAll, GoodLines, ApplyLines, Lines, FramesOf, BytesOf, Flatten;
    var ms := MessagesOf(ps);
    forall m | m in ms ensures GoodMessage(m) {
      var i :| 0 <= i < |ms| && ms[i] == m;
      assert ps[i] in ps && Printable(ps[i]);
      assert |ps[i].res.body| <= |MessageText(ms[i])|;
      PlainIsGood(ps[i].res, ps[i].order);
    }
    PipelineIsFramed(ms, ss);
  }
}
