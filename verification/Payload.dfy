/** What the servers answer: two heads and a body, and that head and body make one message. */
module Payload {
  import opened Text
  import opened Numbers
  import opened Segments
  import opened Accumulator
  import opened AccumulatorTheorems

  /** The head of a response, which keeps the connection open or announces that it will be closed. */
  function HeadText(keep: bool): string {
    "HTTP/1.1 200 OK\r\n" + "Content-Type: text/plain\r\n" + "Content-Length: 14\r\n"
    + (if keep then "Connection: keep-alive\r\n" else "Connection: close\r\n") + "\r\n"
  }

  function ResponseText(keep: bool): string { HeadText(keep) + "Hello, World!\n" }

  /** The connection is kept: the request asks for it, and `served` is below the limit less one, in unsigned arithmetic. */
  predicate Kept(keep: bool, served: nat, limit: nat) {
    keep && served < (if limit == 0 then 0xFFFF_FFFF else limit - 1)
  }

  ghost predicate IsHead(b: OwnedBuf, keep: bool) { b == OwnedBuf(HeadText(keep), false) }

  ghost predicate IsBody(b: OwnedBuf) { b == OwnedBuf("Hello, World!\n", true) }

  /** The constants of the servers are these texts. */
  lemma ConstantsAreTexts()
    ensures HEAD_KEEP == HeadText(true) && HEAD_CLOSE == HeadText(false) && BODY_TEXT == "Hello, World!\n"
  {
  }

  function HeadLines(keep: bool): seq<string> {
    ["HTTP/1.1 200 OK", "Content-Type: text/plain", "Content-Length: 14",
     "Connection: " + if keep then "keep-alive" else "close"]
  }

  lemma {:induction false} LineNamed(name: string, lowered: string, value: string)
    requires ':' !in name && Lower(name) == lowered && value != "" && !IsBlank(value[0])
    ensures LineIs(name + ": " + value, lowered, value)
    ensures forall other :: other != lowered ==> !LineNames(name + ": " + value, other)
  {
    hide Lower;
    var l := name + ": " + value;
    assert l[0..|name|] == name && l[|name|] == ':';
    FindChar(l, ':', 0, |name|);
    assert l[..|name|] == name && l[|name| + 1..] == " " + value;
    assert (" " + value)[1..] == value;
    assert TrimLeft(" " + value) == TrimLeft(value) == value;
  }

  lemma {:induction false} PlainLines(keep: bool)
    ensures GoodLines(HeadLines(keep))
    ensures LineIs(HeadLines(keep)[2], "content-length", "14") && LineIs(HeadLines(keep)[3], "connection", if keep then "keep-alive" else "close")
    ensures !LineNames(HeadLines(keep)[3], "content-length")
  {
    hide LineIs, LineNames, NoCrlf;
    var ls := HeadLines(keep);
    LineNamed("Content-Length", "content-length", "14") by { LoweredName(); }
    LineNamed("Connection", "connection", if keep then "keep-alive" else "close") by { LoweredConnection(); }
    assert ls[2] == "Content-Length" + ": " + "14";
    assert ls[3] == "Connection" + ": " + if keep then "keep-alive" else "close";
    SafeLines();
    assert ls[3] == if keep then "Connection: keep-alive" else "Connection: close";
    assert NoCrlf(ls[0]) && NoCrlf(ls[1]) && NoCrlf(ls[2]) && NoCrlf(ls[3]);
  }

  lemma SafeLines()
    ensures NoCrlf("HTTP/1.1 200 OK") && NoCrlf("Content-Type: text/plain") && NoCrlf("Content-Length: 14")
    ensures NoCrlf("Connection: keep-alive") && NoCrlf("Connection: close")
  {
    OneLine("HTTP/1.1 200 OK");
    OneLine("Content-Type: text/plain");
    OneLine("Content-Length: 14");
    OneLine("Connection: keep-alive");
    OneLine("Connection: close");
  }

  lemma LoweredConnection()
    ensures Lower("Connection") == "connection"
  {
  }

  lemma KeepAliveIsNotClose()
    ensures !HasClose("keep-alive") && HasClose("close")
  {
    assert CloseAt("close", 0);
  }

  lemma Fourteen()
    ensures Strtoull("14") == 14
  {
    assert Decimal(14) == "14";
    StrtoullDecimal(14);
  }

  lemma {:induction false} HeadStates(keep: bool)
    ensures ApplyLines(DEFAULT, HeadLines(keep)) == Policy(keep, 14)
  {
    hide LineIs, LineNames, ApplyLine, ApplyLines, Strtoull, HasClose;
    var ls := HeadLines(keep);
    var word := if keep then "keep-alive" else "close";
    PlainLines(keep);
    Fourteen();
    KeepAliveIsNotClose();
    assert NoneNames([ls[3]], "content-length");
    LastLineDecides(DEFAULT, [ls[0], ls[1]], ls[2], [ls[3]], "14");
    LastLineDecides(DEFAULT, [ls[0], ls[1], ls[2]], ls[3], [], word);
    assert [ls[0], ls[1]] + [ls[2]] + [ls[3]] == ls && [ls[0], ls[1], ls[2]] + [ls[3]] + [] == ls;
  }

  lemma {:induction false} HeadIsLines(keep: bool)
    ensures Lines(HeadLines(keep)) + CRLF == HeadText(keep)
  {
    hide Lines;
    var ls := HeadLines(keep);
    FourLines(ls[0], ls[1], ls[2], ls[3]);
    assert ls == [ls[0], ls[1], ls[2], ls[3]];
    Joined(ls[0] + CRLF, ls[1] + CRLF, ls[2] + CRLF, ls[3] + CRLF);
    assert ls[0] + CRLF == "HTTP/1.1 200 OK\r\n";
    assert ls[1] + CRLF == "Content-Type: text/plain\r\n";
    assert ls[2] + CRLF == "Content-Length: 14\r\n";
    if keep {
      assert ls[3] + CRLF == "Connection: keep-alive\r\n";
    } else {
      assert ls[3] + CRLF == "Connection: close\r\n";
    }
    assert CRLF == "\r\n";
  }

  lemma Joined(a: string, b: string, c: string, d: string)
    ensures a + (b + (c + d)) + CRLF == a + b + c + d + CRLF
  {
  }

  lemma FourLines(a: string, b: string, c: string, d: string)
    ensures Lines([a, b, c, d]) == a + CRLF + (b + CRLF + (c + CRLF + (d + CRLF)))
  {
    LinesOne(d);
    assert [c, d][1..] == [d] && [b, c, d][1..] == [c, d] && [a, b, c, d][1..] == [b, c, d];
    assert Lines([c, d]) == c + CRLF + Lines([d]);
    assert Lines([b, c, d]) == b + CRLF + Lines([c, d]);
  }

  lemma LinesOne(l: string)
    ensures Lines([l]) == l + CRLF
  {
    assert [l][1..] == [];
    EmptyBack(l + CRLF);
  }

  /**
    A response delimits itself: the length its head states is the size of its body, and its Connection
    line says what the head was chosen for.
  */
  lemma {:induction false} ResponseIsOneMessage(keep: bool)
    ensures ExactFrame(Frame(ResponseText(keep), keep))
  {
    hide ApplyLines, ApplyLine, Lines, ExactFrame, GoodLines;
    var m := Message(HeadLines(keep), "Hello, World!\n");
    PlainLines(keep);
    HeadStates(keep);
    HeadIsLines(keep);
    assert MessageText(m) == ResponseText(keep);
    MessageIsExact(m);
  }

  /** The responses, one behind the other. */
  function Responses(keeps: seq<bool>): string {
    if keeps == [] then "" else ResponseText(keeps[0]) + Responses(keeps[1..])
  }

  lemma OneResponse(keep: bool)
    ensures Responses([keep]) == ResponseText(keep)
  {
    assert [keep][1..] == [];
    EmptyBack(ResponseText(keep));
  }

  /** A queue that is a head and a body for each of the decisions, in order. */
  ghost predicate Answering(q: seq<OwnedBuf>, keeps: seq<bool>) {
    |q| == 2 * |keeps| && forall k :: 0 <= k < |keeps| ==> IsHead(q[2 * k], keeps[k]) && IsBody(q[2 * k + 1])
  }

  lemma NoAnswers()
    ensures Answering([], [])
  {
  }

  /** Its bytes are the responses. */
  lemma {:induction false} AnsweringWire(q: seq<OwnedBuf>, keeps: seq<bool>)
    requires Answering(q, keeps)
    ensures Wire(q) == Responses(keeps)
    decreases |keeps|
  {
    hide HeadText;
    if keeps != [] {
      assert IsHead(q[2 * 0], keeps[0]) && IsBody(q[2 * 0 + 1]);
      var rest := q[2..];
      forall k | 0 <= k < |keeps[1..]| ensures IsHead(rest[2 * k], keeps[1..][k]) && IsBody(rest[2 * k + 1]) {
        assert IsHead(q[2 * (k + 1)], keeps[k + 1]) && IsBody(q[2 * (k + 1) + 1]);
      }
      AnsweringWire(rest, keeps[1..]);
      assert q[1..][1..] == rest && q[1..][0] == q[1];
      assert Wire(q[1..]) == q[1].bytes + Wire(rest);
      Assoc(q[0].bytes, q[1].bytes, Wire(rest));
    }
  }
}
