/** Which byte strings the character-level parser accepts, and what it reads out of them. */
module ProcessingLanguage {
  import opened Text
  import opened StreamParser
  import opened ProcessingMachine

  /** A header line as it stands in the input. */
  datatype Header = Header(name: string, value: string)

  /** The parts of a request in the order in which they stand in the input. */
  datatype Parts = Parts(verb: string, path: string, version: string, headers: seq<Header>, body: string)

  function HeaderText(h: Header): string { h.name + ":" + h.value + CRLF }

  function HeadersText(hs: seq<Header>): string {
    if hs == [] then "" else HeaderText(hs[0]) + HeadersText(hs[1..])
  }

  function StartText(verb: string, path: string, version: string): string {
    verb + " " + path + " " + version + CRLF
  }

  function PartsText(p: Parts): string {
    StartText(p.verb, p.path, p.version) + HeadersText(p.headers) + CRLF + p.body
  }

  // ------------------------------------------------------------ character classes

  ghost predicate Word(s: string) { forall c :: c in s ==> c != ' ' && c != '\r' && c != '\n' }

  ghost predicate VersionText(s: string) { forall c :: c in s ==> c != '\r' && c != '\n' }

  ghost predicate NameTail(s: string) { forall c :: c in s ==> c != ':' && c != '\r' && c != '\n' }

  /** The first byte of a name may be anything but CR, a colon and LF included. */
  ghost predicate Name(s: string) { s != "" && s[0] != '\r' && NameTail(s[1..]) }

  ghost predicate Value(s: string) { '\r' !in s }

  ghost predicate GoodHeaders(hs: seq<Header>) {
    forall h :: h in hs ==> Name(h.name) && Value(h.value)
  }

  /** The language: any parts in the right character classes, and any body. */
  ghost predicate Valid(p: Parts) {
    Word(p.verb) && Word(p.path) && VersionText(p.version) && GoodHeaders(p.headers)
  }

  /** The first value given for a name is the one that is kept. */
  function FirstWins(hs: seq<Header>): map<string, string> {
    if hs == [] then map[] else
      var l := hs[|hs| - 1];
      Emplace(FirstWins(hs[..|hs| - 1]), l.name, l.value)
  }

  function RequestOf(p: Parts): Request {
    Request(p.verb, p.path, p.version, FirstWins(p.headers), p.body)
  }

  // ------------------------------------------------------------ the machine with an ordered header log

  /** The machine, with every header line it has stored in the order of the input. */
  datatype Traced = Traced(m: Machine, log: seq<Header>)

  const START := Traced(Begin(FRESH), [])

  function TracedByte(t: Traced, c: char): Traced {
    Traced(StepByte(t.m, c),
           if t.m.state == HeaderValue && c == '\r' then t.log + [Header(t.m.buf0, t.m.buf1)] else t.log)
  }

  function Trace(t: Traced, s: string): Traced
    decreases |s|
  {
    if s == "" then t else Trace(TracedByte(t, s[0]), s[1..])
  }

  /** The log changes nothing in what the machine does. */
  lemma {:induction false} TraceIsRun(t: Traced, s: string)
    ensures Trace(t, s).m == Run(t.m, s)
    decreases |s|
  {
    if s != "" {
      TraceIsRun(TracedByte(t, s[0]), s[1..]);
      if t.m.state == ErrorState {
        assert StepByte(t.m, s[0]) == t.m;
        StayInError(t.m, s[1..]);
      }
    }
  }

  lemma StayInError(m: Machine, s: string)
    requires m.state == ErrorState
    ensures Run(m, s) == m
  {
  }

  lemma {:induction false} TraceTwice(t: Traced, a: string, b: string)
    ensures Trace(Trace(t, a), b) == Trace(t, a + b)
    decreases |a|
  {
    hide StepByte;
    if a == "" {
      assert a + b == b;
    } else {
      assert (a + b)[1..] == a[1..] + b;
      TraceTwice(TracedByte(t, a[0]), a[1..], b);
    }
  }

  lemma TraceOne(t: Traced, c: char)
    ensures Trace(t, [c]) == TracedByte(t, c)
  {
    assert [c][1..] == "";
    assert Trace(TracedByte(t, c), "") == TracedByte(t, c);
  }

  lemma TraceSnoc(t: Traced, s: string, c: char)
    ensures Trace(t, s + [c]) == TracedByte(Trace(t, s), c)
  {
    hide StepByte, TracedByte;
    TraceTwice(t, s, [c]);
    TraceOne(Trace(t, s), c);
  }

  // ------------------------------------------------------------ the input, recovered from the state

  /** What holds between two bytes: classes of the buffered bytes, and the header map as the log says. */
  ghost predicate Shape(t: Traced) {
    var m := t.m;
    && GoodHeaders(t.log)
    && m.req.headers == FirstWins(t.log)
    && (m.state != HeaderValue ==> m.buf1 == "")
    && (m.state in {Cr, Crlf, CrlfCr, State.Body} ==> m.buf0 == "")
    && (m.state != State.Body ==> m.req.body == "")
    && (m.state in {Verb, Path, Version} ==> t.log == [])
    && match m.state
       case Verb => Word(m.buf0)
       case Path => Word(m.req.verb) && Word(m.buf0)
       case Version => Word(m.req.verb) && Word(m.req.path) && VersionText(m.buf0)
       case HeaderName => GoodStart(m.req) && Name(m.buf0)
       case HeaderValue => GoodStart(m.req) && Name(m.buf0) && Value(m.buf1)
       case Cr => GoodStart(m.req)
       case Crlf => GoodStart(m.req)
       case CrlfCr => GoodStart(m.req)
       case Body => GoodStart(m.req)
       case NotStarted => false
       case ErrorState => true
  }

  ghost predicate GoodStart(r: Request) { Word(r.verb) && Word(r.path) && VersionText(r.protocol) }

  function Head(t: Traced): string {
    StartText(t.m.req.verb, t.m.req.path, t.m.req.protocol) + HeadersText(t.log)
  }

  /** The bytes behind the state, for every state but error. */
  function Consumed(t: Traced): string {
    var m := t.m;
    match m.state
    case Verb => m.buf0
    case Path => m.req.verb + " " + m.buf0
    case Version => m.req.verb + " " + m.req.path + " " + m.buf0
    case HeaderName => Head(t) + m.buf0
    case HeaderValue => Head(t) + m.buf0 + ":" + m.buf1
    case Cr => Head(t)[..|Head(t)| - 1]
    case Crlf => Head(t)
    case CrlfCr => Head(t) + "\r"
    case Body => Head(t) + CRLF + m.req.body
    case NotStarted => ""
    case ErrorState => ""
  }

  lemma {:induction false} HeadersSnoc(hs: seq<Header>, h: Header)
    ensures HeadersText(hs + [h]) == HeadersText(hs) + HeaderText(h)
  {
    if hs == [] {
      assert [h][1..] == [];
      EmptyBack(HeaderText(h));
    } else {
      assert (hs + [h])[1..] == hs[1..] + [h];
      HeadersSnoc(hs[1..], h);
      Assoc(HeaderText(hs[0]), HeadersText(hs[1..]), HeaderText(h));
    }
  }

  lemma FirstWinsSnoc(hs: seq<Header>, h: Header)
    ensures FirstWins(hs + [h]) == Emplace(FirstWins(hs), h.name, h.value)
  {
    assert (hs + [h])[..|hs|] == hs;
  }

  lemma {:induction false} HeadersEnd(hs: seq<Header>)
    requires hs != []
    ensures HeadersText(hs) != "" && HeadersText(hs)[|HeadersText(hs)| - 1] == '\n'
  {
    if |hs| > 1 {
      HeadersEnd(hs[1..]);
    }
  }

  /** The part of the input that has been stored always ends in LF. */
  lemma HeadEnd(t: Traced)
    ensures Head(t)[..|Head(t)| - 1] + "\n" == Head(t)
  {
    if t.log != [] {
      HeadersEnd(t.log);
    }
  }

  lemma StartLineEnd(a: string)
    ensures (a + CRLF + "")[..|a + CRLF + ""| - 1] == a + "\r"
  {
  }

  lemma HeadWithHeader(head: string, name: string, value: string)
    ensures (head + (name + ":" + value + CRLF))[..|head + (name + ":" + value + CRLF)| - 1]
         == head + name + ":" + value + "\r"
  {
  }

  lemma StartByte(t: Traced, c: char)
    requires Shape(t) && t.m.state in {Verb, Path, Version} && TracedByte(t, c).m.state != ErrorState
    ensures var n := TracedByte(t, c); Shape(n) && Consumed(n) == Consumed(t) + [c]
  {
    var n := TracedByte(t, c);
    var m := t.m;
    hide FirstWins, HeadersText;
    if m.state == Version && c == '\r' {
      assert HeadersText([]) == "" by { HeadersNone(); }
      StartLineEnd(m.req.verb + " " + m.req.path + " " + m.buf0);
    }
    if n.m.state == m.state {
      assert n.m.buf0 == m.buf0 + [c];
    }
  }

  lemma HeadersNone()
    ensures HeadersText([]) == ""
  {
  }

  lemma HeaderByte(t: Traced, c: char)
    requires Shape(t) && t.m.state in {HeaderName, HeaderValue} && TracedByte(t, c).m.state != ErrorState
    ensures var n := TracedByte(t, c); Shape(n) && Consumed(n) == Consumed(t) + [c]
  {
    hide FirstWins, HeadersText;
    var m := t.m;
    var head := Head(t);
    if m.state == HeaderName && c != ':' {
      assert (m.buf0 + [c])[1..] == m.buf0[1..] + [c];
      Assoc(head, m.buf0, [c]);
    } else if m.state == HeaderName {
      EmptyBack(head + m.buf0 + ":");
    } else if c == '\r' {
      var h := Header(m.buf0, m.buf1);
      var n := TracedByte(t, c);
      FirstWinsSnoc(t.log, h);
      HeadersSnoc(t.log, h);
      Assoc(StartText(m.req.verb, m.req.path, m.req.protocol), HeadersText(t.log), HeaderText(h));
      assert Head(n) == head + HeaderText(h);
      HeadWithHeader(head, m.buf0, m.buf1);
    } else {
      Assoc(head + m.buf0 + ":", m.buf1, [c]);
    }
  }

  lemma BreakByte(t: Traced, c: char)
    requires Shape(t) && t.m.state in {Cr, Crlf, CrlfCr, State.Body} && TracedByte(t, c).m.state != ErrorState
    ensures var n := TracedByte(t, c); Shape(n) && Consumed(n) == Consumed(t) + [c]
  {
    hide FirstWins, HeadersText;
    var n := TracedByte(t, c);
    var m := t.m;
    assert Head(n) == Head(t);
    if m.state == Cr {
      HeadEnd(t);
    } else if m.state == State.Body {
      Assoc(Head(t) + CRLF, m.req.body, [c]);
    } else if n.m.state == State.Body {
      EmptyBack(Head(t) + CRLF);
      assert Head(t) + "\r" + "\n" == Head(t) + CRLF;
    } else if n.m.state == HeaderName {
      EmptyFront([c]);
    }
  }

  lemma {:induction false} TracedKeepsShape(t: Traced, s: string)
    requires Shape(t)
    ensures var n := Trace(t, s);
            Shape(n) && (n.m.state != ErrorState ==> Consumed(n) == Consumed(t) + s)
    decreases |s|
  {
    hide StepByte, Consumed, TracedByte, Shape;
    if s == "" {
      EmptyBack(Consumed(t));
    } else {
      var n := TracedByte(t, s[0]);
      ByteKeepsShape(t, s[0]);
      TracedKeepsShape(n, s[1..]);
      assert s == [s[0]] + s[1..];
      Assoc(Consumed(t), [s[0]], s[1..]);
      if n.m.state == ErrorState {
        TraceIsRun(n, s[1..]);
        StayInError(n.m, s[1..]);
      }
    }
  }

  lemma ByteKeepsShape(t: Traced, c: char)
    requires Shape(t)
    ensures var n := TracedByte(t, c);
            Shape(n) && (n.m.state != ErrorState ==> Consumed(n) == Consumed(t) + [c])
  {
    if TracedByte(t, c).m.state != ErrorState {
      if t.m.state in {Verb, Path, Version} {
        StartByte(t, c);
      } else if t.m.state in {HeaderName, HeaderValue} {
        HeaderByte(t, c);
      } else {
        BreakByte(t, c);
      }
    } else {
      hide FirstWins, HeadersText;
    }
  }

  /** At every point short of an error the input is what the state, the request and the log say it was. */
  lemma {:induction false} InputIsRecovered(s: string)
    ensures var t := Trace(START, s);
            Shape(t) && (t.m.state != ErrorState ==> Consumed(t) == s)
  {
    TracedKeepsShape(START, s);
    EmptyFront(s);
  }

  // ------------------------------------------------------------ printed parts are read back

  /** The state collects `c` in its first buffer. */
  predicate Collects(s: State, c: char) {
    match s
    case Verb => c != ' ' && c != '\r' && c != '\n'
    case Path => c != ' ' && c != '\r' && c != '\n'
    case Version => c != '\r' && c != '\n'
    case HeaderName => c != ':' && c != '\r' && c != '\n'
    case _ => false
  }

  lemma {:induction false} Collect(t: Traced, w: string)
    requires forall c :: c in w ==> Collects(t.m.state, c)
    ensures Trace(t, w) == t.(m := t.m.(buf0 := t.m.buf0 + w))
    decreases |w|
  {
    if w == "" {
      EmptyBack(t.m.buf0);
    } else {
      var n := TracedByte(t, w[0]);
      assert Collects(t.m.state, w[0]);
      assert n == t.(m := t.m.(buf0 := t.m.buf0 + [w[0]]));
      Collect(n, w[1..]);
      assert w == [w[0]] + w[1..];
      Assoc(t.m.buf0, [w[0]], w[1..]);
    }
  }

  lemma {:induction false} CollectValue(t: Traced, w: string)
    requires t.m.state == HeaderValue && Value(w)
    ensures Trace(t, w) == t.(m := t.m.(buf1 := t.m.buf1 + w))
    decreases |w|
  {
    if w == "" {
      EmptyBack(t.m.buf1);
    } else {
      var n := TracedByte(t, w[0]);
      CollectValue(n, w[1..]);
      assert w == [w[0]] + w[1..];
      Assoc(t.m.buf1, [w[0]], w[1..]);
    }
  }

  lemma {:induction false} CollectBody(t: Traced, w: string)
    requires t.m.state == State.Body
    ensures Trace(t, w) == t.(m := t.m.(req := t.m.req.(body := t.m.req.body + w)))
    decreases |w|
  {
    if w == "" {
      EmptyBack(t.m.req.body);
    } else {
      var n := TracedByte(t, w[0]);
      CollectBody(n, w[1..]);
      assert w == [w[0]] + w[1..];
      Assoc(t.m.req.body, [w[0]], w[1..]);
    }
  }

  /** Bytes collected, then the byte that ends them. */
  lemma CollectTo(t: Traced, w: string, c: char)
    requires forall c :: c in w ==> Collects(t.m.state, c)
    ensures Trace(t, w + [c]) == TracedByte(t.(m := t.m.(buf0 := t.m.buf0 + w)), c)
  {
    hide StepByte, TracedByte;
    Collect(t, w);
    TraceSnoc(t, w, c);
  }

  lemma ReadStart(verb: string, path: string, version: string)
    requires Word(verb) && Word(path) && VersionText(version)
    ensures Trace(START, StartText(verb, path, version))
         == Traced(Machine(Crlf, "", "", Request(verb, path, version, map[], "")), [])
  {
    var t1 := Traced(Machine(Path, "", "", EMPTY_REQUEST.(verb := verb)), []);
    var t2 := Traced(Machine(Version, "", "", t1.m.req.(path := path)), []);
    var t3 := Traced(Machine(Cr, "", "", t2.m.req.(protocol := version)), []);
    hide Trace;
    CollectTo(START, verb, ' ');
    EmptyFront(verb);
    CollectTo(t1, path, ' ');
    EmptyFront(path);
    TraceTwice(START, verb + " ", path + " ");
    CollectTo(t2, version, '\r');
    EmptyFront(version);
    TraceTwice(START, verb + " " + (path + " "), version + "\r");
    TraceSnoc(START, verb + " " + (path + " ") + (version + "\r"), '\n');
    assert StartText(verb, path, version) == verb + " " + (path + " ") + (version + "\r") + "\n";
  }

  function AfterHeader(t: Traced, h: Header): Traced {
    Traced(t.m.(req := t.m.req.(headers := Emplace(t.m.req.headers, h.name, h.value))), t.log + [h])
  }

  lemma {:induction false} ReadHeader(t: Traced, h: Header)
    requires t.m.state == Crlf && t.m.buf0 == "" && t.m.buf1 == ""
    requires Name(h.name) && Value(h.value)
    ensures Trace(t, HeaderText(h)) == AfterHeader(t, h)
  {
    hide Trace, Emplace;
    var c, rest := h.name[0], h.name[1..];
    var t1 := t.(m := t.m.(state := HeaderName, buf0 := [c]));
    TraceOne(t, c);
    EmptyFront([c]);
    CollectTo(t1, rest, ':');
    assert [c] + rest == h.name;
    TraceTwice(t, [c], rest + ":");
    var t2 := t.(m := t.m.(state := HeaderValue, buf0 := h.name));
    CollectValue(t2, h.value);
    EmptyFront(h.value);
    TraceTwice(t, [c] + (rest + ":"), h.value);
    TraceSnoc(t, [c] + (rest + ":") + h.value, '\r');
    TraceSnoc(t, [c] + (rest + ":") + h.value + "\r", '\n');
    assert HeaderText(h) == [c] + (rest + ":") + h.value + "\r" + "\n";
  }

  lemma {:induction false} ReadHeaders(t: Traced, hs: seq<Header>)
    requires t.m.state == Crlf && t.m.buf0 == "" && t.m.buf1 == ""
    requires t.m.req.headers == FirstWins(t.log) && GoodHeaders(hs)
    ensures Trace(t, HeadersText(hs))
         == Traced(t.m.(req := t.m.req.(headers := FirstWins(t.log + hs))), t.log + hs)
    decreases |hs|
  {
    hide FirstWins, Emplace, TracedByte;
    if hs == [] {
      assert t.log + hs == t.log;
      assert Trace(t, "") == t;
    } else {
      var n := AfterHeader(t, hs[0]);
      FirstWinsSnoc(t.log, hs[0]);
      assert hs[0] in hs;
      ReadHeader(t, hs[0]);
      ReadHeaders(n, hs[1..]);
      TraceTwice(t, HeaderText(hs[0]), HeadersText(hs[1..]));
      assert t.log + hs == n.log + hs[1..];
    }
  }

  /** Parts in the language are read exactly, header lines in order, and the machine stops in the body. */
  lemma {:induction false} PartsAreRead(p: Parts)
    requires Valid(p)
    ensures Trace(START, PartsText(p)) == Traced(Machine(State.Body, "", "", RequestOf(p)), p.headers)
  {
    hide Trace, FirstWins, HeadersText;
    var st, hs := StartText(p.verb, p.path, p.version), HeadersText(p.headers);
    ReadStart(p.verb, p.path, p.version);
    var t1 := Traced(Machine(Crlf, "", "", Request(p.verb, p.path, p.version, map[], "")), []);
    NoHeaders();
    ReadHeaders(t1, p.headers);
    assert [] + p.headers == p.headers;
    TraceTwice(START, st, hs);
    TraceSnoc(START, st + hs, '\r');
    TraceSnoc(START, st + hs + "\r", '\n');
    var t2 := Trace(START, st + hs + "\r" + "\n");
    CollectBody(t2, p.body);
    EmptyFront(p.body);
    TraceTwice(START, st + hs + "\r" + "\n", p.body);
    assert st + hs + "\r" + "\n" == st + hs + CRLF;
  }

  lemma NoHeaders()
    ensures FirstWins([]) == map[]
  {
  }

  // ------------------------------------------------------------ main theorems

  /** The parts behind a body state. */
  lemma BodyHasParts(s: string) returns (p: Parts)
    requires Run(Begin(FRESH), s).state == State.Body
    ensures Valid(p) && PartsText(p) == s
  {
    var t := Trace(START, s);
    TraceIsRun(START, s);
    InputIsRecovered(s);
    p := Parts(t.m.req.verb, t.m.req.path, t.m.req.protocol, t.log, t.m.req.body);
  }

  /** The exact language: the body state is reached on these byte strings and on no others. */
  lemma {:induction false} ExactLanguage(s: string)
    ensures Run(Begin(FRESH), s).state == State.Body <==> exists p :: Valid(p) && PartsText(p) == s
  {
    if Run(Begin(FRESH), s).state == State.Body {
      var p := BodyHasParts(s);
    }
    forall p | Valid(p) && PartsText(p) == s ensures Run(Begin(FRESH), s).state == State.Body {
      PartsAreRead(p);
      TraceIsRun(START, s);
    }
  }

  /** The grammar is unambiguous. */
  lemma {:induction false} OnlyOneReading(p: Parts, q: Parts)
    requires Valid(p) && Valid(q) && PartsText(p) == PartsText(q)
    ensures p == q
  {
    PartsAreRead(p);
    PartsAreRead(q);
  }

  /** Bytes that lead from a state that is not the error state to the body. */
  function Completion(s: State): string {
    match s
    case Verb => "  \r\n\r\n"
    case Path => " \r\n\r\n"
    case Version => "\r\n\r\n"
    case HeaderName => ":\r\n\r\n"
    case HeaderValue => "\r\n\r\n"
    case Cr => "\n\r\n"
    case Crlf => "\r\n"
    case CrlfCr => "\n"
    case _ => ""
  }

  lemma {:induction false} CompletionLeadsToBody(m: Machine)
    requires m.state != ErrorState && m.state != NotStarted
    ensures Run(m, Completion(m.state)).state == State.Body
    decreases |Completion(m.state)|
  {
    hide Emplace;
    var w := Completion(m.state);
    if m.state != State.Body {
      var n := StepByte(m, w[0]);
      CompletionStep(m);
      CompletionLeadsToBody(n);
    }
  }

  lemma CompletionStep(m: Machine)
    requires m.state !in {ErrorState, NotStarted, State.Body}
    ensures var w, n := Completion(m.state), StepByte(m, Completion(m.state)[0]);
            n.state !in {ErrorState, NotStarted} && w[1..] == Completion(n.state)
  {
    hide Emplace;
  }

  /** The machine reports an error as soon as no continuation is in the language, and not before. */
  lemma {:induction false} ErrorAsSoonAsHopeless(s: string)
    ensures Run(Begin(FRESH), s).state == ErrorState
       <==> forall more :: Run(Begin(FRESH), s + more).state != State.Body
  {
    hide StepByte, Run;
    var m := Run(Begin(FRESH), s);
    var t := Trace(START, s);
    TraceIsRun(START, s);
    InputIsRecovered(s);
    if m.state == ErrorState {
      forall more ensures Run(Begin(FRESH), s + more).state != State.Body {
        ErrorIsAbsorbing(Begin(FRESH), s, more);
      }
    } else {
      var more := Completion(m.state);
      CompletionLeadsToBody(m);
      RunTwice(Begin(FRESH), s, more);
      assert Run(Begin(FRESH), s + more).state == State.Body;
    }
  }

  // ------------------------------------------------------------ printing a request

  ghost predicate DistinctNames(hs: seq<Header>) {
    forall i, j :: 0 <= i < j < |hs| ==> hs[i].name != hs[j].name
  }

  /** `hs` lists the header map of `r`, each entry once, in some order. */
  ghost predicate Lists(hs: seq<Header>, r: Request) {
    && DistinctNames(hs)
    && (forall i :: 0 <= i < |hs| ==> hs[i].name in r.headers && r.headers[hs[i].name] == hs[i].value)
    && (forall k :: k in r.headers ==> exists i :: 0 <= i < |hs| && hs[i].name == k)
  }

  function PartsOf(r: Request, hs: seq<Header>): Parts { Parts(r.verb, r.path, r.protocol, hs, r.body) }

  ghost predicate FirstOfItsName(hs: seq<Header>, i: int) {
    0 <= i < |hs| && forall j :: 0 <= j < i ==> hs[j].name != hs[i].name
  }

  /** The map holds the names that occur in the list, and no others. */
  lemma {:induction false} FirstWinsNames(hs: seq<Header>)
    ensures forall k :: k in FirstWins(hs) <==> exists i :: 0 <= i < |hs| && hs[i].name == k
    decreases |hs|
  {
    if hs != [] {
      var n := |hs| - 1;
      var front := hs[..n];
      FirstWinsNames(front);
      forall k ensures k in FirstWins(hs) <==> exists i :: 0 <= i < |hs| && hs[i].name == k {
        if k in FirstWins(front) {
          var i :| 0 <= i < |front| && front[i].name == k;
          assert hs[i].name == k;
        } else {
          assert forall i :: 0 <= i < n ==> hs[i] == front[i];
          assert k == hs[n].name <==> exists i :: 0 <= i < |hs| && hs[i].name == k;
        }
      }
    }
  }

  /** For every name the map holds the value of its first header line. */
  lemma {:induction false} FirstWinsValue(hs: seq<Header>, i: nat)
    requires FirstOfItsName(hs, i)
    ensures hs[i].name in FirstWins(hs) && FirstWins(hs)[hs[i].name] == hs[i].value
    decreases |hs|
  {
    var n := |hs| - 1;
    var front := hs[..n];
    if i < n {
      FirstWinsValue(front, i);
    } else {
      FirstWinsNames(front);
      assert forall j :: 0 <= j < |front| ==> front[j].name != hs[i].name;
    }
  }

  lemma ListedIsTheMap(hs: seq<Header>, r: Request)
    requires Lists(hs, r)
    ensures FirstWins(hs) == r.headers
  {
    hide FirstWins;
    FirstWinsNames(hs);
    forall k ensures k in FirstWins(hs) <==> k in r.headers {
      if k in FirstWins(hs) {
        var i :| 0 <= i < |hs| && hs[i].name == k;
        assert hs[i].name in r.headers;
      }
    }
    forall k | k in r.headers ensures FirstWins(hs)[k] == r.headers[k] {
      var i :| 0 <= i < |hs| && hs[i].name == k;
      FirstWinsValue(hs, i);
    }
  }

  /** Printing a request, header entries in any order, and feeding it in any pieces returns it unchanged. */
  lemma {:induction false} PrintedRequestReturns(r: Request, hs: seq<Header>, ss: seq<string>)
    requires Lists(hs, r) && Valid(PartsOf(r, hs))
    requires ss != [] && Flatten(ss) == PartsText(PartsOf(r, hs))
    ensures OnSegments(FRESH, ss) == Machine(State.Body, "", "", r)
  {
    hide OnSegments, Run, Trace, PartsText, Valid, Flatten;
    SegmentationInvariance(FRESH, ss);
    PartsAreRead(PartsOf(r, hs));
    TraceIsRun(START, Flatten(ss));
    ListedIsTheMap(hs, r);
  }
}
