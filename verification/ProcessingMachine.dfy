/** The library's character-level HTTP/1.1 request parser. */
module ProcessingMachine {
  import opened Text
  import opened StreamParser

  datatype State =
    | NotStarted | ErrorState | Verb | Path | Version
    | HeaderName | HeaderValue | Cr | Crlf | CrlfCr | Body

  /** The parsing fields of the machine; `buf0` and `buf1` are `tmp_buf`. */
  datatype Machine = Machine(state: State, buf0: string, buf1: string, req: Request)

  const FRESH := Machine(NotStarted, "", "", EMPTY_REQUEST)

  predicate IsBreak(c: char) { c == '\r' || c == '\n' }

  /** One byte in a state that is not the error state. */
  function StepByte(m: Machine, c: char): Machine {
    match m.state
    case Verb =>
      if c == ' ' then m.(req := m.req.(verb := m.buf0), buf0 := "", state := Path)
      else if IsBreak(c) then m.(state := ErrorState)
      else m.(buf0 := m.buf0 + [c])
    case Path =>
      if c == ' ' then m.(req := m.req.(path := m.buf0), buf0 := "", state := Version)
      else if IsBreak(c) then m.(state := ErrorState)
      else m.(buf0 := m.buf0 + [c])
    case Version =>
      if c == '\r' then m.(req := m.req.(protocol := m.buf0), buf0 := "", state := Cr)
      else if c == '\n' then m.(state := ErrorState)
      else m.(buf0 := m.buf0 + [c])
    case HeaderName =>
      if c == ':' then m.(state := HeaderValue)
      else if IsBreak(c) then m.(state := ErrorState)
      else m.(buf0 := m.buf0 + [c])
    case HeaderValue =>
      if c == '\r' then
        m.(req := m.req.(headers := Emplace(m.req.headers, m.buf0, m.buf1)), buf0 := "", buf1 := "", state := Cr)
      else m.(buf1 := m.buf1 + [c])
    case Cr => m.(state := if c == '\n' then Crlf else ErrorState)
    case Crlf =>
      if c == '\r' then m.(state := CrlfCr)
      else m.(state := HeaderName, buf0 := m.buf0 + [c])
    case CrlfCr => m.(state := if c == '\n' then State.Body else ErrorState)
    case Body => m.(req := m.req.(body := m.req.body + [c]))
    case NotStarted => m
    case ErrorState => m
  }

  /** All bytes, up to an error. */
  function Run(m: Machine, s: string): Machine
    decreases |s|
  {
    if s == "" || m.state == ErrorState then m else Run(StepByte(m, s[0]), s[1..])
  }

  function Begin(m: Machine): Machine {
    if m.state == NotStarted then m.(state := Verb) else m
  }

  function OnSegments(m: Machine, ss: seq<string>): Machine
    decreases ss
  {
    if ss == [] then m else OnSegments(Run(Begin(m), ss[0]), ss[1..])
  }

  // ------------------------------------------------------------ the code

  class Parser {
    var state: State
    var tmpBuf0: string
    var tmpBuf1: string
    var req: Request
    var bodyBytesNeeded: nat
    var keepAlive: bool

    ghost function View(): Machine
      reads this
    {
      Machine(state, tmpBuf0, tmpBuf1, req)
    }

    constructor ()
      ensures View() == FRESH && bodyBytesNeeded == 0 && keepAlive
    {
      state, tmpBuf0, tmpBuf1, req := NotStarted, "", "", EMPTY_REQUEST;
      bodyBytesNeeded, keepAlive := 0, true;
    }

    method ResetParser()
      modifies this
      ensures View() == FRESH && bodyBytesNeeded == 0 && keepAlive
    {
      req := EMPTY_REQUEST;
      state := NotStarted;
      tmpBuf0 := "";
      tmpBuf1 := "";
      bodyBytesNeeded := 0;
      keepAlive := true;
    }

    /** One iteration of the loop: the switch on the state. */
    method TakeByte(c: char)
      requires state != ErrorState && state != NotStarted
      modifies this`state, this`tmpBuf0, this`tmpBuf1, this`req
      ensures View() == StepByte(old(View()), c)
    {
      match state
      case Verb =>
        if c == ' ' {
          req := req.(verb := tmpBuf0);
          tmpBuf0 := "";
          state := Path;
        } else if IsBreak(c) {
          state := ErrorState;
        } else {
          tmpBuf0 := tmpBuf0 + [c];
        }
      case Path =>
        if c == ' ' {
          req := req.(path := tmpBuf0);
          tmpBuf0 := "";
          state := Version;
        } else if IsBreak(c) {
          state := ErrorState;
        } else {
          tmpBuf0 := tmpBuf0 + [c];
        }
      case Version =>
        if c == '\r' {
          req := req.(protocol := tmpBuf0);
          tmpBuf0 := "";
          state := Cr;
        } else if c == '\n' {
          state := ErrorState;
        } else {
          tmpBuf0 := tmpBuf0 + [c];
        }
      case HeaderName =>
        if c == ':' {
          state := HeaderValue;
        } else if IsBreak(c) {
          state := ErrorState;
        } else {
          tmpBuf0 := tmpBuf0 + [c];
        }
      case HeaderValue =>
        if c == '\r' {
          req := req.(headers := Emplace(req.headers, tmpBuf0, tmpBuf1));
          tmpBuf0, tmpBuf1 := "", "";
          state := Cr;
        } else {
          tmpBuf1 := tmpBuf1 + [c];
        }
      case Cr =>
        state := if c == '\n' then Crlf else ErrorState;
      case Crlf =>
        if c == '\r' {
          state := CrlfCr;
        } else {
          state := HeaderName;
          tmpBuf0 := tmpBuf0 + [c];
        }
      case CrlfCr =>
        state := if c == '\n' then State.Body else ErrorState;
      case Body =>
        req := req.(body := req.body + [c]);
    }

    method OnSegment(p: string)
      modifies this`state, this`tmpBuf0, this`tmpBuf1, this`req
      ensures View() == Run(Begin(old(View())), p)
    {
      if state == NotStarted {
        state := Verb;
      }
      var i := 0;
      ghost var goal := Run(View(), p);
      assert p[0..] == p;
      while i < |p| && state != ErrorState
        invariant 0 <= i <= |p| && state != NotStarted
        invariant Run(View(), p[i..]) == goal
      {
        assert p[i..][1..] == p[i + 1..];
        TakeByte(p[i]);
        i := i + 1;
      }
    }
  }

  // ------------------------------------------------------------ segmentation

  lemma {:induction false} RunTwice(m: Machine, a: string, b: string)
    ensures Run(Run(m, a), b) == Run(m, a + b)
    decreases |a|
  {
    hide StepByte;
    if a == "" {
      assert a + b == b;
    } else if m.state != ErrorState {
      assert (a + b)[1..] == a[1..] + b;
      RunTwice(StepByte(m, a[0]), a[1..], b);
    }
  }

  lemma {:induction false} RunStarted(m: Machine, s: string)
    requires m.state != NotStarted
    ensures Run(m, s).state != NotStarted
    decreases |s|
  {
    if s != "" && m.state != ErrorState {
      RunStarted(StepByte(m, s[0]), s[1..]);
    }
  }

  /** Any segmentation of the same bytes gives the same state, buffers and request. */
  lemma {:induction false} SegmentationInvariance(m: Machine, ss: seq<string>)
    requires ss != []
    ensures OnSegments(m, ss) == Run(Begin(m), Flatten(ss))
    decreases |ss|
  {
    var q := Run(Begin(m), ss[0]);
    RunStarted(Begin(m), ss[0]);
    if |ss| == 1 {
      assert ss[0] + Flatten(ss[1..]) == ss[0];
    } else {
      SegmentationInvariance(q, ss[1..]);
      RunTwice(Begin(m), ss[0], Flatten(ss[1..]));
    }
  }

  /** No byte leads out of the error state. */
  lemma {:induction false} ErrorIsAbsorbing(m: Machine, a: string, b: string)
    requires Run(m, a).state == ErrorState
    ensures Run(m, a + b) == Run(m, a)
  {
    RunTwice(m, a, b);
  }
}
