/**
  The poll server: parallel arrays of poll entries and connections, from which slots are swap-removed
  while they are being traversed. What the sockets do is an oracle that maps a connection to its
  behaviour in the current pass.
*/
module PollWorker {
  import Payload

  const KEEPALIVE_TIMEOUT_MS: int := 5000
  const MAX_KEEPALIVE_REQUESTS: nat := 100
  const NANOS_PER_MILLI: int := 1_000_000

  /** POLLIN and POLLOUT, and one bit for POLLERR, POLLHUP and POLLNVAL. */
  datatype Events = Events(err: bool, input: bool, output: bool)

  const NONE := Events(false, false, false)
  const INPUT := Events(false, true, false)
  const BOTH := Events(false, true, true)

  datatype Pollfd = Pollfd(fd: int, events: Events, revents: Events)

  /** The fields of a connection that the loops look at; `unsent` is `write_len - write_offset`. */
  datatype Conn = Conn(fd: int, lastActive: int, served: nat, unsent: nat)

  datatype ReadResult = ReadClosed | ReadReady | ReadPartial

  datatype WriteResult = WriteError | Room(n: nat)

  /** What the sockets of one connection do in one pass, and the clock readings. */
  datatype Behaviour = Behaviour(read: ReadResult, readAt: int, write: WriteResult, doneAt: int)

  // ------------------------------------------------------------ one connection

  function ResponseText(served: nat): string {
    "HTTP/1.1 200 OK\r\n" + "Content-Type: text/plain\r\n" + "Content-Length: 14\r\n"
    + (if served < MAX_KEEPALIVE_REQUESTS then "Connection: keep-alive\r\n" else "Connection: close\r\n") + "\r\n"
    + "Hello, World!\n"
  }

  function CloseConn(c: Conn): Conn { c.(fd := -1) }

  function HandleRead(c: Conn, b: Behaviour): Conn {
    match b.read
    case ReadClosed => CloseConn(c.(lastActive := b.readAt))
    case ReadReady => c.(lastActive := b.readAt, unsent := |ResponseText(c.served)|)
    case ReadPartial => c.(lastActive := b.readAt)
  }

  /** Sends what is unsent; when nothing is left the request counts as served, the last one closes. */
  function HandleWrite(c: Conn, b: Behaviour): Conn {
    if c.unsent > 0 && b.write.WriteError? then CloseConn(c)
    else if c.unsent > 0 && b.write.n < c.unsent then c.(unsent := c.unsent - b.write.n)
    else if c.served + 1 < MAX_KEEPALIVE_REQUESTS
      then c.(unsent := 0, served := c.served + 1, lastActive := b.doneAt)
      else CloseConn(c.(unsent := 0))
  }

  /** The effect of one visit to a connection that is ready. */
  function Serve(c: Conn, r: Events, b: Behaviour): Conn {
    if r.err then CloseConn(c)
    else
      var d := if r.input then HandleRead(c, b) else c;
      if d.fd != -1 && r.output then HandleWrite(d, b) else d
  }

  function ServeEvents(c: Conn, p: Pollfd, b: Behaviour): Events {
    var r := p.revents;
    if r.err then p.events
    else
      var d := if r.input then HandleRead(c, b) else c;
      var e := if r.input && d.fd != -1 && b.read.ReadReady? then p.events.(output := true) else p.events;
      if d.fd != -1 && r.output then (if HandleWrite(d, b).fd != -1 then BOTH else NONE) else e
  }

  /** `duration_cast<milliseconds>` truncates towards zero. */
  function Millis(nanos: int): int {
    if nanos >= 0 then nanos / NANOS_PER_MILLI else -((-nanos) / NANOS_PER_MILLI)
  }

  predicate Expired(lastActive: int, now: int) { Millis(now - lastActive) > KEEPALIVE_TIMEOUT_MS }

  /** A connection expires when a whole millisecond more than the timeout has gone by. */
  lemma {:induction false} ExpiredMeaning(lastActive: int, now: int)
    ensures Expired(lastActive, now) <==> now - lastActive >= (KEEPALIVE_TIMEOUT_MS + 1) * NANOS_PER_MILLI
  {
    var d := now - lastActive;
    if d >= 0 {
      assert d == (d / NANOS_PER_MILLI) * NANOS_PER_MILLI + d % NANOS_PER_MILLI;
    }
  }

  /** The response is a head and the body whose length it states. */
  lemma TextIsResponse(served: nat)
    ensures ResponseText(served) == Payload.ResponseText(served < 100)
    ensures |ResponseText(served)| > 0
  {
  }

  // ------------------------------------------------------------ what is asked of poll

  /** An open connection is watched for input, and for output while something of its response is unsent. */
  predicate Watches(c: Conn, e: Events) {
    c.fd != -1 ==> e.input && (c.unsent > 0 ==> e.output)
  }

  /** A visit that leaves a watched connection open leaves it watched. */
  lemma VisitKeepsWatch(c: Conn, p: Pollfd, b: Behaviour)
    requires c.fd != -1 && Watches(c, p.events)
    ensures Watches(Serve(c, p.revents, b), ServeEvents(c, p, b))
  {
    hide ResponseText;
  }

  /**
    After a visit that leaves the connection open, output is asked for if and only if it was asked for
    before, a response has been read for, or the visit wrote; input, if it was before or the visit wrote.
  */
  lemma AskedIff(c: Conn, p: Pollfd, b: Behaviour)
    requires c.fd != -1 && Serve(c, p.revents, b).fd != -1
    ensures ServeEvents(c, p, b).output
       <==> p.events.output || (p.revents.input && b.read == ReadReady) || p.revents.output
    ensures ServeEvents(c, p, b).input <==> p.events.input || p.revents.output
  {
    hide ResponseText;
  }

  /** When a request is complete the whole response is to be sent; any read counts as activity. */
  lemma ReadMeaning(c: Conn, b: Behaviour)
    requires c.served < 100
    ensures var d := HandleRead(c, b);
            && d.lastActive == b.readAt && d.served == c.served
            && (b.read == ReadReady ==> d.fd == c.fd && d.unsent == |Payload.ResponseText(true)|)
            && (b.read == ReadPartial ==> d.fd == c.fd && d.unsent == c.unsent)
            && (b.read == ReadClosed ==> d.fd == -1)
  {
    hide ResponseText;
    TextIsResponse(c.served);
  }

  /**
    A visit closes a connection if and only if poll reports an error, the read finds it closed, the write
    fails with something to send, or the write leaves nothing to send of the last request allowed.
  */
  lemma VisitClosesIff(c: Conn, r: Events, b: Behaviour)
    requires c.fd != -1
    ensures var left := if r.input && b.read == ReadReady then |Payload.ResponseText(c.served < 100)| else c.unsent;
            var done := left == 0 || (b.write.Room? && b.write.n >= left);
            Serve(c, r, b).fd == -1 <==>
              || r.err || (r.input && b.read == ReadClosed)
              || (r.output && ((left > 0 && b.write == WriteError) || (done && c.served >= 99)))
  {
    hide ResponseText;
    TextIsResponse(c.served);
  }

  /** What the idle sweep looks at: the time of the last served request or read. */
  lemma ActivityMeaning(c: Conn, r: Events, b: Behaviour)
    requires c.fd != -1 && Serve(c, r, b).fd != -1
    ensures Serve(c, r, b).lastActive
         == if Serve(c, r, b).served > c.served then b.doneAt else if r.input then b.readAt else c.lastActive
  {
    hide ResponseText;
  }

  // ------------------------------------------------------------ swap-remove

  function SwapRemove<T>(s: seq<T>, i: nat): seq<T>
    requires i < |s|
  {
    var last := |s| - 1;
    if i == last then s[..last] else s[..last][i := s[last]]
  }

  ghost predicate NoDup<T>(s: seq<T>) { forall j, k :: 0 <= j < k < |s| ==> s[j] != s[k] }

  /** Swap-remove takes away exactly the element at `i`. */
  lemma {:induction false} SwapRemoveKeepsOthers<T>(s: seq<T>, i: nat)
    requires i < |s| && NoDup(s)
    ensures var r := SwapRemove(s, i);
            && |r| == |s| - 1 && NoDup(r)
            && (forall x :: x in r <==> x in s && x != s[i])
            && r[..i] == s[..i]
            && (forall k :: i <= k < |r| ==> r[k] == if k == i then s[|s| - 1] else s[k])
  {
    var r := SwapRemove(s, i);
    forall x | x in s && x != s[i] ensures x in r {
      var k :| 0 <= k < |s| && s[k] == x;
      assert if k < |s| - 1 then r[k] == x else r[i] == x;
    }
    forall k | 0 <= k < |r| ensures r[k] in s && r[k] != s[i] {
      assert r[k] == if k == i then s[|s| - 1] else s[k];
    }
  }

  // ------------------------------------------------------------ the code

  class Connection {
    var fd: int
    var lastActive: int
    var served: nat
    var unsent: nat
    ghost var visits: nat   // times a pass has handled this connection

    ghost function View(): Conn
      reads this
    {
      Conn(fd, lastActive, served, unsent)
    }

    constructor (fd: int, now: int)
      ensures View() == Conn(fd, now, 0, 0) && visits == 0
    {
      this.fd, lastActive, served, unsent, visits := fd, now, 0, 0, 0;
    }

    method Close()
      modifies this`fd
      ensures View() == CloseConn(old(View()))
    {
      fd := -1;
    }

    /** True when a response is ready to be written. */
    method Read(b: Behaviour) returns (ready: bool)
      modifies this`fd, this`lastActive, this`unsent
      ensures View() == HandleRead(old(View()), b) && ready == b.read.ReadReady?
    {
      lastActive := b.readAt;
      ready := false;
      match b.read
      case ReadClosed => Close();
      case ReadReady =>
        unsent := |ResponseText(served)|;
        ready := true;
      case ReadPartial =>
    }

    /** True while the connection stays open. */
    method Write(b: Behaviour) returns (alive: bool)
      requires fd != -1
      modifies this`fd, this`lastActive, this`unsent, this`served
      ensures View() == HandleWrite(old(View()), b) && alive == (fd != -1)
    {
      if unsent > 0 {
        if b.write.WriteError? {
          Close();
          return false;
        }
        if b.write.n < unsent {
          unsent := unsent - b.write.n;
          return true;
        }
        unsent := 0;
      }
      if served + 1 < MAX_KEEPALIVE_REQUESTS {
        served := served + 1;
        lastActive := b.doneAt;
        return true;
      }
      Close();
      return false;
    }
  }

  /** A connection together with the number of times it has been visited. */
  datatype Seen = Seen(conn: Conn, visits: nat)

  /** What `poll` returns in one round: whether anything is ready, the events of every entry, and what the sockets then do. */
  datatype RoundInput = RoundInput(some: bool, revents: nat -> Events, now: int, plan: Connection? -> Behaviour, cfds: seq<int>)

  /** Where a connection was at the start of a pass. */
  datatype Slot = Slot(seen: Seen, pfd: Pollfd)

  predicate Ready(s: Slot) { s.pfd.revents != NONE }

  /** What one pass makes of a slot. */
  function Passed(s: Slot, b: Behaviour): Seen {
    if Ready(s) then Seen(Serve(s.seen.conn, s.pfd.revents, b), s.seen.visits + 1) else s.seen
  }

  function PassedPfd(s: Slot, b: Behaviour): Pollfd {
    if Ready(s) then s.pfd.(events := ServeEvents(s.seen.conn, s.pfd, b)) else s.pfd
  }

  /** A connection that has just been accepted. */
  function NewSlot(fd: int, now: int): Slot { Slot(Seen(Conn(fd, now, 0, 0), 0), Pollfd(fd, INPUT, NONE)) }

  class Worker {
    const listenFd: int
    var fds: seq<Pollfd>
    var conns: seq<Connection?>

    /** Entry 0 is the listener, every other one an open connection under its own descriptor, none twice. */
    ghost predicate Valid()
      reads this, set c: Connection | c in conns
    {
      && |fds| == |conns| >= 1
      && conns[0] == null && fds[0].fd == listenFd
      && NoDup(conns)
      && forall k :: 1 <= k < |conns| ==> conns[k] != null && conns[k].fd != -1 && fds[k].fd == conns[k].fd
    }

    constructor (lfd: int)
      ensures Valid() && Watched() && conns == [null] && fds == [Pollfd(lfd, INPUT, NONE)]
    {
      listenFd := lfd;
      fds := [Pollfd(lfd, INPUT, NONE)];
      conns := [null];
    }

    method AddConn(conn: Connection)
      modifies this`fds, this`conns
      ensures fds == old(fds) + [Pollfd(conn.fd, INPUT, NONE)] && conns == old(conns) + [conn]
    {
      fds := fds + [Pollfd(conn.fd, INPUT, NONE)];
      conns := conns + [conn];
    }

    method RemoveSlot(idx: nat)
      requires idx < |fds| == |conns|
      modifies this`fds, this`conns
      ensures fds == SwapRemove(old(fds), idx) && conns == SwapRemove(old(conns), idx)
    {
      var last := |fds| - 1;
      if idx != last {
        fds := fds[idx := fds[last]];
        conns := conns[idx := conns[last]];
      }
      fds := fds[..last];
      conns := conns[..last];
    }

    /** Every connection with its entry. */
    ghost function Slots(): (m: map<Connection?, Slot>)
      requires Valid()
      reads this, set c: Connection | c in conns
      ensures m.Keys == set c: Connection? | c in conns && c != null
      ensures forall k :: 1 <= k < |conns| ==>
                conns[k] in m && m[conns[k]] == Slot(Seen(conns[k].View(), conns[k].visits), fds[k])
    {
      map k | 1 <= k < |conns| :: conns[k] := Slot(Seen(conns[k].View(), conns[k].visits), fds[k])
    }

    /** Visits a connection that is ready. */
    method ServeSlot(i: nat, b: Behaviour) returns (alive: bool)
      requires i < |fds| == |conns| && conns[i] != null && conns[i].fd != -1
      modifies this`fds, conns[i]
      ensures conns[i].View() == Serve(old(conns[i].View()), old(fds[i]).revents, b)
      ensures conns[i].visits == old(conns[i].visits) + 1
      ensures fds == old(fds)[i := old(fds[i]).(events := ServeEvents(old(conns[i].View()), old(fds[i]), b))]
      ensures alive == (conns[i].fd != -1)
    {
      var conn := conns[i];
      var r := fds[i].revents;
      conn.visits := conn.visits + 1;
      alive := true;
      if r.err {
        conn.Close();
        alive := false;
        return;
      }
      if r.input {
        var readyToWrite := conn.Read(b);
        if conn.fd == -1 {
          alive := false;
        } else if readyToWrite {
          fds := fds[i := fds[i].(events := fds[i].events.(output := true))];
        }
      }
      if alive && r.output {
        alive := conn.Write(b);
        fds := fds[i := fds[i].(events := if alive then BOTH else NONE)];
      }
    }

    /** One accepted connection. */
    method AcceptOne(cfd: int, now: int, ghost plan: Connection? -> Behaviour, ghost all: map<Connection?, Slot>)
      returns (ghost accepted: Connection)
      requires cfd != -1 && PassInv(conns, fds, 0, Looks(all.Keys), all, plan) && |fds| == |conns| > 0
      modifies this`fds, this`conns
      ensures fresh(accepted) && accepted !in all && |fds| == |conns| > 0 && fds[0] == old(fds)[0]
      ensures var more := all[accepted := NewSlot(cfd, now)];
              PassInv(conns, fds, 0, Looks(more.Keys), more, plan)
    {
      hide PassInv;
      ghost var st := Looks(all.Keys);
      ghost var slot := NewSlot(cfd, now);
      var conn := new Connection(cfd, now);
      PassAccepts(conns, fds, st, all, plan, conn, slot);
      AddConn(conn);
      assert Looks(all[conn := slot].Keys) == st[conn := slot.seen];
      accepted := conn;
    }

    /** The listener's turn in a pass: accepts every connection that is waiting; `all` is `was` with them. */
    method VisitListener(now: int, ghost plan: Connection? -> Behaviour, cfds: seq<int>, ghost was: map<Connection?, Slot>)
      returns (ghost accepted: seq<Connection>, ghost all: map<Connection?, Slot>)
      requires PassInv(conns, fds, 0, Looks(was.Keys), was, plan) && |fds| == |conns| > 0
      requires forall k :: 0 <= k < |cfds| ==> cfds[k] != -1
      modifies this`fds, this`conns
      ensures fresh(accepted) && |accepted| == if old(fds)[0].revents == NONE then 0 else |cfds|
      ensures forall c :: c in was ==> c in all && all[c] == was[c]
      ensures forall c :: c in all ==> c in was || c in accepted
      ensures forall k :: 0 <= k < |accepted| ==> accepted[k] in all && all[accepted[k]] == NewSlot(cfds[k], now)
      ensures PassInv(conns, fds, 1, Looks(all.Keys), all, plan)
      ensures |fds| == |conns| > 0 && fds[0] == old(fds)[0]
    {
      hide PassInv, NoDup, SwapRemove;
      accepted, all := [], was;
      PassLooks(conns, fds, 0, Looks(was.Keys), was, plan);
      if fds[0].revents != NONE {
        var i := 0;
        while i < |cfds|
          invariant 0 <= i <= |cfds| && |accepted| == i && fresh(accepted)
          invariant PassInv(conns, fds, 0, Looks(all.Keys), all, plan) && |fds| == |conns| > 0 && fds[0] == old(fds)[0]
          invariant forall c :: c in was ==> c in all && all[c] == was[c]
          invariant forall c :: c in all ==> c in was || c in accepted
          invariant forall k :: 0 <= k < i ==> accepted[k] in all && all[accepted[k]] == NewSlot(cfds[k], now)
        {
          ghost var conn := AcceptOne(cfds[i], now, plan, all);
          all := all[conn := NewSlot(cfds[i], now)];
          accepted := accepted + [conn];
          i := i + 1;
        }
      }
      PassMovesOn(conns, fds, 0, Looks(all.Keys), all, plan, fds[0], Seen(Conn(0, 0, 0, 0), 0));
    }

    /** The turn of slot `i` in a pass; `next` is the slot looked at next. */
    method VisitSlot(i: nat, plan: Connection? -> Behaviour, ghost was: map<Connection?, Slot>) returns (next: nat)
      requires 0 < i < |fds| == |conns| && PassInv(conns, fds, i, Looks(was.Keys), was, plan)
      modifies this`fds, this`conns, conns[i]
      ensures PassInv(conns, fds, next, Looks(was.Keys), was, plan)
      ensures 0 < next <= |fds| == |conns| && |fds| - next < old(|fds|) - i && fds[0] == old(fds)[0]
    {
      hide PassInv, NoDup, SwapRemove, Serve, ServeEvents;
      ghost var st := Looks(was.Keys);
      PassLooks(conns, fds, i, st, was, plan);
      var c := conns[i];
      if fds[i].revents == NONE {
        PassMovesOn(conns, fds, i, st, was, plan, fds[i], st[c]);
        assert fds[i := fds[i]] == fds && st[c := st[c]] == st;
        return i + 1;
      }
      ghost var s := was[c];
      var alive := ServeSlot(i, plan(c));
      assert Looks(was.Keys) == st[c := Passed(s, plan(c))];
      assert fds[i] == PassedPfd(s, plan(c));
      if !alive || c.fd == -1 {
        PassRemoves(conns, old(fds), i, st, was, plan, fds[i], Passed(s, plan(c)));
        SwapRemoveAt(fds, i);
        SwapRemoveAt(conns, i);
        RemoveSlot(i);
        next := i;
      } else {
        PassMovesOn(conns, old(fds), i, st, was, plan, fds[i], Passed(s, plan(c)));
        next := i + 1;
      }
    }

    /**
      The event pass. `plan` says what the sockets do, `cfds` which connections wait for the listener.
      Every connection there at the start is visited once if it is ready and not at all otherwise;
      exactly those that are still open stay, each beside its own entry.
    */
    method EventPass(now: int, plan: Connection? -> Behaviour, cfds: seq<int>) returns (ghost accepted: seq<Connection>)
      requires Valid() && forall k :: 0 <= k < |cfds| ==> cfds[k] != -1
      modifies this`fds, this`conns, set c: Connection | c in conns
      ensures Valid() && fds[0] == old(fds)[0]
      ensures fresh(accepted) && |accepted| == if old(fds)[0].revents == NONE then 0 else |cfds|
      ensures forall c: Connection :: c in old(conns) ==>
                var s := old(Slots())[c];
                && Seen(c.View(), c.visits) == Passed(s, plan(c))
                && (c in conns <==> c.fd != -1)
                && (c in conns ==> Slots()[c].pfd == PassedPfd(s, plan(c)))
      ensures forall k :: 0 <= k < |accepted| ==>
                accepted[k] in conns && Slots()[accepted[k]] == NewSlot(cfds[k], now)
                && accepted[k].View() == Conn(cfds[k], now, 0, 0)
      ensures forall c: Connection :: c in conns ==> c in old(conns) || c in accepted
      ensures old(Watched()) ==> Watched()
    {
      hide Serve, ServeEvents, SwapRemove, NoDup, PassInv, Slots, Valid, Passed, PassedPfd, Watched, Watches;
      ghost var was := Slots();
      SlotsStart(plan);
      WatchedSlots();
      ghost var all;
      accepted, all := VisitListener(now, plan, cfds, was);
      var i := 1;
      while i < |fds|
        invariant 0 < i <= |fds| == |conns| && PassInv(conns, fds, i, Looks(all.Keys), all, plan)
        invariant fds[0] == old(fds)[0]
        decreases |fds| - i
      {
        PassLooks(conns, fds, i, Looks(all.Keys), all, plan);
        assert conns[i] in was || conns[i] in accepted;
        i := VisitSlot(i, plan, all);
      }
      PassIsDone(all, plan);
      forall k | 0 <= k < |accepted|
        ensures accepted[k] in conns && Slots()[accepted[k]] == NewSlot(cfds[k], now)
        ensures accepted[k].View() == Conn(cfds[k], now, 0, 0)
      {
        NewIsNotReady(cfds[k], now, plan(accepted[k]));
      }
      if old(Watched()) {
        forall c | c in all ensures Watches(all[c].seen.conn, all[c].pfd.events) {
          if c !in was {
            var k :| 0 <= k < |accepted| && accepted[k] == c;
            NewIsWatched(cfds[k], now);
          }
        }
        PassIsWatched(all, plan);
      }
    }

    lemma {:induction false} PassIsWatched(all: map<Connection?, Slot>, plan: Connection? -> Behaviour)
      requires PassInv(conns, fds, |conns|, Looks(all.Keys), all, plan) && fds[0].fd == listenFd
      requires forall c :: c in all ==> Watches(all[c].seen.conn, all[c].pfd.events)
      ensures Valid() && Watched()
    {
      hide PassInv, Passed, PassedPfd, Watches, Slots, Watched;
      PassIsDone(all, plan);
      forall c | c in Slots() ensures Watches(Slots()[c].seen.conn, Slots()[c].pfd.events) {
        assert c in conns && c in all;
        OpenSlot(conns, fds, all, plan, c, Looks(all.Keys));
        PassedIsWatched(all[c], plan(c));
      }
      WatchedSlots();
    }

    lemma SlotsStart(plan: Connection? -> Behaviour)
      requires Valid()
      ensures PassInv(conns, fds, 0, Looks(Slots().Keys), Slots(), plan) && fds[0].fd == listenFd
      ensures |fds| == |conns| > 0 && Slots().Keys == set c: Connection? | c in conns && c != null
    {
      var was := Slots();
      forall c | c in was ensures Looks(was.Keys)[c] == was[c].seen && was[c].pfd.fd == was[c].seen.conn.fd != -1 {
        var k :| 0 <= k < |conns| && conns[k] == c;
        assert k > 0;
      }
      hide NoDup, PassInv;
      PassStarts(conns, fds, Looks(was.Keys), was, plan);
    }

    lemma PassIsDone(all: map<Connection?, Slot>, plan: Connection? -> Behaviour)
      requires PassInv(conns, fds, |conns|, Looks(all.Keys), all, plan) && fds[0].fd == listenFd
      ensures Valid()
      ensures forall c: Connection :: c in all ==>
                && Seen(c.View(), c.visits) == Passed(all[c], plan(c))
                && (c in conns <==> c.fd != -1)
                && (c in conns ==> Slots()[c] == Slot(Seen(c.View(), c.visits), PassedPfd(all[c], plan(c))))
      ensures forall c: Connection :: c in conns ==> c in all
    {
      hide NoDup, PassInv, Passed, PassedPfd;
      PassEnds(conns, fds, Looks(all.Keys), all, plan);
      forall c: Connection | c in all
        ensures Seen(c.View(), c.visits) == Passed(all[c], plan(c)) && (c in conns <==> c.fd != -1)
        ensures c in conns ==> Slots()[c] == Slot(Seen(c.View(), c.visits), PassedPfd(all[c], plan(c)))
      {
        assert Looks(all.Keys)[c] == Seen(c.View(), c.visits);
        if c in conns {
          var k :| 0 <= k < |conns| && conns[k] == c;
          assert k > 0;
        }
      }
    }

    /** Every connection is watched for what it waits for. */
    ghost predicate Watched()
      requires |fds| == |conns|
      reads this, set c: Connection | c in conns
    {
      forall k :: 1 <= k < |conns| ==> conns[k] != null && Watches(conns[k].View(), fds[k].events)
    }

    lemma {:induction false} WatchedSlots()
      requires Valid()
      ensures Watched() <==> forall c :: c in Slots() ==> Watches(Slots()[c].seen.conn, Slots()[c].pfd.events)
    {
      var m := Slots();
      if Watched() {
        forall c | c in m ensures Watches(m[c].seen.conn, m[c].pfd.events) {
          var k :| 0 <= k < |conns| && conns[k] == c;
          assert k > 0;
        }
      }
      if forall c :: c in m ==> Watches(m[c].seen.conn, m[c].pfd.events) {
        forall k | 1 <= k < |conns| ensures conns[k] != null && Watches(conns[k].View(), fds[k].events) {
          assert conns[k] in m;
        }
      }
    }

    /** The idle sweep: exactly the connections that are open and not expired stay. */
    method Sweep(now: int)
      requires |fds| == |conns| >= 1 && conns[0] == null && NoDup(conns)
      requires forall k :: 1 <= k < |conns| ==> conns[k] != null
      modifies this`fds, this`conns, (set c: Connection | c in conns)`fd
      ensures |fds| == |conns| >= 1 && conns[0] == null && fds[0] == old(fds[0]) && NoDup(conns)
      ensures forall c: Connection :: c in old(conns) ==>
                (c in conns <==> Stays(old(c.View()), now)) && c.View() == Swept(old(c.View()), now)
      ensures forall k :: 1 <= k < |conns| ==> conns[k] != null
      ensures forall k :: 1 <= k < |conns| ==> Came(conns[k], fds[k], old(conns), old(fds))
    {
      hide Expired, SwapRemove, NoDup, Came, SweepInv;
      ghost var conns0, fds0 := conns, fds;
      ghost var was := map c: Connection | c in conns :: c.View();
      SweepStarts(conns, fds, was);
      assert Views(was.Keys) == was;
      var i := 1;
      while i < |fds|
        invariant i <= |fds| == |conns| && SweepInv(conns, fds, i, Views(was.Keys), was, conns0, fds0, now)
        decreases |fds| - i
      {
        var c := conns[i];
        ghost var st := Views(was.Keys);
        SweepLooks(conns, fds, i, st, was, conns0, fds0, now);
        SwapRemoveAt(fds, i);
        SwapRemoveAt(conns, i);
        if c == null || c.fd == -1 {
          SweepRemoves(conns, fds, i, st, was, conns0, fds0, now);
          assert st[c := Swept(was[c], now)] == st;
          RemoveSlot(i);
          continue;
        }
        if Expired(c.lastActive, now) {
          SweepRemoves(conns, fds, i, st, was, conns0, fds0, now);
          c.Close();
          assert Views(was.Keys) == st[c := CloseConn(st[c])];
          RemoveSlot(i);
          continue;
        }
        SweepKeeps(conns, fds, i, st, was, conns0, fds0, now);
        i := i + 1;
      }
      SweepEnds(conns, fds, Views(was.Keys), was, conns0, fds0, now);
    }

    /** The sweep behind an event pass keeps the arrays in order. */
    method SweepIdle(now: int)
      requires Valid()
      modifies this`fds, this`conns, (set c: Connection | c in conns)`fd
      ensures Valid() && fds[0] == old(fds)[0]
      ensures forall c: Connection :: c in old(conns) ==>
                (c in conns <==> Stays(old(c.View()), now)) && c.View() == Swept(old(c.View()), now)
      ensures forall c: Connection :: c in conns ==> c in old(conns)
      ensures old(Watched()) ==> Watched()
    {
      hide NoDup, Expired, Came, Watches;
      ghost var was := Views(set c: Connection | c in conns);
      ghost var fdOf := map c: Connection | c in conns :: c.fd;
      ghost var conns1, fds1 := conns, fds;
      Sweep(now);
      SweptIsAligned(conns, fds, conns1, fds1, fdOf);
      if old(Watched()) {
        SweptIsWatched(conns, fds, conns1, fds1, was);
      }
    }

    /** `poll` has filled in the returned events. */
    method Poll(revents: seq<Events>)
      requires Valid() && |revents| == |fds|
      modifies this`fds
      ensures Valid() && |fds| == |old(fds)|
      ensures forall k :: 0 <= k < |fds| ==> fds[k] == old(fds)[k].(revents := revents[k])
      ensures forall c: Connection :: c in conns ==> Slots()[c].seen == old(Slots())[c].seen
      ensures conns == old(conns) && (old(Watched()) ==> Watched())
    {
      fds := seq(|fds|, k requires 0 <= k < |fds| && |revents| == |fds| reads this => fds[k].(revents := revents[k]));
    }

    /**
      One round behind `poll`, when it reports ready descriptors: exactly the connections that are open
      after their visit and not expired stay, together with those just accepted.
    */
    method Round(now: int, plan: Connection? -> Behaviour, cfds: seq<int>) returns (ghost accepted: seq<Connection>)
      requires Valid() && forall k :: 0 <= k < |cfds| ==> cfds[k] != -1
      modifies this`fds, this`conns, set c: Connection | c in conns
      ensures Valid() && fds[0] == old(fds)[0]
      ensures fresh(accepted) && |accepted| == if old(fds)[0].revents == NONE then 0 else |cfds|
      ensures forall c: Connection :: c in old(conns) ==>
                var p := Passed(old(Slots())[c], plan(c));
                c.visits == p.visits && c.View() == Swept(p.conn, now) && (c in conns <==> Stays(p.conn, now))
      ensures forall k :: 0 <= k < |accepted| ==>
                accepted[k] in conns && accepted[k].View() == Conn(cfds[k], now, 0, 0)
      ensures forall c: Connection :: c in conns ==> c in old(conns) || c in accepted
      ensures old(Watched()) ==> Watched()
    {
      hide Passed, PassedPfd, Expired, Slots, Came, Valid, Watched;
      accepted := EventPass(now, plan, cfds);
      assert !Expired(now, now) by { ExpiredMeaning(now, now); }
      SweepIdle(now);
    }

    /**
      The loop of the worker, for any sequence of rounds: between rounds the arrays are in order, and every
      connection is watched for input, and for output while something of its response is unsent.
    */
    method Run(rounds: seq<RoundInput>)
      requires Valid() && Watched()
      requires forall r :: r in rounds ==> forall k :: 0 <= k < |r.cfds| ==> r.cfds[k] != -1
      modifies this`fds, this`conns, set c: Connection | c in conns
      ensures Valid() && Watched()
    {
      hide Watched;
      var i := 0;
      while i < |rounds|
        invariant 0 <= i <= |rounds| && Valid() && Watched()
        invariant forall c: Connection :: c in conns ==> c in old(conns) || fresh(c)
      {
        var r := rounds[i];
        Poll(seq(|fds|, k requires 0 <= k < |fds| reads this => r.revents(k)));
        if r.some {
          var accepted := Round(r.now, r.plan, r.cfds);
        }
        i := i + 1;
      }
    }
  }

  /** Entries that came from watched connections that have not changed are watched. */
  lemma SweptIsWatched(conns: seq<Connection?>, fds: seq<Pollfd>,
      conns1: seq<Connection?>, fds1: seq<Pollfd>, was: map<Connection, Conn>)
    requires |conns| == |fds| && |conns1| == |fds1|
    requires forall k :: 1 <= k < |conns| ==> Came(conns[k], fds[k], conns1, fds1)
    requires forall j :: 1 <= j < |conns1| ==> conns1[j] != null && conns1[j] in was && Watches(was[conns1[j]], fds1[j].events)
    ensures forall k :: 1 <= k < |conns| ==> conns[k] != null && conns[k] in was && Watches(was[conns[k]], fds[k].events)
  {
    hide Watches;
  }

  /** Entries that came from aligned arrays beside their connections are aligned. */
  lemma SweptIsAligned(conns: seq<Connection?>, fds: seq<Pollfd>,
      conns1: seq<Connection?>, fds1: seq<Pollfd>, fdOf: map<Connection, int>)
    requires |conns| == |fds| && |conns1| == |fds1|
    requires forall k :: 1 <= k < |conns| ==> Came(conns[k], fds[k], conns1, fds1)
    requires forall j :: 1 <= j < |conns1| ==> conns1[j] != null && conns1[j] in fdOf && fds1[j].fd == fdOf[conns1[j]]
    ensures forall k :: 1 <= k < |conns| ==> conns[k] in conns1 && conns[k] in fdOf && fds[k].fd == fdOf[conns[k]]
  {
  }

  /** The connections' fields, as a value. */
  ghost function Views(cs: set<Connection>): (m: map<Connection, Conn>)
    reads cs
  {
    map c | c in cs :: c.View()
  }

  /** The connections as a pass sees them, as a value. */
  ghost function Looks(cs: set<Connection?>): (m: map<Connection?, Seen>)
    reads set c: Connection | c in cs
    ensures m.Keys == cs - {null}
  {
    map c: Connection? | c in cs && c != null :: Seen(c.View(), c.visits)
  }

  // ------------------------------------------------------------ the event pass on values

  /**
    Slots below `i` have been dealt with, those from `i` on are untouched, and what has gone was visited
    and closed. `was` holds every connection met in the pass, the accepted ones included.
  */
  ghost predicate PassInv(conns: seq<Connection?>, fds: seq<Pollfd>, i: nat, st: map<Connection?, Seen>,
                          was: map<Connection?, Slot>, plan: Connection? -> Behaviour) {
    && i <= |conns| == |fds| && conns != [] && conns[0] == null && NoDup(conns)
    && st.Keys == was.Keys && null !in was
    && (forall k :: 1 <= k < |conns| ==> conns[k] in was)
    && (forall c :: c in was ==> was[c].seen.conn.fd != -1 && was[c].pfd.fd == was[c].seen.conn.fd)
    && (forall k :: 1 <= k < |conns| ==> Dealt(fds[k], st[conns[k]], was[conns[k]], plan(conns[k]), k < i))
    && (forall c :: c in was && c !in conns ==> Gone(st[c], was[c], plan(c)))
  }

  ghost predicate Dealt(p: Pollfd, seen: Seen, s: Slot, b: Behaviour, done: bool) {
    if done then seen == Passed(s, b) && p == PassedPfd(s, b) && seen.conn.fd != -1
    else seen == s.seen && p == s.pfd
  }

  ghost predicate Gone(seen: Seen, s: Slot, b: Behaviour) {
    seen == Passed(s, b) && seen.conn.fd == -1
  }

  lemma PassStarts(conns: seq<Connection?>, fds: seq<Pollfd>, st: map<Connection?, Seen>,
      was: map<Connection?, Slot>, plan: Connection? -> Behaviour)
    requires |conns| == |fds| && conns != [] && conns[0] == null && NoDup(conns)
    requires st.Keys == was.Keys && null !in was
    requires forall k :: 1 <= k < |conns| ==> conns[k] in was && fds[k] == was[conns[k]].pfd
    requires forall c :: c in was ==> c in conns && st[c] == was[c].seen
    requires forall c :: c in was ==> was[c].seen.conn.fd != -1 && was[c].pfd.fd == was[c].seen.conn.fd
    ensures PassInv(conns, fds, 0, st, was, plan)
  {
  }

  /** What the pass finds at `i` behind the listener. */
  lemma PassLooks(conns: seq<Connection?>, fds: seq<Pollfd>, i: nat, st: map<Connection?, Seen>,
      was: map<Connection?, Slot>, plan: Connection? -> Behaviour)
    requires PassInv(conns, fds, i, st, was, plan) && i < |conns|
    ensures conns[i] == null <==> i == 0
    ensures i > 0 ==> conns[i] in was && conns[i] in st && st[conns[i]] == was[conns[i]].seen
    ensures i > 0 ==> fds[i] == was[conns[i]].pfd && was[conns[i]].seen.conn.fd != -1
  {
    hide NoDup;
  }

  /** Moving on from the listener, or from a slot that has been dealt with. */
  lemma PassMovesOn(conns: seq<Connection?>, fds: seq<Pollfd>, i: nat, st: map<Connection?, Seen>,
      was: map<Connection?, Slot>, plan: Connection? -> Behaviour, p: Pollfd, seen: Seen)
    requires PassInv(conns, fds, i, st, was, plan) && i < |conns|
    requires i > 0 ==> Dealt(p, seen, was[conns[i]], plan(conns[i]), true)
    ensures i == 0 ==> PassInv(conns, fds, 1, st, was, plan)
    ensures i > 0 ==> PassInv(conns, fds[i := p], i + 1, st[conns[i] := seen], was, plan)
  {
    hide Dealt;
    if i > 0 {
      var c, f, st1 := conns[i], fds[i := p], st[conns[i] := seen];
      forall k | 1 <= k < |conns| ensures Dealt(f[k], st1[conns[k]], was[conns[k]], plan(conns[k]), k < i + 1) {
        if k != i { assert conns[k] != c; }
      }
    }
  }

  /** Removing a slot whose connection has been closed by its visit. */
  lemma PassRemoves(conns: seq<Connection?>, fds: seq<Pollfd>, i: nat, st: map<Connection?, Seen>,
      was: map<Connection?, Slot>, plan: Connection? -> Behaviour, p: Pollfd, seen: Seen)
    requires PassInv(conns, fds, i, st, was, plan) && 0 < i < |conns|
    requires Gone(seen, was[conns[i]], plan(conns[i]))
    ensures PassInv(SwapRemove(conns, i), SwapRemove(fds[i := p], i), i, st[conns[i] := seen], was, plan)
  {
    hide Dealt, Gone;
    var c, st1 := conns[i], st[conns[i] := seen];
    SwapRemoveKeepsOthers(conns, i);
    SwapRemoveAt(fds[i := p], i);
    var r, f := SwapRemove(conns, i), SwapRemove(fds[i := p], i);
    forall k | 1 <= k < |r| ensures r[k] in was && Dealt(f[k], st1[r[k]], was[r[k]], plan(r[k]), k < i) {
      var j := if k == i then |conns| - 1 else k;
      assert r[k] == conns[j] && f[k] == fds[j] && conns[j] != c;
    }
  }

  /** An accepted connection is appended behind everything, and it is not ready in this pass. */
  lemma PassAccepts(conns: seq<Connection?>, fds: seq<Pollfd>, st: map<Connection?, Seen>,
      was: map<Connection?, Slot>, plan: Connection? -> Behaviour, c: Connection?, slot: Slot)
    requires PassInv(conns, fds, 0, st, was, plan) && c != null && c !in was
    requires slot.pfd.fd == slot.seen.conn.fd != -1
    ensures PassInv(conns + [c], fds + [slot.pfd], 0, st[c := slot.seen], was[c := slot], plan)
  {
    hide Dealt, Gone;
    var all, f, st1, was1 := conns + [c], fds + [slot.pfd], st[c := slot.seen], was[c := slot];
    forall k | 1 <= k < |all| ensures all[k] in was1 && Dealt(f[k], st1[all[k]], was1[all[k]], plan(all[k]), false) {
      if k < |conns| {
        assert all[k] == conns[k] && conns[k] in was;
      } else {
        NotDealt(slot, plan(c));
      }
    }
    assert forall k :: 1 <= k < |conns| ==> conns[k] in was;
    assert forall k :: 0 <= k < |conns| ==> conns[k] != c;
  }

  lemma NotDealt(s: Slot, b: Behaviour)
    ensures Dealt(s.pfd, s.seen, s, b, false)
  {
  }

  lemma NewIsNotReady(fd: int, now: int, b: Behaviour)
    ensures var s := NewSlot(fd, now); Passed(s, b) == s.seen && PassedPfd(s, b) == s.pfd
  {
  }

  lemma NewIsWatched(fd: int, now: int)
    ensures Watches(NewSlot(fd, now).seen.conn, NewSlot(fd, now).pfd.events)
  {
  }

  lemma PassedIsWatched(s: Slot, b: Behaviour)
    requires s.seen.conn.fd != -1 && Watches(s.seen.conn, s.pfd.events)
    ensures Watches(Passed(s, b).conn, PassedPfd(s, b).events)
  {
    hide Serve, ServeEvents, Watches;
    VisitKeepsWatch(s.seen.conn, s.pfd, b);
  }

  lemma OpenSlot(conns: seq<Connection?>, fds: seq<Pollfd>, was: map<Connection?, Slot>, plan: Connection? -> Behaviour,
      c: Connection?, st: map<Connection?, Seen>)
    requires PassInv(conns, fds, |conns|, st, was, plan) && c in was
    ensures was[c].seen.conn.fd != -1
  {
    hide NoDup, Dealt, Gone;
  }

  /** A visit keeps the descriptor or closes it. */
  lemma PassedFd(s: Slot, b: Behaviour)
    ensures Passed(s, b).conn.fd in {s.seen.conn.fd, -1} && PassedPfd(s, b).fd == s.pfd.fd
  {
  }

  lemma PassEnds(conns: seq<Connection?>, fds: seq<Pollfd>, st: map<Connection?, Seen>,
      was: map<Connection?, Slot>, plan: Connection? -> Behaviour)
    requires PassInv(conns, fds, |conns|, st, was, plan)
    ensures |conns| == |fds| && conns != [] && conns[0] == null && NoDup(conns) && st.Keys == was.Keys
    ensures forall k :: 1 <= k < |conns| ==> conns[k] in was && fds[k] == PassedPfd(was[conns[k]], plan(conns[k]))
    ensures forall k :: 1 <= k < |conns| ==> conns[k] != null && fds[k].fd == st[conns[k]].conn.fd
    ensures null !in was
    ensures forall c :: c in was ==> st[c] == Passed(was[c], plan(c)) && (c in conns <==> st[c].conn.fd != -1)
  {
    hide Passed, PassedPfd, NoDup;
    forall c | c in was 
      ensures Passed(was[c], plan(c)).conn.fd in {was[c].seen.conn.fd, -1} && PassedPfd(was[c], plan(c)).fd == was[c].pfd.fd
    {
      PassedFd(was[c], plan(c));
    }
    forall c | c in was && c in conns ensures st[c] == Passed(was[c], plan(c)) && st[c].conn.fd != -1 {
      var k :| 0 <= k < |conns| && conns[k] == c;
      assert Dealt(fds[k], st[conns[k]], was[conns[k]], plan(conns[k]), true);
    }
  }

  // ------------------------------------------------------------ the sweep on values

  ghost predicate SweepInv(conns: seq<Connection?>, fds: seq<Pollfd>, i: nat, st: map<Connection, Conn>,
                           was: map<Connection, Conn>, conns0: seq<Connection?>, fds0: seq<Pollfd>, now: int) {
    && 1 <= i <= |conns| == |fds| && fds0 != [] && st.Keys == was.Keys
    && conns[0] == null && fds[0] == fds0[0] && NoDup(conns)
    && (forall k :: 1 <= k < |conns| ==> conns[k] != null && conns[k] in was && Came(conns[k], fds[k], conns0, fds0))
    && (forall k :: 1 <= k < i ==> Stays(was[conns[k]], now))
    && (forall c :: c in was ==> if c in conns then st[c] == was[c] else !Stays(was[c], now) && st[c] == Swept(was[c], now))
  }

  lemma SweepStarts(conns: seq<Connection?>, fds: seq<Pollfd>, was: map<Connection, Conn>)
    requires |fds| == |conns| >= 1 && conns[0] == null && NoDup(conns)
    requires forall k :: 1 <= k < |conns| ==> conns[k] != null && conns[k] in was
    requires forall c :: c in was ==> c in conns
    ensures forall now :: SweepInv(conns, fds, 1, was, was, conns, fds, now)
  {
    forall k | 1 <= k < |conns| ensures Came(conns[k], fds[k], conns, fds) {
    }
  }

  /** What the sweep finds at `i`. */
  lemma SweepLooks(conns: seq<Connection?>, fds: seq<Pollfd>, i: nat, st: map<Connection, Conn>,
      was: map<Connection, Conn>, conns0: seq<Connection?>, fds0: seq<Pollfd>, now: int)
    requires SweepInv(conns, fds, i, st, was, conns0, fds0, now) && i < |conns|
    ensures conns[i] != null && conns[i] in was && conns[i] in st && st[conns[i]] == was[conns[i]]
    ensures i > 0 && st.Keys == was.Keys
  {
    hide Came, NoDup;
  }

  lemma SweepRemoves(conns: seq<Connection?>, fds: seq<Pollfd>, i: nat, st: map<Connection, Conn>,
      was: map<Connection, Conn>, conns0: seq<Connection?>, fds0: seq<Pollfd>, now: int)
    requires SweepInv(conns, fds, i, st, was, conns0, fds0, now) && i < |conns|
    requires !Stays(was[conns[i]], now)
    ensures SweepInv(SwapRemove(conns, i), SwapRemove(fds, i), i, st[conns[i] := Swept(was[conns[i]], now)],
                     was, conns0, fds0, now)
  {
    hide Stays, Swept, Came;
    SwapRemoveKeepsOthers(conns, i);
    SwapRemoveAt(fds, i);
    var r, f := SwapRemove(conns, i), SwapRemove(fds, i);
    forall k | 1 <= k < |r| ensures r[k] != null && r[k] in was && Came(r[k], f[k], conns0, fds0) {
      var j := if k == i then |conns| - 1 else k;
      assert r[k] == conns[j] && f[k] == fds[j];
    }
    assert forall k :: 1 <= k < i ==> r[k] == conns[k];
  }

  lemma SwapRemoveAt<T>(s: seq<T>, i: nat)
    requires i < |s|
    ensures var r := SwapRemove(s, i);
            && |r| == |s| - 1
            && (forall k :: 0 <= k < |r| ==> r[k] == if k == i then s[|s| - 1] else s[k])
  {
  }

  lemma SweepKeeps(conns: seq<Connection?>, fds: seq<Pollfd>, i: nat, st: map<Connection, Conn>,
      was: map<Connection, Conn>, conns0: seq<Connection?>, fds0: seq<Pollfd>, now: int)
    requires SweepInv(conns, fds, i, st, was, conns0, fds0, now) && i < |conns|
    requires Stays(was[conns[i]], now)
    ensures SweepInv(conns, fds, i + 1, st, was, conns0, fds0, now)
  {
    hide Stays, Swept, Came, NoDup;
  }

  lemma SweepEnds(conns: seq<Connection?>, fds: seq<Pollfd>, st: map<Connection, Conn>,
      was: map<Connection, Conn>, conns0: seq<Connection?>, fds0: seq<Pollfd>, now: int)
    requires SweepInv(conns, fds, |conns|, st, was, conns0, fds0, now)
    ensures forall c :: c in was ==> (c in conns <==> Stays(was[c], now)) && c in st && st[c] == Swept(was[c], now)
    ensures |conns| == |fds| >= 1 && fds0 != [] && conns[0] == null && fds[0] == fds0[0] && NoDup(conns)
    ensures forall k :: 1 <= k < |conns| ==> conns[k] != null && Came(conns[k], fds[k], conns0, fds0)
  {
    hide Came, NoDup, Expired;
    forall c | c in was && c in conns ensures Stays(was[c], now) {
      var k :| 0 <= k < |conns| && conns[k] == c;
      assert k >= 1;
    }
  }

  /** This connection stood at some place of the old arrays beside this entry. */
  ghost predicate Came(c: Connection?, p: Pollfd, conns: seq<Connection?>, fds: seq<Pollfd>) {
    |conns| == |fds| && exists j :: 1 <= j < |conns| && conns[j] == c && fds[j] == p
  }

  predicate Stays(c: Conn, now: int) { c.fd != -1 && !Expired(c.lastActive, now) }

  function Swept(c: Conn, now: int): Conn { if Expired(c.lastActive, now) then CloseConn(c) else c }

  /** The sweep closes a connection if and only if more than five seconds, in whole milliseconds, have gone by. */
  lemma SweptIff(c: Conn, now: int)
    ensures Stays(c, now) <==> c.fd != -1 && now - c.lastActive < 5001 * 1_000_000
    ensures Swept(c, now) == if now - c.lastActive < 5001 * 1_000_000 then c else Conn(-1, c.lastActive, c.served, c.unsent)
  {
    ExpiredMeaning(c.lastActive, now);
  }

  // ------------------------------------------------------------ what counts as a request

  /** Visits of a connection that is writable and has nothing to read. */
  function WritableVisits(c: Conn, bs: seq<Behaviour>): Conn
    decreases |bs|
  {
    if bs == [] || c.fd == -1 then c
    else WritableVisits(Serve(c, Events(false, false, true), bs[0]), bs[1..])
  }

  /** The bytes that the sockets take in these visits. */
  function Taken(bs: seq<Behaviour>): nat
    requires forall b :: b in bs ==> b.write.Room?
  {
    if bs == [] then 0 else bs[0].write.n + Taken(bs[1..])
  }

  /** Partial writes add up: as long as less than the response is taken, the rest is what stays unsent, and nothing else changes. */
  lemma {:induction false} PartialWritesAddUp(c: Conn, bs: seq<Behaviour>)
    requires c.fd != -1 && (forall b :: b in bs ==> b.write.Room?) && Taken(bs) < c.unsent
    ensures WritableVisits(c, bs) == c.(unsent := c.unsent - Taken(bs))
    decreases |bs|
  {
    if bs != [] {
      assert bs[0] in bs;
      PartialWritesAddUp(Serve(c, Events(false, false, true), bs[0]), bs[1..]);
    }
  }

  /** The write that takes the last byte serves the request; the last one allowed closes the connection. */
  lemma LastWriteServes(c: Conn, b: Behaviour)
    requires c.fd != -1 && c.unsent > 0 && b.write.Room? && b.write.n >= c.unsent
    ensures var d := Serve(c, Events(false, false, true), b);
            if c.served < 99 then d == Conn(c.fd, b.doneAt, c.served + 1, 0) else d.fd == -1
  {
  }

  /**
    A connection with nothing to send that stays writable is charged one request per visit: it is open
    for fewer visits than requests it had left, and closed after as many.
  */
  lemma {:induction false} WritableVisitsAreCharged(c: Conn, bs: seq<Behaviour>)
    requires c.fd != -1 && c.unsent == 0 && c.served < MAX_KEEPALIVE_REQUESTS
    ensures var d := WritableVisits(c, bs);
            if |bs| < MAX_KEEPALIVE_REQUESTS - c.served
            then d.fd == c.fd && d.served == c.served + |bs| && d.unsent == 0
            else d.fd == -1
    decreases |bs|
  {
    if bs != [] && c.served + 1 < MAX_KEEPALIVE_REQUESTS {
      WritableVisitsAreCharged(Serve(c, Events(false, false, true), bs[0]), bs[1..]);
    }
  }

  /**
    How a connection comes to have nothing to send and to be watched for writability: a visit that writes
    and leaves it open asks for both events, and when it has charged a request nothing is left to send.
  */
  lemma {:induction false} WrittenStaysWatched(c: Conn, p: Pollfd, b: Behaviour)
    requires c.fd != -1 && !p.revents.err && p.revents.output && Serve(c, p.revents, b).fd != -1
    ensures ServeEvents(c, p, b) == BOTH
    ensures Serve(c, p.revents, b).served > c.served ==> Serve(c, p.revents, b).unsent == 0
  {
    hide ResponseText;
  }

  /** A visit never lets the count reach the limit, so that no response announces that it is the last. */
  lemma {:induction false} CloseIsNeverAnnounced(c: Conn, r: Events, b: Behaviour)
    requires c.served < MAX_KEEPALIVE_REQUESTS
    ensures Serve(c, r, b).served < MAX_KEEPALIVE_REQUESTS
    ensures ResponseText(Serve(c, r, b).served) == ResponseText(0)
  {
    hide ResponseText;
    var d := Serve(c, r, b);
    SameText(d.served);
  }

  lemma SameText(served: nat)
    ensures served < MAX_KEEPALIVE_REQUESTS ==> ResponseText(served) == ResponseText(0)
  {
  }
}
