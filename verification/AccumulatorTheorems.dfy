/** What the accumulator framing promises: any cut of the input, exact frames, exact missing byte counts. */
module AccumulatorTheorems {
  import opened Text
  import opened Numbers
  import opened Accumulator

  // ------------------------------------------------------------ the scan looks at the header block only

  /** Bytes behind the empty line do not change what the scan finds. */
  lemma {:induction false} ScanStable(a: string, t: string, hdrEnd: nat, start: nat, p: Policy)
    requires hdrEnd + 2 <= |a|
    ensures ScanLines(a + t, hdrEnd, start, p) == ScanLines(a, hdrEnd, start, p)
    decreases hdrEnd - start
  {
    hide ApplyLine;
    if start < hdrEnd {
      var e, f := Find(a, CRLF, start), Find(a + t, CRLF, start);
      FoundInFront(a, t, hdrEnd, start);
      if e.Some? && e.value <= hdrEnd {
        assert (a + t)[start..e.value] == a[start..e.value];
        ScanStable(a, t, hdrEnd, e.value + 2, ApplyLine(p, a[start..e.value]));
      }
    }
  }

  lemma FoundInFront(a: string, t: string, hdrEnd: nat, start: nat)
    requires hdrEnd + 2 <= |a|
    ensures var e, f := Find(a, CRLF, start), Find(a + t, CRLF, start);
            && (e.Some? ==> f == e)
            && (e.None? && f.Some? ==> f.value > hdrEnd)
  {
    var e, f := Find(a, CRLF, start), Find(a + t, CRLF, start);
    if e.Some? {
      FindStable(a, t, CRLF, start);
    } else if f.Some? && f.value <= hdrEnd {
      FindMeaning(a + t, CRLF, start);
      FindMeaning(a, CRLF, start);
      assert (a + t)[f.value..f.value + 2] == a[f.value..f.value + 2];
      assert At(a, CRLF, f.value);
      assert false;
    }
  }

  /** Two accumulators that agree up to the empty line are scanned alike. */
  lemma {:induction false} ScanDependsOnHeaderBlock(a: string, b: string, hdrEnd: nat)
    requires hdrEnd + 2 <= |a| && hdrEnd + 2 <= |b| && a[..hdrEnd + 2] == b[..hdrEnd + 2]
    ensures Scan(a, hdrEnd) == Scan(b, hdrEnd)
  {
    var c := a[..hdrEnd + 2];
    assert c + a[hdrEnd + 2..] == a && c + b[hdrEnd + 2..] == b;
    ScanStable(c, a[hdrEnd + 2..], hdrEnd, 0, DEFAULT);
    ScanStable(c, b[hdrEnd + 2..], hdrEnd, 0, DEFAULT);
  }

  // ------------------------------------------------------------ segmentation

  lemma HeadStays(a: string, t: string)
    requires Find(a, CRLF2, 0).Some?
    ensures var e := Find(a, CRLF2, 0).value;
            Find(a + t, CRLF2, 0) == Some(e) && Scan(a + t, e) == Scan(a, e)
            && Total(a + t, e) == Total(a, e) && Demand(a + t, e) == Demand(a, e)
  {
    FindStable(a, t, CRLF2, 0);
    ScanStable(a, t, Find(a, CRLF2, 0).value, 0, DEFAULT);
  }

  lemma CutStays(a: string, t: string, n: nat)
    requires n <= |a|
    ensures (a + t)[..n] == a[..n] && (a + t)[n..] == a[n..] + t
  {
  }

  /** A round that cuts is not changed by bytes that arrive later. */
  lemma LookStays(r: Rx, b: string)
    requires Look(r).Cut?
    ensures Look(Append(r, b)) == Cut(Look(r).frame, Append(Look(r).rx, b))
  {
    hide ScanLines;
    HeadStays(r.acc, b);
    CutStays(r.acc, b, Demand(r.acc, Find(r.acc, CRLF2, 0).value));
  }

  /** A round that waits leaves the bytes alone, and what it notes down does not matter later. */
  lemma LookWaits(r: Rx, b: string)
    requires Look(r).Waiting?
    ensures Look(r).rx.acc == r.acc && Look(Append(Look(r).rx, b)) == Look(Append(r, b))
  {
    hide ScanLines;
    if Find(r.acc, CRLF2, 0).Some? { HeadStays(r.acc, b); }
  }

  /** Framing what is there and receiving the rest later is framing everything at once. */
  lemma {:induction false} ReframeThenReceive(r: Rx, b: string)
    ensures var o := Reframe(r);
            if o.spins then Receive(r, b) == Framed(Append(o.rx, b), o.frames, true)
            else Receive(r, b) == Before(o.frames, Receive(o.rx, b))
    decreases |r.acc|
  {
    hide Look;
    match Look(r)
    case Waiting(q) =>
      LookWaits(r, b);
      assert [] + Receive(q, b).frames == Receive(q, b).frames;
    case Cut(f, q) =>
      LookStays(r, b);
      CutCosts(r);
      if f.bytes != "" {
        ReframeThenReceive(q, b);
        BeforeTwice([f], Reframe(q).frames, Receive(Reframe(q).rx, b));
      }
  }

  lemma {:induction false} ReceiveTwice(r: Rx, a: string, b: string)
    ensures var o := Receive(r, a);
            if o.spins then Receive(r, a + b) == Framed(Append(o.rx, b), o.frames, true)
            else Receive(r, a + b) == Before(o.frames, Receive(o.rx, b))
  {
    hide Reframe;
    ReframeThenReceive(Append(r, a), b);
    Assoc(r.acc, a, b);
  }

  /**
    Any segmentation gives the frames of the unsplit stream and ends or spins like it; when it ends, the
    accumulator, `body_need` and `keep_alive` are the same too.
  */
  lemma {:induction false} SegmentationIndependence(r: Rx, ss: seq<string>)
    requires ss != []
    ensures var o, u := ReceiveAll(r, ss), Receive(r, Flatten(ss));
            o.frames == u.frames && o.spins == u.spins && (!o.spins ==> o == u)
    decreases |ss|
  {
    hide Reframe;
    var o := Receive(r, ss[0]);
    ReceiveTwice(r, ss[0], Flatten(ss[1..]));
    if |ss| == 1 {
      EmptyBack(ss[0]);
      assert ss[1..] == [];
      assert o.frames + [] == o.frames;
    } else if !o.spins {
      SegmentationIndependence(o.rx, ss[1..]);
    }
  }

  // ------------------------------------------------------------ does the loop end?

  /** The frames that the first `n` rounds of the loop cut, as far as they cut any. */
  function Cuts(r: Rx, n: nat): seq<Frame>
    decreases n
  {
    if n == 0 then [] else
    match Look(r)
    case Waiting(_) => []
    case Cut(f, q) => [f] + Cuts(q, n - 1)
  }

  lemma {:induction false} SpinningCuts(r: Rx, n: nat)
    requires Reframe(r).spins
    ensures |Cuts(r, n)| == n
    decreases n
  {
    hide Look;
    if n > 0 {
      var f, q := Look(r).frame, Look(r).rx;
      if f.bytes == "" {
        EmptyCutRepeats(r);
      }
      SpinningCuts(q, n - 1);
    }
  }

  /** A round that cuts nothing leaves the accumulator alone, so that the next one cuts nothing either. */
  lemma EmptyCutRepeats(r: Rx)
    requires Look(r).Cut? && Look(r).frame.bytes == ""
    ensures Look(r).rx.acc == r.acc && Look(Look(r).rx) == Look(r)
  {
    hide ScanLines;
  }

  lemma {:induction false} EndingCuts(r: Rx)
    requires !Reframe(r).spins
    ensures |Cuts(r, |Reframe(r).frames| + 1)| == |Reframe(r).frames|
    decreases |r.acc|
  {
    hide Look;
    match Look(r)
    case Waiting(_) =>
    case Cut(f, q) =>
      CutCosts(r);
      EndingCuts(q);
  }

  /** The framing loop reaches a round that waits if and only if it does not spin. */
  lemma {:induction false} LoopEndsUnlessItSpins(r: Rx)
    ensures (exists n: nat :: |Cuts(r, n)| < n) <==> !Reframe(r).spins
  {
    hide Look, Reframe;
    if Reframe(r).spins {
      forall n: nat ensures |Cuts(r, n)| == n { SpinningCuts(r, n); }
    } else {
      EndingCuts(r);
    }
  }

  lemma {:induction false} StatedLength(a: string, e: nat, start: nat, p: Policy)
    requires p.length <= ULLONG_MAX
    ensures ScanLines(a, e, start, p).length <= ULLONG_MAX
    decreases e - start
  {
    if start < e && Find(a, CRLF, start).Some? && Find(a, CRLF, start).value <= e {
      StatedLength(a, e, Find(a, CRLF, start).value + 2, ApplyLine(p, a[start..Find(a, CRLF, start).value]));
    }
  }

  /** When the sum wraps, less is demanded than the header block holds: nothing is waited for. */
  lemma {:induction false} WrappedDemand(a: string)
    requires Find(a, CRLF2, 0).Some?
    ensures var e := Find(a, CRLF2, 0).value;
            if Total(a, e) < SIZE_LIMIT then Demand(a, e) == Total(a, e) >= e + 4
            else Demand(a, e) < e + 4 <= |a|
  {
    hide ScanLines;
    var e := Find(a, CRLF2, 0).value;
    StatedLength(a, e, 0, DEFAULT);
    Wraps(e + 4, Scan(a, e).length);
  }

  lemma Wraps(offset: nat, length: nat)
    requires length < SIZE_LIMIT
    ensures var sum := (offset + length) % SIZE_LIMIT;
            if offset + length < SIZE_LIMIT then sum == offset + length else sum < offset
  {
    if offset < SIZE_LIMIT <= offset + length {
      assert (offset + length) % SIZE_LIMIT == offset + length - SIZE_LIMIT;
    }
  }

  /** A round of the loop makes progress if and only if the wrapped sum is not zero. */
  lemma {:induction false} ProgressIff(r: Rx)
    requires Look(r).Cut?
    ensures |Look(r).rx.acc| < |r.acc| <==> Demand(r.acc, Find(r.acc, CRLF2, 0).value) != 0
  {
    hide ScanLines;
  }

  // ------------------------------------------------------------ exact frames

  /** A byte string that is one request: it ends exactly where its own header block says, and fits into memory. */
  ghost predicate Exact(f: string) {
    var e := Find(f, CRLF2, 0);
    e.Some? && |f| == Total(f, e.value) < SIZE_LIMIT
  }

  /** A byte string that does not hold a complete request, and states none that can never be complete. */
  ghost predicate Short(a: string) {
    var e := Find(a, CRLF2, 0);
    e.Some? ==> |a| < Total(a, e.value) < SIZE_LIMIT
  }

  /** No header block on the way through the bytes states a length with which the sum wraps. */
  ghost predicate Unwrapped(a: string)
    decreases |a|
  {
    var e := Find(a, CRLF2, 0);
    e.Some? ==>
      var t := Total(a, e.value);
      t < SIZE_LIMIT && (0 < t <= |a| ==> Unwrapped(a[t..]))
  }

  /** How many bytes are missing from a short byte string whose header block is complete. */
  function Missing(a: string): int {
    match Find(a, CRLF2, 0)
    case None => 0
    case Some(e) => Total(a, e) - |a|
  }

  function BytesOf(fs: seq<Frame>): string {
    if fs == [] then "" else fs[0].bytes + BytesOf(fs[1..])
  }

  /** A frame is one request, with the keep-alive decision of its own header block. */
  ghost predicate ExactFrame(f: Frame) {
    Exact(f.bytes) && f.keep == Scan(f.bytes, Find(f.bytes, CRLF2, 0).value).keep
  }

  ghost predicate AllExact(fs: seq<Frame>) { forall f :: f in fs ==> ExactFrame(f) }

  /** What a connection looks like between two segments. */
  ghost predicate Settled(r: Rx) { Short(r.acc) && r.need == Missing(r.acc) }

  lemma {:induction false} FrontIsExact(a: string)
    requires Find(a, CRLF2, 0).Some? && Total(a, Find(a, CRLF2, 0).value) <= |a|
    requires Total(a, Find(a, CRLF2, 0).value) < SIZE_LIMIT
    ensures var e := Find(a, CRLF2, 0).value; var f := a[..Total(a, e)];
            Exact(f) && Find(f, CRLF2, 0) == Some(e) && Scan(f, e) == Scan(a, e)
  {
    hide ScanLines;
    var e := Find(a, CRLF2, 0).value;
    var n := Total(a, e);
    var f := a[..n];
    assert f + a[n..] == a;
    FindMeaning(a, CRLF2, 0);
    assert f[e..e + 4] == a[e..e + 4];
    forall j | 0 <= j < e ensures !At(f, CRLF2, j) {
      assert !At(a, CRLF2, j);
      if j + 4 <= |f| { assert f[j..j + 4] == a[j..j + 4]; }
    }
    FindIs(f, CRLF2, 0, e);
    HeadStays(f, a[n..]);
  }

  /** A frame is exact if and only if the sum did not wrap when it was cut. */
  lemma {:induction false} CutIsExactIff(r: Rx)
    requires Look(r).Cut?
    ensures ExactFrame(Look(r).frame) <==> Total(r.acc, Find(r.acc, CRLF2, 0).value) < SIZE_LIMIT
  {
    hide ScanLines, Scan;
    var a := r.acc;
    var e := Find(a, CRLF2, 0).value;
    WrappedDemand(a);
    if Total(a, e) < SIZE_LIMIT {
      FrontIsExact(a);
    } else {
      BlockCutOff(a, Demand(a, e));
    }
  }

  /** A front that ends inside the header block has no header block. */
  lemma BlockCutOff(a: string, n: nat)
    requires Find(a, CRLF2, 0).Some? && n < Find(a, CRLF2, 0).value + 4 && n <= |a|
    ensures Find(a[..n], CRLF2, 0).None?
  {
    assert a[..n] + a[n..] == a;
    if Find(a[..n], CRLF2, 0).Some? {
      FindStable(a[..n], a[n..], CRLF2, 0);
    }
  }

  lemma NoBytes(a: string)
    ensures BytesOf([]) + a == a
  {
    EmptyFront(a);
  }

  lemma CutBytes(a: string, n: nat, fs: seq<Frame>, rest: string, f: Frame)
    requires n <= |a| && f.bytes == a[..n] && BytesOf(fs) + rest == a[n..]
    ensures BytesOf([f] + fs) + rest == a
  {
    assert ([f] + fs)[1..] == fs;
    Assoc(f.bytes, BytesOf(fs), rest);
    assert a[..n] + a[n..] == a;
  }

  /** Whatever the lengths stated, every byte ends up in exactly one frame or in the rest. */
  lemma {:induction false} NoByteIsLost(r: Rx)
    ensures BytesOf(Reframe(r).frames) + Reframe(r).rx.acc == r.acc
    decreases |r.acc|
  {
    hide Look, BytesOf;
    match Look(r)
    case Waiting(q) =>
      LookWaits(r, "");
      NoBytes(r.acc);
    case Cut(f, q) =>
      CutSplits(r);
      if f.bytes == "" {
        CutBytes(r.acc, 0, [], q.acc, f) by { NoBytes(q.acc); }
        assert [f] + [] == [f];
      } else {
        CutCosts(r);
        NoByteIsLost(q);
        CutBytes(r.acc, |f.bytes|, Reframe(q).frames, Reframe(q).rx.acc, f);
      }
  }

  lemma CutSplits(r: Rx)
    requires Look(r).Cut?
    ensures var f, q := Look(r).frame, Look(r).rx;
            |f.bytes| <= |r.acc| && f.bytes == r.acc[..|f.bytes|] && q.acc == r.acc[|f.bytes|..]
  {
    hide ScanLines;
  }

  /** A loop that ends leaves a short rest behind, with `body_need` as the number of missing bytes. */
  lemma {:induction false} RestIsSettled(r: Rx)
    requires !Reframe(r).spins && (r.need == 0 || Find(r.acc, CRLF2, 0).Some?)
    ensures Settled(Reframe(r).rx)
    decreases |r.acc|
  {
    match Look(r)
    case Waiting(q) => WaitingIsSettled(r);
    case Cut(f, q) =>
      hide Look;
      CutCosts(r);
      CutLeaves(r);
      RestIsSettled(q);
  }

  lemma CutLeaves(r: Rx)
    ensures Look(r).Cut? ==> Look(r).rx.need == 0
  {
    hide ScanLines;
  }

  lemma WaitingIsSettled(r: Rx)
    requires Look(r).Waiting? && (r.need == 0 || Find(r.acc, CRLF2, 0).Some?)
    ensures Settled(Look(r).rx)
  {
    hide ScanLines, Scan;
    if Find(r.acc, CRLF2, 0).Some? {
      WrappedDemand(r.acc);
    }
  }

  /**
    All frames are exact if and only if no header block on the way states a length with which the sum
    wraps; and then the loop ends.
  */
  lemma {:induction false} FramingIsExactIff(r: Rx)
    ensures AllExact(Reframe(r).frames) <==> Unwrapped(r.acc)
    ensures Unwrapped(r.acc) ==> !Reframe(r).spins
    decreases |r.acc|
  {
    hide Look, ExactFrame, Total, Demand;
    match Look(r)
    case Waiting(q) => WaitingIsUnwrapped(r);
    case Cut(f, q) =>
      CutIsExactIff(r);
      CutSplits(r);
      CutWhere(r);
      if f.bytes != "" {
        FramingIsExactIff(q);
        assert f in [f] + Reframe(q).frames;
      } else {
        assert f in [f];
      }
  }

  lemma WaitingIsUnwrapped(r: Rx)
    requires Look(r).Waiting?
    ensures Unwrapped(r.acc)
  {
    hide ScanLines, Scan;
    if Find(r.acc, CRLF2, 0).Some? {
      WrappedDemand(r.acc);
    }
  }

  lemma CutWhere(r: Rx)
    requires Look(r).Cut?
    ensures var e := Find(r.acc, CRLF2, 0);
            e.Some? && (Total(r.acc, e.value) < SIZE_LIMIT
                        ==> |Look(r).frame.bytes| == Total(r.acc, e.value) > 0 && Total(r.acc, e.value) <= |r.acc|)
  {
    hide ScanLines, Scan;
    WrappedDemand(r.acc);
  }

  /**
    Between segments `body_need` is always the number of missing bytes, and no byte is lost; the frames
    are exact, and the loop ends, as long as no sum wraps.
  */
  lemma {:induction false} ReceiveKeepsSettled(r: Rx, s: string)
    requires Settled(r)
    ensures var o := Receive(r, s);
            && (!o.spins ==> Settled(o.rx))
            && BytesOf(o.frames) + o.rx.acc == r.acc + s
            && (AllExact(o.frames) <==> Unwrapped(r.acc + s))
            && (Unwrapped(r.acc + s) ==> !o.spins)
  {
    hide ScanLines, Reframe, Unwrapped, ExactFrame;
    var q := Append(r, s);
    NoByteIsLost(q);
    FramingIsExactIff(q);
    if Find(r.acc, CRLF2, 0).Some? {
      HeadStays(r.acc, s);
    }
    if !Reframe(q).spins {
      RestIsSettled(q);
    }
  }

  lemma ExactFrontIsCut(f: string, rest: string, keep: bool, need: nat)
    requires Exact(f)
    ensures var k := Scan(f, Find(f, CRLF2, 0).value).keep;
            Reframe(Rx(f + rest, keep, need)) == Before([Frame(f, k)], Reframe(Rx(rest, k, 0)))
  {
    hide ScanLines;
    HeadStays(f, rest);
    CutStays(f, rest, |f|);
    WrappedDemand(f);
    assert f[..|f|] == f && f[|f|..] + rest == rest;
  }

  /** What the last frame asks for, or what was so before. */
  function LastKeep(fs: seq<Frame>, keep: bool): bool { if fs == [] then keep else fs[|fs| - 1].keep }

  /** What the header block that is held asks for; without one, what was so before. */
  function HeldKeep(rest: string, keep: bool): bool {
    match Find(rest, CRLF2, 0) case None => keep case Some(e) => Scan(rest, e).keep
  }

  lemma {:induction false} ShortStays(rest: string, keep: bool, need: nat)
    requires Short(rest)
    ensures var o := Reframe(Rx(rest, keep, need));
            o.frames == [] && o.rx.acc == rest && !o.spins && o.rx.keepAlive == HeldKeep(rest, keep)
  {
    hide ScanLines, Scan;
    if Find(rest, CRLF2, 0).Some? { WrappedDemand(rest); }
  }

  /**
    The split of a stream into exact frames and a short rest is unique, and it is the one found; the last
    header block received, its body complete or not, decides whether the connection is kept.
  */
  lemma {:induction false} OnlyOneFraming(fs: seq<Frame>, rest: string, keep: bool, need: nat)
    requires AllExact(fs) && Short(rest)
    ensures var o := Reframe(Rx(BytesOf(fs) + rest, keep, need));
            && o.frames == fs && o.rx.acc == rest && !o.spins && o.rx.keepAlive == HeldKeep(rest, LastKeep(fs, keep))
    decreases |fs|
  {
    hide Reframe, Find, Short, Scan, Exact;
    if fs == [] {
      EmptyFront(rest);
      ShortStays(rest, keep, need);
    } else {
      var f := fs[0];
      assert f in fs;
      OnlyOneFraming(fs[1..], rest, f.keep, 0);
      Assoc(f.bytes, BytesOf(fs[1..]), rest);
      ExactFrontIsCut(f.bytes, BytesOf(fs[1..]) + rest, keep, need);
      assert fs == [f] + fs[1..];
    }
  }

  lemma NothingToFrame(keep: bool)
    ensures Reframe(Rx("", keep, 0)) == Framed(Rx("", keep, 0), [], false)
  {
    assert Find("", CRLF2, 0).None?;
  }

  /**
    `body_need` is exact: fewer bytes frame nothing and lower it by their number, that many bytes
    frame exactly the bytes held so far plus the new ones and empty the accumulator.
  */
  lemma {:induction false} BodyNeedIsExact(r: Rx, s: string)
    requires Settled(r) && r.need > 0 && |s| <= r.need
    ensures var o := Receive(r, s);
            !o.spins &&
            if |s| < r.need then o.frames == [] && o.rx.acc == r.acc + s && o.rx.need == r.need - |s|
            else |o.frames| == 1 && o.frames[0].bytes == r.acc + s && o.rx.acc == "" && o.rx.need == 0
  {
    hide ScanLines;
    HeadStays(r.acc, s);
    var a := r.acc + s;
    var e := Find(a, CRLF2, 0).value;
    WrappedDemand(a);
    if |s| == r.need {
      assert a[..|a|] == a && a[|a|..] == "";
      NothingToFrame(Scan(a, e).keep);
    }
  }

  /** `body_need` is zero between segments exactly when no header block is waiting for its body. */
  lemma {:induction false} NeedMeansWaiting(r: Rx)
    requires Settled(r)
    ensures r.need == 0 <==> Find(r.acc, CRLF2, 0).None?
  {
    hide ScanLines;
  }

  // ------------------------------------------------------------ what the scan reads

  function ApplyLines(p: Policy, ls: seq<string>): Policy
    decreases ls
  {
    if ls == [] then p else ApplyLines(ApplyLine(p, ls[0]), ls[1..])
  }

  lemma {:induction false} LineInBlock(pre: string, l: string, rest: string)
    requires NoCrlf(l)
    ensures var b := pre + (l + CRLF + rest);
            Find(b, CRLF, |pre|) == Some(|pre| + |l|) && b[|pre|..|pre| + |l|] == l
  {
    FirstCrlf(l, rest);
    FindShift(pre, l + CRLF + rest, CRLF, 0);
  }

  lemma ScanOneLine(b: string, hdrEnd: nat, start: nat, end: nat, p: Policy)
    requires start < hdrEnd && end <= hdrEnd && Find(b, CRLF, start) == Some(end)
    ensures ScanLines(b, hdrEnd, start, p) == ScanLines(b, hdrEnd, end + 2, ApplyLine(p, b[start..end]))
  {
    hide ApplyLine;
  }

  lemma {:induction false} LinesCons(ls: seq<string>, tail: string)
    requires ls != []
    ensures Lines(ls) + tail == ls[0] + CRLF + (Lines(ls[1..]) + tail)
    ensures |Lines(ls)| == |ls[0]| + 2 + |Lines(ls[1..])|
    ensures if |ls| > 1 then |Lines(ls[1..])| >= 2 else Lines(ls[1..]) == ""
  {
  }

  lemma ScanNoMore(b: string, hdrEnd: nat, start: nat, p: Policy)
    requires start >= hdrEnd
    ensures ScanLines(b, hdrEnd, start, p) == p
  {
  }

  lemma ApplyLinesCons(p: Policy, ls: seq<string>)
    requires ls != []
    ensures ApplyLines(p, ls) == ApplyLines(ApplyLine(p, ls[0]), ls[1..])
    ensures |ls| == 1 ==> ApplyLines(p, ls) == ApplyLine(p, ls[0])
  {
    hide ApplyLine;
  }

  /** A block of lines is read line by line, from the first to the last. */
  lemma {:induction false} ScanReadsLines(pre: string, ls: seq<string>, tail: string, p: Policy)
    requires ls != [] && GoodLines(ls)
    ensures |Lines(ls)| >= 2
    ensures ScanLines(pre + (Lines(ls) + tail), |pre| + |Lines(ls)| - 2, |pre|, p) == ApplyLines(p, ls)
    decreases |ls|
  {
    hide ApplyLine, ApplyLines, ScanLines, Lines, Find;
    var l, tl := ls[0], ls[1..];
    var q := ApplyLine(p, l);
    var rest := Lines(tl) + tail;
    LinesCons(ls, tail);
    ApplyLinesCons(p, ls);
    var hdrEnd := |pre| + |Lines(ls)| - 2;
    LineInBlock(pre, l, rest);
    ScanOneLine(pre + (l + CRLF + rest), hdrEnd, |pre|, |pre| + |l|, p);
    if tl == [] {
      ScanNoMore(pre + (l + CRLF + rest), hdrEnd, |pre| + |l| + 2, q);
    } else {
      Assoc(pre, l + CRLF, rest);
      ScanReadsLines(pre + (l + CRLF), tl, tail, q);
    }
  }

  /** `l` is a header line with this name, in any case, and this value behind the blanks. */
  ghost predicate LineIs(l: string, name: string, value: string) {
    var c := Find(l, ":", 0);
    c.Some? && Lower(l[..c.value]) == name && TrimLeft(l[c.value + 1..]) == value
  }

  ghost predicate LineNames(l: string, name: string) {
    var c := Find(l, ":", 0);
    c.Some? && Lower(l[..c.value]) == name
  }

  ghost predicate NoneNames(ls: seq<string>, name: string) {
    forall i :: 0 <= i < |ls| ==> !LineNames(ls[i], name)
  }

  lemma {:induction false} NotNamed(p: Policy, ls: seq<string>)
    ensures NoneNames(ls, "content-length") ==> ApplyLines(p, ls).length == p.length
    ensures NoneNames(ls, "connection") ==> ApplyLines(p, ls).keep == p.keep
    decreases ls
  {
    if ls != [] {
      assert ls == [ls[0]] + ls[1..];
      NotNamed(ApplyLine(p, ls[0]), ls[1..]);
    }
  }

  /** The last line with a name decides: the length it states, or whether the connection stays open. */
  lemma {:induction false} LastLineDecides(p: Policy, before: seq<string>, l: string, after: seq<string>, value: string)
    ensures LineIs(l, "content-length", value) && NoneNames(after, "content-length")
        ==> ApplyLines(p, before + [l] + after).length == Strtoull(value)
    ensures LineIs(l, "connection", value) && NoneNames(after, "connection")
        ==> ApplyLines(p, before + [l] + after).keep == !HasClose(value)
    decreases |before|
  {
    var ls := before + [l] + after;
    CloseIsFound(value);
    hide HasClose;
    if before == [] {
      assert ls[0] == l && ls[1..] == after;
      NotNamed(ApplyLine(p, l), after);
    } else {
      assert ls[0] == before[0] && ls[1..] == before[1..] + [l] + after;
      hide ApplyLine;
      LastLineDecides(ApplyLine(p, before[0]), before[1..], l, after, value);
    }
  }

  /** Without such lines the connection stays open and there is no body. */
  lemma NothingStated(ls: seq<string>)
    requires NoneNames(ls, "content-length") && NoneNames(ls, "connection")
    ensures ApplyLines(DEFAULT, ls) == Policy(true, 0)
  {
    NotNamed(DEFAULT, ls);
  }

  /** A message as it is written: its lines, the request line first, and a body. */
  datatype Message = Message(lines: seq<string>, body: string)

  function MessageText(m: Message): string { Lines(m.lines) + CRLF + m.body }

  ghost predicate GoodMessage(m: Message) {
    && m.lines != [] && GoodLines(m.lines)
    && |m.body| == ApplyLines(DEFAULT, m.lines).length
    && |MessageText(m)| < SIZE_LIMIT
  }

  function FrameOf(m: Message): Frame { Frame(MessageText(m), ApplyLines(DEFAULT, m.lines).keep) }

  function FramesOf(ms: seq<Message>): (fs: seq<Frame>)
    ensures |fs| == |ms| && forall i :: 0 <= i < |ms| ==> fs[i] == FrameOf(ms[i])
  {
    seq(|ms|, i requires 0 <= i < |ms| => FrameOf(ms[i]))
  }

  /** The block of a message, and where its scan stops. */
  lemma BlockIsScanned(ls: seq<string>, rest: string)
    requires ls != [] && GoodLines(ls)
    ensures |Lines(ls)| >= 2
    ensures var a := Lines(ls) + CRLF + rest; var e := |Lines(ls)| - 2;
            Find(a, CRLF2, 0) == Some(e) && Scan(a, e) == ApplyLines(DEFAULT, ls)
  {
    hide ScanLines, ApplyLine, ApplyLines, Lines;
    FirstCrlf2(ls, rest);
    ScanReadsLines("", ls, CRLF + rest, DEFAULT);
    Assoc(Lines(ls), CRLF, rest);
    EmptyFront(Lines(ls) + CRLF + rest);
  }

  lemma MessageIsExact(m: Message)
    requires GoodMessage(m)
    ensures ExactFrame(FrameOf(m))
  {
    hide ScanLines, ApplyLine, ApplyLines, Lines;
    BlockIsScanned(m.lines, m.body);
  }

  /** A pipeline of messages, written one behind the other and cut anywhere, is framed message by message. */
  lemma {:induction false} PipelineIsFramed(ms: seq<Message>, ss: seq<string>)
    requires ss != [] && forall m :: m in ms ==> GoodMessage(m)
    requires Flatten(ss) == BytesOf(FramesOf(ms))
    ensures var o := ReceiveAll(Rx("", true, 0), ss);
            o == Framed(Rx("", LastKeep(FramesOf(ms), true), 0), FramesOf(ms), false)
  {
    hide ScanLines, ApplyLines, Lines, Reframe, Flatten, Scan;
    var fs := FramesOf(ms);
    forall f | f in fs ensures ExactFrame(f) {
      var i :| 0 <= i < |fs| && fs[i] == f;
      assert ms[i] in ms;
      MessageIsExact(ms[i]);
    }
    SegmentationIndependence(Rx("", true, 0), ss);
    EmptyFront(Flatten(ss));
    EmptyBack(Flatten(ss));
    assert Short("") by { assert Find("", CRLF2, 0).None?; }
    OnlyOneFraming(fs, "", true, 0);
    ReceiveKeepsSettled(Rx("", true, 0), Flatten(ss));
  }

  // ------------------------------------------------------------ negative lengths

  /** What the loop does at the front of the accumulator, when the block ends and states a length. */
  lemma LookAtBlock(ls: seq<string>, rest: string, keep: bool, need: nat)
    requires ls != [] && GoodLines(ls)
    ensures |Lines(ls)| >= 2
    ensures var r := Rx(Lines(ls) + CRLF + rest, keep, need); var k := ApplyLines(DEFAULT, ls).keep;
            var demand := (|Lines(ls)| + 2 + ApplyLines(DEFAULT, ls).length) % SIZE_LIMIT;
            Look(r) == if |r.acc| < demand then Waiting(Rx(r.acc, k, demand - |r.acc|))
                       else Cut(Frame(r.acc[..demand], k), Rx(r.acc[demand..], k, 0))
  {
    hide ScanLines, ApplyLines, Lines;
    BlockIsScanned(ls, rest);
  }

  /**
    `strtoull` negates, so a stated length of -n demands the header block less n bytes, modulo 2^64. With
    n the size of the block the loop never ends; with a smaller n the frame ends inside its own header
    block. Only with a larger n is the stated length the positive number 2^64 - n that it stands for: the
    loop waits until that many bytes of body are there, and cuts an exact frame when they are.
  */
  lemma {:induction false} NegativeLength(ls: seq<string>, rest: string, n: nat, keep: bool, need: nat)
    requires ls != [] && GoodLines(ls) && ApplyLines(DEFAULT, ls).length == SIZE_LIMIT - n
    requires 0 < n < SIZE_LIMIT && |Lines(ls)| + 2 < SIZE_LIMIT   // the block itself fits into memory
    ensures var a := Lines(ls) + CRLF + rest; var block := |Lines(ls)| + 2; var r := Rx(a, keep, need);
            && (n == block ==> Reframe(r).spins && Reframe(r).rx.acc == a)
            && (n < block ==> Look(r).Cut? && Look(r).frame.bytes == a[..block - n])
            && (n > block ==>
                 var t := block + (SIZE_LIMIT - n);
                 if |a| < t then Look(r).Waiting? && Look(r).rx.need == t - |a|
                 else Look(r).Cut? && Look(r).frame.bytes == a[..t] && ExactFrame(Look(r).frame))
  {
    hide ScanLines, ApplyLines, Lines, Look, ExactFrame;
    LookAtBlock(ls, rest, keep, need);
    var a, block := Lines(ls) + CRLF + rest, |Lines(ls)| + 2;
    var t := block + (SIZE_LIMIT - n);
    if n <= block {
      assert t % SIZE_LIMIT == block - n;
    } else if t <= |a| {
      BlockIsScanned(ls, rest);
      CutIsExactIff(Rx(a, keep, need));
    }
    assert a[0..] == a && a[..0] == "";
  }

  lemma NegativeLine(n: nat)
    requires 0 < n < SIZE_LIMIT
    ensures var l := "Content-Length: -" + Decimal(n);
            && LineIs(l, "content-length", "-" + Decimal(n)) && NoCrlf(l) && l != ""
            && Strtoull("-" + Decimal(n)) == SIZE_LIMIT - n
  {
    hide Lower, NoCrlf, Decimal, Strtoull;
    StrtoullNegative(n);
    LengthLineIs("-" + Decimal(n));
    assert "Content-Length: " + ("-" + Decimal(n)) == "Content-Length: -" + Decimal(n);
  }

  /** The line that states `value`, when no byte of it is a blank in front, CR or LF. */
  lemma LengthLineIs(value: string)
    requires value != "" && !IsBlank(value[0])
    ensures LineIs("Content-Length: " + value, "content-length", value)
    ensures (forall c :: c in value ==> c != '\r' && c != '\n') ==> NoCrlf("Content-Length: " + value)
  {
    hide Lower, NoCrlf;
    var l := "Content-Length: " + value;
    var name := "Content-Length";
    assert l[14] == ':' && l[0..14] == name && ':' !in name;
    FindChar(l, ':', 0, 14);
    assert l[..14] == name;
    LoweredName();
    assert l[15..] == " " + value;
    assert (" " + value)[1..] == value;
    assert TrimLeft(" " + value) == TrimLeft(value) == value;
    LengthLineIsOne(value);
  }

  lemma LengthLineIsOne(value: string)
    ensures (forall c :: c in value ==> c != '\r' && c != '\n') ==> NoCrlf("Content-Length: " + value)
  {
    hide NoCrlf;
    var front := "Content-Length: ";
    var l := front + value;
    if forall c :: c in value ==> c != '\r' && c != '\n' {
      forall k | 0 <= k < |l| ensures l[k] != '\r' && l[k] != '\n' {
        assert if k < |front| then l[k] == front[k] else l[k] == value[k - |front|] && value[k - |front|] in value;
      }
    }
    OneLine(l);
  }

  lemma LoweredName()
    ensures Lower("Content-Length") == "content-length"
  {
  }

  lemma OneLine(l: string)
    ensures (forall k :: 0 <= k < |l| ==> l[k] != '\r' && l[k] != '\n') ==> NoCrlf(l)
  {
  }

  const SPINNING: string := "GET / HTTP/1.1\r\nContent-Length: -39\r\n\r\n"
  const STRAY: string := "GET / HTTP/1.1\r\nContent-Length: -1\r\n\r\n"

  /** The lines of a request that states a length of -n. */
  function NegativeLines(n: nat): seq<string> { ["GET / HTTP/1.1", "Content-Length: -" + Decimal(n)] }

  lemma NegativeLinesText(n: nat)
    ensures Lines(NegativeLines(n)) == "GET / HTTP/1.1\r\nContent-Length: -" + Decimal(n) + "\r\n"
  {
    hide Decimal;
    var first, l := "GET / HTTP/1.1", "Content-Length: -" + Decimal(n);
    assert [first, l][1..] == [l] && [l][1..] == [];
    assert Lines([l]) == l + CRLF + "";
    EmptyBack(l + CRLF);
    assert first + CRLF + (l + CRLF) == "GET / HTTP/1.1\r\nContent-Length: -" + Decimal(n) + "\r\n";
  }

  lemma NegativeRequest(n: nat)
    requires 0 < n < SIZE_LIMIT
    ensures GoodLines(NegativeLines(n)) && ApplyLines(DEFAULT, NegativeLines(n)).length == SIZE_LIMIT - n
  {
    hide ApplyLine, ApplyLines, LineIs, LineNames, NoCrlf, Decimal, Strtoull, Lower;
    var first, l := "GET / HTTP/1.1", "Content-Length: -" + Decimal(n);
    NegativeLine(n);
    OneLine(first);
    LastLineDecides(DEFAULT, [first], l, [], "-" + Decimal(n));
    assert [first] + [l] + [] == NegativeLines(n);
  }

  lemma NegativeBlock(n: nat)
    requires 0 < n < 100
    ensures var ls := NegativeLines(n); var a := Lines(ls) + CRLF + ""; var block := |Lines(ls)| + 2; var r := Rx(a, true, 0);
            && (n == block ==> Reframe(r).spins)
            && (n < block ==> Look(r).Cut? && Look(r).frame.bytes == a[..block - n])
  {
    hide ApplyLines, Lines, Look, GoodLines, Decimal;
    NegativeRequest(n);
    NegativeLinesText(n);
    DecimalSize(n);
    NegativeLength(NegativeLines(n), "", n, true, 0);
  }

  lemma DecimalSize(n: nat)
    ensures n < 100 ==> |Decimal(n)| <= 2
  {
  }

  /** A request of 39 bytes that makes the loop endless. */
  lemma {:induction false} SpinningRequest()
    ensures |SPINNING| == 39 && Receive(Rx("", true, 0), SPINNING).spins
  {
    assert Decimal(39) == "39";
    hide Lines, Look, Decimal;
    NegativeBlock(39);
    NegativeLinesText(39);
    assert Lines(NegativeLines(39)) + CRLF + "" == SPINNING;
    EmptyFront(SPINNING);
  }

  /** A request of 38 bytes that is framed without its last LF, which stays behind. */
  lemma {:induction false} StrayRequest()
    ensures |STRAY| == 38
    ensures var o := Receive(Rx("", true, 0), STRAY);
            |o.frames| == 1 && o.frames[0].bytes == STRAY[..37] && o.rx.acc == "\n" && !o.spins
  {
    assert Decimal(1) == "1";
    hide Lines, Look, Decimal;
    NegativeBlock(1);
    NegativeLinesText(1);
    assert Lines(NegativeLines(1)) + CRLF + "" == STRAY;
    EmptyFront(STRAY);
    var r := Rx(STRAY, true, 0);
    CutSplits(r);
    assert STRAY[37..] == "\n";
    OneByteWaits(Look(r).rx);
  }

  lemma OneByteWaits(r: Rx)
    ensures |r.acc| < 4 ==> Reframe(r) == Framed(r, [], false)
  {
  }
}
