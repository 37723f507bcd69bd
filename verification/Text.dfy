/** Byte strings as the servers see them: `find`, line ends, lower-casing, concatenation of segments. */
module Text {

  datatype Option<+T> = None | Some(value: T)

  const CRLF: string := "\r\n"
  const CRLF2: string := "\r\n\r\n"

  /** Pattern `p` occurs in `s` at position `k`. */
  ghost predicate At(s: string, p: string, k: int) {
    0 <= k && k + |p| <= |s| && s[k..k + |p|] == p
  }

  predicate CrlfAt(s: string, k: int) {
    0 <= k && k + 1 < |s| && s[k] == '\r' && s[k + 1] == '\n'
  }

  /** `std::string::find(p, i)`; `FindMeaning` says what it finds. */
  function Find(s: string, p: string, i: nat): (r: Option<nat>)
    ensures r.Some? ==> i <= r.value && r.value + |p| <= |s|
    decreases |s| - i
  {
    if i + |p| > |s| then None
    else if s[i..i + |p|] == p then Some(i)
    else Find(s, p, i + 1)
  }

  /** The answer is the least occurrence at or after `i`, and `None` when there is none. */
  lemma {:induction false} FindMeaning(s: string, p: string, i: nat)
    ensures var r := Find(s, p, i);
            (r.Some? ==> At(s, p, r.value) && forall j :: i <= j < r.value ==> !At(s, p, j))
            && (r.None? ==> forall j :: i <= j ==> !At(s, p, j))
    decreases |s| - i
  {
    if i + |p| <= |s| {
      FindMeaning(s, p, i + 1);
    }
  }

  /** The answer of `find` is the only position with its two properties. */
  lemma FindIs(s: string, p: string, i: nat, k: nat)
    requires i <= k && At(s, p, k)
    requires forall j :: i <= j < k ==> !At(s, p, j)
    ensures Find(s, p, i) == Some(k)
  {
    FindMeaning(s, p, i);
  }

  lemma FindNothing(s: string, p: string, i: nat)
    requires forall j :: i <= j ==> !At(s, p, j)
    ensures Find(s, p, i) == None
  {
    FindMeaning(s, p, i);
  }

  /** Bytes that arrive later never move a match that has been found. */
  lemma {:induction false} FindStable(s: string, t: string, p: string, i: nat)
    requires Find(s, p, i).Some?
    ensures Find(s + t, p, i) == Find(s, p, i)
    decreases |s| - i
  {
    assert (s + t)[i..i + |p|] == s[i..i + |p|];
    if s[i..i + |p|] != p {
      FindStable(s, t, p, i + 1);
    }
  }

  /** Searching behind a prefix is searching the rest, shifted. */
  lemma {:induction false} FindShift(pre: string, s: string, p: string, i: nat)
    ensures Find(pre + s, p, |pre| + i)
         == match Find(s, p, i) case None => None case Some(k) => Some(|pre| + k)
    decreases |s| - i
  {
    if i + |p| <= |s| {
      assert (pre + s)[|pre| + i..|pre| + i + |p|] == s[i..i + |p|];
      if s[i..i + |p|] != p {
        FindShift(pre, s, p, i + 1);
      }
    }
  }

  lemma CrlfPoint(s: string, k: int)
    ensures At(s, CRLF, k) <==> CrlfAt(s, k)
  {
    if 0 <= k && k + 2 <= |s| {
      var w := s[k..k + 2];
      assert w[0] == s[k] && w[1] == s[k + 1];
    }
  }

  lemma Crlf2Point(s: string, k: int)
    ensures At(s, CRLF2, k) <==> CrlfAt(s, k) && CrlfAt(s, k + 2)
  {
    if 0 <= k && k + 4 <= |s| {
      var w := s[k..k + 4];
      assert w[0] == s[k] && w[1] == s[k + 1] && w[2] == s[k + 2] && w[3] == s[k + 3];
    }
  }

  /** The first `c` at or after `i`. */
  lemma {:induction false} FindChar(s: string, c: char, i: nat, k: nat)
    requires i <= k < |s| && s[k] == c && c !in s[i..k]
    ensures Find(s, [c], i) == Some(k)
    decreases k - i
  {
    assert s[i..i + 1][0] == s[i];
    if i < k {
      assert s[i] == s[i..k][0] && s[i..k][1..] == s[i + 1..k];
      FindChar(s, c, i + 1, k);
    }
  }

  /** No `c` at or after `i`. */
  lemma {:induction false} FindNoChar(s: string, c: char, i: nat)
    requires i <= |s| && c !in s[i..]
    ensures Find(s, [c], i) == None
    decreases |s| - i
  {
    if i < |s| {
      assert s[i..i + 1][0] == s[i] == s[i..][0] && s[i..][1..] == s[i + 1..];
      FindNoChar(s, c, i + 1);
    }
  }

  lemma Assoc(a: string, b: string, c: string)
    ensures a + (b + c) == (a + b) + c
  {
  }

  lemma EmptyFront(a: string)
    ensures "" + a == a
  {
  }

  lemma EmptyBack(a: string)
    ensures a + "" == a
  {
  }

  // ---------------------------------------------------------------- lines

  /** A line that can be written in front of a line end: no line end inside it. */
  ghost predicate NoCrlf(l: string) { forall k :: !CrlfAt(l, k) }

  function Lines(ls: seq<string>): string {
    if ls == [] then "" else ls[0] + CRLF + Lines(ls[1..])
  }

  ghost predicate GoodLines(ls: seq<string>) {
    forall i :: 0 <= i < |ls| ==> NoCrlf(ls[i]) && ls[i] != ""
  }

  /** Where the line ends are after a good line has been put in front of `tail`. */
  lemma LineThen(l: string, tail: string)
    requires NoCrlf(l)
    ensures forall k :: CrlfAt(l + CRLF + tail, k)
                   <==> k == |l| || (|l| + 2 <= k && CrlfAt(tail, k - |l| - 2))
  {
    var s := l + CRLF + tail;
    forall k ensures CrlfAt(s, k) <==> k == |l| || (|l| + 2 <= k && CrlfAt(tail, k - |l| - 2)) {
      assert 0 <= k < |l| - 1 ==> (CrlfAt(s, k) <==> CrlfAt(l, k));
    }
  }

  lemma FirstCrlf(l: string, rest: string)
    requires NoCrlf(l)
    ensures Find(l + CRLF + rest, CRLF, 0) == Some(|l|)
  {
    var s := l + CRLF + rest;
    LineThen(l, rest);
    CrlfPoint(s, |l|);
    forall j | 0 <= j < |l| ensures !At(s, CRLF, j) { CrlfPoint(s, j); }
    FindIs(s, CRLF, 0, |l|);
  }

  /** `k` is the first place where a line end is followed at once by another. */
  ghost predicate FirstEmptyLine(s: string, k: int) {
    CrlfAt(s, k) && CrlfAt(s, k + 2) && forall j :: CrlfAt(s, j) && j < k ==> !CrlfAt(s, j + 2)
  }

  lemma FirstEmptyLineIsFound(s: string, k: nat)
    ensures FirstEmptyLine(s, k) <==> Find(s, CRLF2, 0) == Some(k)
  {
    Crlf2Point(s, k);
    FindMeaning(s, CRLF2, 0);
    if FirstEmptyLine(s, k) {
      forall j | 0 <= j < k ensures !At(s, CRLF2, j) { Crlf2Point(s, j); }
      FindIs(s, CRLF2, 0, k);
    } else if Find(s, CRLF2, 0) == Some(k) {
      var j :| CrlfAt(s, j) && j < k && CrlfAt(s, j + 2);
      Crlf2Point(s, j);
      assert false;
    }
  }

  /** In a block of good lines the first empty line is the one that ends the block. */
  lemma {:induction false} FirstCrlf2(ls: seq<string>, rest: string)
    requires ls != [] && GoodLines(ls)
    ensures |Lines(ls)| >= 2
    ensures Find(Lines(ls) + CRLF + rest, CRLF2, 0) == Some(|Lines(ls)| - 2)
    decreases |ls|
  {
    BlockEnd(ls, rest);
    FirstEmptyLineIsFound(Lines(ls) + CRLF + rest, |Lines(ls)| - 2);
  }

  lemma {:induction false} BlockEnd(ls: seq<string>, rest: string)
    requires ls != [] && GoodLines(ls)
    ensures |Lines(ls)| >= 2 && FirstEmptyLine(Lines(ls) + CRLF + rest, |Lines(ls)| - 2)
    decreases |ls|
  {
    var l, tl := ls[0], ls[1..];
    var tail := Lines(tl) + CRLF + rest;
    var s := l + CRLF + tail;
    assert Lines(ls) + CRLF + rest == s;
    LineThen(l, tail);
    if tl == [] {
      assert CrlfAt(tail, 0);
      assert FirstEmptyLine(s, |l|);
    } else {
      BlockEnd(tl, rest);
      var more := Lines(tl[1..]) + CRLF + rest;
      assert tail == tl[0] + CRLF + more;
      LineThen(tl[0], more);
      assert FirstEmptyLine(s, |l| + 2 + |Lines(tl)| - 2);
    }
  }

  lemma {:induction false} LinesAppend(a: seq<string>, b: seq<string>)
    ensures Lines(a + b) == Lines(a) + Lines(b)
  {
    if a == [] {
      assert a + b == b;
    } else {
      assert (a + b)[1..] == a[1..] + b;
      LinesAppend(a[1..], b);
    }
  }

  // ---------------------------------------------------------------- segments

  function Flatten(ss: seq<string>): string {
    if ss == [] then "" else ss[0] + Flatten(ss[1..])
  }

  lemma {:induction false} FlattenAppend(a: seq<string>, b: seq<string>)
    ensures Flatten(a + b) == Flatten(a) + Flatten(b)
  {
    if a == [] {
      assert a + b == b;
    } else {
      assert (a + b)[1..] == a[1..] + b;
      FlattenAppend(a[1..], b);
    }
  }

  // ---------------------------------------------------------------- letters and blanks

  function LowerChar(c: char): char {
    if 'A' <= c <= 'Z' then ((c as int) + 32) as char else c
  }

  function Lower(s: string): (r: string)
    ensures |r| == |s| && forall i :: 0 <= i < |s| ==> r[i] == LowerChar(s[i])
  {
    seq(|s|, i requires 0 <= i < |s| => LowerChar(s[i]))
  }

  predicate IsBlank(c: char) { c == ' ' || c == '\t' }

  /** `s` without its leading spaces and tabs. */
  function TrimLeft(s: string): string {
    if s != "" && IsBlank(s[0]) then TrimLeft(s[1..]) else s
  }

  const UPPER: string := "ABCDEFGHIJKLMNOPQRSTUVWXYZ"
  const LOWER: string := "abcdefghijklmnopqrstuvwxyz"

  /** The letters of the alphabet, and no other character, are exchanged for their small forms. */
  lemma LowerMeaning(c: char)
    ensures forall i :: 0 <= i < |UPPER| ==> LowerChar(UPPER[i]) == LOWER[i]
    ensures c !in UPPER ==> LowerChar(c) == c
  {
    if 'A' <= c <= 'Z' {
      assert UPPER[c as int - 65] == c;
    }
  }

  /** What is trimmed is the longest front of spaces and tabs. */
  lemma {:induction false} TrimLeftMeaning(s: string)
    ensures exists n: nat :: n <= |s| && TrimLeft(s) == s[n..] && forall k :: 0 <= k < n ==> s[k] == ' ' || s[k] == '\t'
    ensures TrimLeft(s) == "" || (TrimLeft(s)[0] != ' ' && TrimLeft(s)[0] != '\t')
  {
    if s != "" && IsBlank(s[0]) {
      TrimLeftMeaning(s[1..]);
      var n: nat :| n <= |s[1..]| && TrimLeft(s[1..]) == s[1..][n..]
                    && forall k :: 0 <= k < n ==> s[1..][k] == ' ' || s[1..][k] == '\t';
      assert s[1..][n..] == s[n + 1..];
      assert forall k :: 0 < k < n + 1 ==> s[k] == s[1..][k - 1];
    } else {
      assert s[0..] == s;
    }
  }

  /** The word "close", in any mixture of cases, stands at `k`. */
  ghost predicate CloseAt(v: string, k: int) {
    && 0 <= k && k + 5 <= |v|
    && (v[k] == 'c' || v[k] == 'C') && (v[k + 1] == 'l' || v[k + 1] == 'L') && (v[k + 2] == 'o' || v[k + 2] == 'O')
    && (v[k + 3] == 's' || v[k + 3] == 'S') && (v[k + 4] == 'e' || v[k + 4] == 'E')
  }

  ghost predicate HasClose(v: string) { exists k :: CloseAt(v, k) }

  lemma CloseHere(v: string, k: int)
    ensures At(Lower(v), "close", k) <==> CloseAt(v, k)
  {
    if 0 <= k && k + 5 <= |v| {
      var w := Lower(v)[k..k + 5];
      assert w[0] == Lower(v)[k] && w[1] == Lower(v)[k + 1] && w[2] == Lower(v)[k + 2]
             && w[3] == Lower(v)[k + 3] && w[4] == Lower(v)[k + 4];
      assert w == "close" <==> w[0] == 'c' && w[1] == 'l' && w[2] == 'o' && w[3] == 's' && w[4] == 'e';
    }
  }

  /** The search in the lower-cased value finds exactly the word in any mixture of cases. */
  lemma CloseIsFound(v: string)
    ensures Find(Lower(v), "close", 0).Some? <==> HasClose(v)
  {
    FindMeaning(Lower(v), "close", 0);
    forall k ensures At(Lower(v), "close", k) <==> CloseAt(v, k) { CloseHere(v, k); }
    if HasClose(v) {
      var k :| CloseAt(v, k);
      assert At(Lower(v), "close", k);
    }
  }
}
