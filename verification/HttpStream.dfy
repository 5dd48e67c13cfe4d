/** What a request means does not depend on how `recv` cuts the stream, except between a CR and its LF. */
module HttpStream {
  import opened Bytes
  import opened Http
  import C = Chunked

  function First(c: Conn): Option<Event> {
    if c.events == [] then None else Some(c.events[0])
  }

  /** The first reaction to a stream that is in the buffer all at once. */
  function Verdict(c: Conn, s: seq<byte>): Option<Event> {
    if c.part == BodyPart then
      var t, n := c.body + s, c.req.contentLength;
      First(Deliver(c.(body := if 0 <= n <= |t| then t[..n] else t, line := [])))
    else First(Scan(c, c.line + s))
  }

  /** No NUL byte in the head: up to the blank line every line ends in CR or LF, or is still incomplete. */
  predicate Clean(s: seq<byte>)
    decreases |s|
  {
    s == [] || IsBlank(s) || Span(s) == |s| || (s[Span(s)] != 0 && Clean(s[NextLine(s)..]))
  }

  /** The CR that ends a line that is not empty comes last, and its LF comes first in what follows. */
  predicate Cuts(t: seq<byte>, b: seq<byte>) {
    && |t| >= 2 && t[|t| - 1] == C.CR && t[|t| - 2] != C.CR && t[|t| - 2] != C.LF
    && b != [] && b[0] == C.LF
  }

  function Seam(t: seq<byte>, b: seq<byte>): seq<byte> {
    if Cuts(t, b) then [C.LF] else []
  }

  lemma LineIgnores(c: Conn, line: seq<byte>, x: seq<byte>)
    requires c.open && c.part != BodyPart
    ensures Line(c.(line := x), line) == (if Line(c, line).open then Line(c, line).(line := x) else Line(c, line))
    ensures Line(c, line).open ==> Line(c, line).part == HeaderPart && Line(c, line).events == c.events
    ensures !Line(c, line).open ==> |Line(c, line).events| == |c.events| + 1
  {
    hide Text, Find, Lower, HeaderField, MethodOf;
  }

  /** What the line buffer held before does not matter to a scan of its new contents. */
  lemma {:induction false} ScanIgnores(c: Conn, s: seq<byte>, x: seq<byte>)
    requires c.open && c.part != BodyPart
    ensures Scan(c.(line := x), s) == Scan(c, s)
    decreases |s|
  {
    hide Line, Span;
    if s != [] && s[0] != 0 && !IsBlank(s) && Span(s) < |s| && s[Span(s)] != 0 {
      var line := s[..Span(s)];
      LineIgnores(c, line, x);
      var d := Line(c, line);
      if d.open { ScanIgnores(d, s[NextLine(s)..], x); }
    }
  }

  lemma EndOfHeadSplit(c: Conn, r: seq<byte>, b: seq<byte>)
    requires c.open && c.events == []
    ensures First(EndOfHead(c, r + b)) ==
            (if EndOfHead(c, r).events != [] then First(EndOfHead(c, r)) else Verdict(EndOfHead(c, r), b))
    ensures EndOfHead(c, r).events == [] ==> EndOfHead(c, r).part == BodyPart
  {
    if HasBody(c.req) && 0 < c.req.contentLength {
      var n := c.req.contentLength;
      if n <= |r| {
        assert (r + b)[..n] == r[..n];
      } else {
        assert r[..|r|] == r;
      }
    }
  }

  lemma {:induction false} SpanOf(t: seq<byte>, b: seq<byte>)
    ensures Span(t) < |t| ==> Span(t + b) == Span(t)
  {
    if t != [] && !Stops(t[0]) {
      SpanOf(t[1..], b);
      assert (t + b)[1..] == t[1..] + b;
    }
  }

  lemma NextLineOf(t: seq<byte>, u: seq<byte>)
    requires Span(t) < |t|
    ensures Span(t + u) == Span(t) && (t + u)[..Span(t)] == t[..Span(t)]
    ensures var cut := NextLine(t) == |t| == Span(t) + 1 && t[Span(t)] == C.CR && u != [] && u[0] == C.LF;
            NextLine(t + u) == if cut then |t| + 1 else NextLine(t)
  {
    SpanOf(t, u);
  }

  predicate AtHead(c: Conn) {
    c.open && c.part != BodyPart && c.events == [] && (c.part == RequestPart ==> c.req == NOTHING)
  }

  lemma EmptyLine(c: Conn)
    requires AtHead(c)
    ensures c.part == HeaderPart ==> Line(c, []) == c
    ensures c.part == RequestPart ==> Line(c, []) == Reject(c, 400) && forall r :: EndOfHead(c, r) == Reject(c, 400)
  {}

  /** A scan that comes to a reaction, or to the body, does so whatever follows. */
  lemma {:induction false} ScanPastHead(c: Conn, t: seq<byte>, u: seq<byte>)
    requires AtHead(c)
    ensures var d := Scan(c, t);
            && (d.events != [] ==> First(Scan(c, t + u)) == First(d))
            && (d.events == [] && d.part == BodyPart ==> First(Scan(c, t + u)) == Verdict(d, u))
    decreases |t|
  {
    hide Line, EndOfHead, Verdict, Span;
    if t == [] || t[0] == 0 {
    } else if IsBlank(t) {
      var k := if t[0] == C.CR then 2 else 1;
      assert (t + u)[k..] == t[k..] + u;
      EndOfHeadSplit(c, t[k..], u);
    } else if Span(t) < |t| && t[Span(t)] != 0 {
      NextLineOf(t, u);
      var line := t[..Span(t)];
      var d := Line(c, line);
      LineIgnores(c, line, []);
      EmptyLine(c);
      if d.open {
        var n := NextLine(t);
        ScanPastHead(d, t[n..], u);
        if n < |t| { assert (t + u)[n..] == t[n..] + u; }
      } else if IsBlank(t + u) {
        assert line == [];
      }
    }
  }

  /** The scan of `t` stops in the head, and with `b` to come it goes on like a scan of `t + u`. */
  predicate GoesOn(c: Conn, t: seq<byte>, u: seq<byte>, b: seq<byte>) {
    Continues(Scan(c, t), Scan(c, t + u), t, b)
  }

  predicate Continues(d: Conn, whole: Conn, t: seq<byte>, b: seq<byte>) {
    d.events == [] && d.part != BodyPart ==>
      && AtHead(d) && whole == Scan(d, d.line + b) && Clean(d.line + b)
      && |d.line| <= |t| && t[|t| - |d.line|..] == d.line
  }

  /** A scan that ends in the middle of the head goes on as if it had seen everything at once; only a CR LF that is
      cut in two, at the end of a line that is not empty, reads as CR LF LF. */
  lemma {:induction false} ScanInHead(c: Conn, t: seq<byte>, u: seq<byte>, b: seq<byte>)
    requires AtHead(c) && u == Seam(t, b) + b && Clean(t + u)
    ensures GoesOn(c, t, u, b)
    decreases |t|
  {
    hide Line, EndOfHead, Span, Verdict, GoesOn;
    if t == [] || Span(t) == |t| {
      Incomplete(c, t, u, b);
    } else if IsBlank(t) {
      Blank(c, t, u, b);
    } else {
      NextLineOf(t, u);
      var line, n := t[..Span(t)], NextLine(t);
      var d := Line(c, line);
      if d.open && n < |t| {
        LineIgnores(c, line, []);
        assert (t + u)[n..] == t[n..] + u;
        ScanInHead(d, t[n..], u, b);
        MiddleLine(c, t, u, b);
      } else if d.open {
        LastLine(c, t, u, b);
      } else {
        Rejected(c, t, u, b);
      }
    }
  }

  lemma Incomplete(c: Conn, t: seq<byte>, u: seq<byte>, b: seq<byte>)
    requires AtHead(c) && u == Seam(t, b) + b && Clean(t + u) && (t == [] || Span(t) == |t|)
    ensures GoesOn(c, t, u, b)
  {
    ScanIgnores(c, t + b, t);
    if t != [] { assert !Stops(t[|t| - 1]); }
    assert u == b && [] + b == b;
  }

  lemma Blank(c: Conn, t: seq<byte>, u: seq<byte>, b: seq<byte>)
    requires AtHead(c) && IsBlank(t)
    ensures GoesOn(c, t, u, b)
  {
    EndOfHeadSplit(c, t[if t[0] == C.CR then 2 else 1..], b);
    hide EndOfHead;
  }

  lemma Rejected(c: Conn, t: seq<byte>, u: seq<byte>, b: seq<byte>)
    requires AtHead(c) && StartsWithLine(t)
    requires !Line(c, t[..Span(t)]).open
    ensures GoesOn(c, t, u, b)
  {
    LineIgnores(c, t[..Span(t)], []);
    hide Line;
  }

  lemma MiddleLine(c: Conn, t: seq<byte>, u: seq<byte>, b: seq<byte>)
    requires AtHead(c) && StartsWithLine(t) && NextLine(t) < |t|
    requires Line(c, t[..Span(t)]).open && GoesOn(Line(c, t[..Span(t)]), t[NextLine(t)..], u, b)
    ensures GoesOn(c, t, u, b)
  {
    hide *;
    BothScan(c, t, u);
    GoesOnTail(c, Line(c, t[..Span(t)]), t, u, b, NextLine(t));
  }

  lemma BothScan(c: Conn, t: seq<byte>, u: seq<byte>)
    requires StartsWithLine(t) && NextLine(t) < |t| && Line(c, t[..Span(t)]).open
    ensures var d, n := Line(c, t[..Span(t)]), NextLine(t);
            Scan(c, t) == Scan(d, t[n..]) && Scan(c, t + u) == Scan(d, t[n..] + u)
  {
    hide *;
    LinesStart(t, u);
    ScanLine(c, t);
    ScanLine(c, t + u);
    var n := NextLine(t);
    assert (t + u)[n..] == t[n..] + u;
  }

  lemma LinesStart(t: seq<byte>, u: seq<byte>)
    requires StartsWithLine(t) && NextLine(t) < |t|
    ensures StartsWithLine(t + u) && Span(t + u) == Span(t) && NextLine(t + u) == NextLine(t)
    ensures (t + u)[..Span(t)] == t[..Span(t)]
  {
    NextLineOf(t, u);
    hide Span;
  }

  predicate StartsWithLine(s: seq<byte>) {
    s != [] && s[0] != 0 && !IsBlank(s) && Span(s) < |s| && s[Span(s)] != 0
  }

  lemma ScanLine(c: Conn, s: seq<byte>)
    requires StartsWithLine(s)
    ensures var d := Line(c, s[..Span(s)]); Scan(c, s) == if d.open then Scan(d, s[NextLine(s)..]) else d
  {
    hide Line, EndOfHead, Span, NextLine;
  }

  lemma GoesOnTail(c: Conn, d: Conn, t: seq<byte>, u: seq<byte>, b: seq<byte>, n: nat)
    requires n <= |t| && Scan(c, t) == Scan(d, t[n..]) && Scan(c, t + u) == Scan(d, t[n..] + u)
    requires GoesOn(d, t[n..], u, b)
    ensures GoesOn(c, t, u, b)
  {
    hide Scan, Verdict, Clean, AtHead;
  }

  /** The case that the text ends with a line end. */
  lemma LastLine(c: Conn, t: seq<byte>, u: seq<byte>, b: seq<byte>)
    requires AtHead(c) && u == Seam(t, b) + b && Clean(t + u)
    requires StartsWithLine(t) && NextLine(t) == |t| && Line(c, t[..Span(t)]).open
    ensures GoesOn(c, t, u, b)
  {
    hide Line, Span, Scan, Clean, NextLine;
    LineIgnores(c, t[..Span(t)], []);
    LastScan(c, t, u, b);
    ScanIgnores(Line(c, t[..Span(t)]), b, []);
    assert [] + b == b;
  }

  lemma LastScan(c: Conn, t: seq<byte>, u: seq<byte>, b: seq<byte>)
    requires AtHead(c) && u == Seam(t, b) + b && Clean(t + u)
    requires StartsWithLine(t) && NextLine(t) == |t| && Line(c, t[..Span(t)]).open
    ensures var d := Line(c, t[..Span(t)]);
            Scan(c, t) == d.(line := []) && Scan(c, t + u) == Scan(d, b) && Clean(b)
  {
    hide *;
    var d := Line(c, t[..Span(t)]);
    ScanLine(c, t);
    ScanNothing(d);
    assert t[|t|..] == [];
    LastShape(t, u, b);
    if t == [C.CR] && b != [] && b[0] == C.LF {
      LoneCr(c, b);
    } else {
      ScanLine(c, t + u);
    }
  }

  lemma ScanNothing(c: Conn)
    ensures Scan(c, []) == c.(line := [])
  {}

  /** A CR alone, and then an LF: the empty line and the blank line make a blank line. */
  lemma LoneCr(c: Conn, b: seq<byte>)
    requires AtHead(c) && b != [] && b[0] == C.LF && Line(c, []).open
    ensures Span([C.CR]) == 0 && Scan(c, [C.CR] + b) == Scan(Line(c, []), b) && Clean(b)
  {
    hide EndOfHead, RequestLine, HeaderLine;
    EmptyLine(c);
    assert ([C.CR] + b)[2..] == b[1..];
  }

  lemma LastShape(t: seq<byte>, u: seq<byte>, b: seq<byte>)
    requires u == Seam(t, b) + b && Clean(t + u) && StartsWithLine(t) && NextLine(t) == |t|
    ensures t == [C.CR] && b != [] && b[0] == C.LF ==> u == b && t[..Span(t)] == []
    ensures !(t == [C.CR] && b != [] && b[0] == C.LF) ==>
              && StartsWithLine(t + u) && Span(t + u) == Span(t) && (t + u)[..Span(t)] == t[..Span(t)]
              && (t + u)[NextLine(t + u)..] == b && Clean(b)
  {
    NextLineOf(t, u);
  }

  // The head of a stream, apart from any connection.

  /** No blank line has come yet. */
  predicate InHead(s: seq<byte>)
    decreases |s|
  {
    s == [] || (!IsBlank(s) && (Span(s) == |s| || s[Span(s)] == 0 || InHead(s[NextLine(s)..])))
  }

  /** The line that has begun and not ended. */
  function Unfinished(s: seq<byte>): seq<byte>
    decreases |s|
  {
    if s == [] || IsBlank(s) || Span(s) == |s| || s[Span(s)] == 0 then s else Unfinished(s[NextLine(s)..])
  }

  predicate EndsWith(s: seq<byte>, t: seq<byte>) {
    |t| <= |s| && s[|s| - |t|..] == t
  }

  lemma TailOfTail(s: seq<byte>, n: nat, t: seq<byte>)
    requires n <= |s| && EndsWith(s[n..], t)
    ensures EndsWith(s, t)
  {}

  lemma {:induction false} UnfinishedIsTail(s: seq<byte>)
    ensures EndsWith(s, Unfinished(s))
    decreases |s|
  {
    hide Span, NextLine, EndsWith;
    if StartsWithLine(s) {
      var n := NextLine(s);
      UnfinishedIsTail(s[n..]);
      TailOfTail(s, n, Unfinished(s[n..]));
    } else {
      WholeTail(s);
    }
  }

  lemma WholeTail(s: seq<byte>)
    ensures EndsWith(s, s)
  {}

  lemma {:induction false} CleanPrefix(t: seq<byte>, u: seq<byte>)
    requires Clean(t + u)
    ensures Clean(t)
    decreases |t|
  {
    if t != [] && !IsBlank(t) && Span(t) < |t| {
      NextLineOf(t, u);
      var n := NextLine(t);
      if n < |t| {
        assert (t + u)[n..] == t[n..] + u;
        CleanPrefix(t[n..], u);
      } else {
        assert t[n..] == [];
      }
    }
  }

  /** A scan that stops in the head stops with the unfinished line in the buffer. */
  lemma {:induction false} ScanStays(c: Conn, t: seq<byte>)
    requires AtHead(c) && Clean(t)
    ensures var d := Scan(c, t); d.events == [] && d.part != BodyPart ==> InHead(t) && d.line == Unfinished(t) && AtHead(d)
    decreases |t|
  {
    hide Line, Span, Verdict;
    if t != [] && IsBlank(t) {
      EndOfHeadSplit(c, t[if t[0] == C.CR then 2 else 1..], []);
    } else if t != [] && Span(t) < |t| {
      LineIgnores(c, t[..Span(t)], []);
      var d, n := Line(c, t[..Span(t)]), NextLine(t);
      if d.open { ScanStays(d, t[n..]); }
    }
  }

  /** What is still to come meets the unfinished line only, unless it cuts a CR LF. */
  lemma {:induction false} InHeadOn(t: seq<byte>, u: seq<byte>)
    requires InHead(t) && Clean(t + u) && !Cuts(t, u)
    ensures InHead(t + u) == InHead(Unfinished(t) + u)
    ensures InHead(t + u) ==> Unfinished(t + u) == Unfinished(Unfinished(t) + u)
    decreases |t|
  {
    hide Span;
    CleanPrefix(t, u);
    if t != [] && Span(t) < |t| {
      var n := NextLine(t);
      if n < |t| {
        LinesStart(t, u);
        assert (t + u)[n..] == t[n..] + u;
        InHeadOn(t[n..], u);
      } else {
        assert [] + u == u && t[n..] == [];
        LastShape(t, u, u);
      }
    }
  }
}
