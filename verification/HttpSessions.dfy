/** Whole connections: what becomes of each request, of what follows it, and of a stream that ends too early. */
module HttpSessions {
  import opened Bytes
  import opened Http
  import opened HttpStream
  import opened HttpRuns
  import opened HttpMessages
  import opened HttpConnection
  import C = Chunked

  // Heads as text.

  /** The parts of a head; `length` is its last `Content-Length`, if there is one: how the name is written, and the number. */
  datatype Head = Head(name: seq<byte>, target: seq<byte>, version: byte, before: seq<seq<byte>>,
                       length: Option<(seq<byte>, int)>, after: seq<seq<byte>>)

  function Opening(h: Head): seq<byte> {
    RequestText(h.name, h.target, h.version)
  }

  function Headers(h: Head): seq<seq<byte>> {
    h.before + (if h.length.Some? then [LengthLine(h.length.value.0, h.length.value.1)] else []) + h.after
  }

  function HeadBytes(h: Head): seq<byte> {
    Render([Opening(h)] + Headers(h)) + C.CRLF
  }

  function Announced(h: Head): int {
    if h.length.Some? then h.length.value.1 else 0
  }

  function Verb(h: Head): Method {
    if VerbOf(h.name) == NoMethod then OTHER else VerbOf(h.name)
  }

  /** The request line is accepted, no line is empty or holds a line end, and the length line is the last of its kind. */
  predicate Proper(h: Head) {
    && SPACE !in h.name && |h.name| + |h.target| >= 4 && (VerbOf(h.name) != NoMethod || |h.name| <= 1006)
    && Plain(Opening(h)) && (forall i | 0 <= i < |Headers(h)| :: Plain(Headers(h)[i]))
    && (h.length.Some? ==> COLON !in h.length.value.0 && Lower(h.length.value.0) == Text("content-length"))
    && (h.length.None? ==> !SomeNamed(h.before, "content-length")) && !SomeNamed(h.after, "content-length")
  }

  /** HTTP/1.0 needs no `Host` line. */
  predicate Hosted(h: Head) {
    h.version == 48 || SomeNamed(Headers(h), "host")
  }

  /** HTTP/1.0, or a line that asks for it. */
  predicate Closing(h: Head) {
    h.version == 48 || SomeAsksToClose(Headers(h))
  }

  /** The request is handed on with what its head says and this body. */
  predicate Carries(e: Event, h: Head, body: Option<seq<byte>>) {
    && e.Handed? && e.body == body
    && e.req.path == Some(h.target) && e.req.verb == Verb(h) && e.req.attr.http10 == (h.version == 48)
    && (e.req.attr.close <==> SomeAsksToClose(Headers(h)))
    && e.recorded == Text("Request-Method: ") + h.name + [C.LF] + Recorded(Headers(h))
  }

  /** The connection at the end of the head. */
  function AfterHead(h: Head): Conn {
    Lines(Fresh([], []), [Opening(h)] + Headers(h))
  }

  lemma OpeningParsed(h: Head)
    requires Proper(h)
    ensures var c := Line(Fresh([], []), Opening(h));
            && c.open && c.part == HeaderPart && c.events == [] && c.req.path == Some(h.target) && c.req.verb == Verb(h)
            && c.req.attr == Attr(false, false, h.version == 48, false, false, false, false) && c.req.contentLength == 0
            && c.recorded == Text("Request-Method: ") + h.name + [C.LF]
  {
    KnownIsShort(h.name);
    hide RequestText, Text, VerbOf, Line, Plain;
    RequestLineParsed(h.name, h.target, h.version);
    LineIgnores(Fresh([], []), Opening(h), []);
    OpeningRest(Opening(h));
    hide Proper;
  }

  lemma KnownIsShort(name: seq<byte>)
    ensures VerbOf(name) != NoMethod ==> |name| <= 6
  {}

  /** A request line sets nothing else. */
  lemma OpeningRest(line: seq<byte>)
    ensures var c := Line(Fresh([], []), line);
            c.open ==> c.req.attr == Attr(false, false, c.req.attr.http10, false, false, false, false) && c.req.contentLength == 0
  {
    hide Text, Find, MethodOf;
  }

  lemma HeadersParsed(h: Head)
    requires Proper(h)
    ensures var c := AfterHead(h);
            && c.open && c.part == HeaderPart && c.req.verb == Verb(h) && c.req.attr.http10 == (h.version == 48)
            && (c.req.attr.host <==> SomeNamed(Headers(h), "host"))
            && (c.req.attr.close <==> SomeAsksToClose(Headers(h)))
            && c.req.attr.length == h.length.Some? && c.req.contentLength == Announced(h)
  {
    hide *;
    var c := Line(Fresh([], []), Opening(h));
    OpeningParsed(h);
    FirstLine(Opening(h), Headers(h));
    HeadIs(h);
    if h.length.Some? {
      LengthOfHead(c, h.before, h.length.value.0, h.length.value.1, h.after);
    } else {
      NamedParts(h.before, [], "content-length");
      NamedParts(h.before + [], h.after, "content-length");
      NothingNamed("content-length");
      LinesEffect(c, Headers(h));
    }
  }

  lemma HeadIs(h: Head)
    requires Proper(h)
    ensures AfterHead(h) == Lines(Fresh([], []), [Opening(h)] + Headers(h))
    ensures h.length.None? ==> Headers(h) == h.before + [] + h.after && !SomeNamed(h.before, "content-length") && Announced(h) == 0
    ensures h.length.Some? ==> Headers(h) == h.before + [LengthLine(h.length.value.0, Announced(h))] + h.after
                               && Announced(h) == h.length.value.1
                               && COLON !in h.length.value.0 && Lower(h.length.value.0) == Text("content-length")
    ensures !SomeNamed(h.after, "content-length")
  {}

  lemma NothingNamed(name: string)
    ensures !SomeNamed([], name)
  {}

  /** The whole head, its recorded lines, and what the scan makes of the rest. */
  lemma HeadScanned(h: Head, rest: seq<byte>)
    requires Proper(h)
    ensures var c := AfterHead(h);
            && AtHead(c) && c.req.path == Some(h.target)
            && c.recorded == Text("Request-Method: ") + h.name + [C.LF] + Recorded(Headers(h))
            && Scan(Fresh([], []), HeadBytes(h) + rest) == EndOfHead(c, rest)
  {
    hide *;
    var c0, lines := Fresh([], []), [Opening(h)] + Headers(h);
    ProperLines(h);
    OpeningParsed(h);
    FirstLine(Opening(h), Headers(h));
    AtStart([]);
    ScanLines(c0, lines, C.CRLF + rest);
    LinesRecorded(Line(c0, Opening(h)), Headers(h));
    LinesKeepPath(Line(c0, Opening(h)), Headers(h));
    BlankLine(AfterHead(h), rest);
    Assoc(Render(lines), C.CRLF, rest);
  }

  lemma ProperLines(h: Head)
    requires Proper(h)
    ensures var lines := [Opening(h)] + Headers(h);
            AfterHead(h) == Lines(Fresh([], []), lines) && HeadBytes(h) == Render(lines) + C.CRLF
            && (forall i | 0 <= i < |lines| :: Plain(lines[i])) && (forall i | 0 <= i < |Headers(h)| :: Plain(Headers(h)[i]))
  {
    hide Lines, Render, Plain;
  }

  lemma BlankLine(c: Conn, rest: seq<byte>)
    ensures Scan(c, C.CRLF + rest) == EndOfHead(c, rest)
  {
    assert (C.CRLF + rest)[2..] == rest;
    hide EndOfHead;
  }

  /** What a connection does with a request that arrives in one piece with `rest` behind it: it is refused without a host,
      with a length that is negative or beyond the limit, or with a body for GET and HEAD; it is handed on without a body,
      and then `rest` begins the next request; or it is handed on with its body, and then anything left over closes the
      connection; or its body has begun. */
  lemma RequestInOnePiece(h: Head, rest: seq<byte>)
    requires Proper(h)
    ensures var d, n := Step(Fresh([], []), Data(HeadBytes(h) + rest)), Announced(h);
            if !Hosted(h) then d == Shut([Answered(400)])
            else if n < 0 || n > 2147483640 then d == Shut([Answered(413)])
            else if n > 0 && Verb(h) in {GET, HEAD} then d == Shut([Answered(400)])
            else if n == 0 then
              |d.events| == 1 && Carries(d.events[0], h, None) && d == if Closing(h) then Shut(d.events) else Fresh(rest, d.events)
            else if n <= |rest| then
              && |d.events| == 1 && Carries(d.events[0], h, Some(rest[..n]))
              && d == if Closing(h) || n < |rest| then Shut(d.events) else Fresh([], d.events)
            else
              && d == AfterHead(h).(part := BodyPart, body := rest, line := [])
              && d.req.contentLength == n && Carries(Handed(d.req, d.recorded, Some(rest)), h, Some(rest))
  {
    hide Scan, Proper, HeadBytes, AfterHead, SomeNamed, SomeAsksToClose, Recorded, Headers, Text;
    assert [] + (HeadBytes(h) + rest) == HeadBytes(h) + rest;
    HeadScanned(h, rest);
    HeadersParsed(h);
    if Announced(h) > |rest| { assert rest[..|rest|] == rest && rest[..0] == []; }
  }

  // The same in pieces.

  /** All the pieces, as long as the connection is open. */
  function Steps(c: Conn, cs: seq<seq<byte>>): Conn
    decreases |cs|
  {
    if cs == [] || !c.open then c else Steps(Step(c, Data(cs[0])), cs[1..])
  }

  function Datas(cs: seq<seq<byte>>): seq<Recv> {
    if cs == [] then [] else [Data(cs[0])] + Datas(cs[1..])
  }

  /** Nothing has happened yet, or a request has been handed on and nothing is left over. */
  predicate Settled(c: Conn) {
    c.events == [] || (c.open && c.line == [])
  }

  /** The body that is expected is not exceeded. */
  predicate Fits(c: Conn, s: seq<byte>) {
    c.part == BodyPart ==> |c.body| + |s| <= c.req.contentLength
  }

  lemma HeadEndSplit(c: Conn, r: seq<byte>, b: seq<byte>)
    requires AtHead(c) && b != [] && Settled(EndOfHead(c, r + b))
    ensures var d := EndOfHead(c, r);
            d.events == [] && d.part == BodyPart && d.open && EndOfHead(c, r + b) == Step(d, Data(b)) && Fits(d, b)
  {
    assert r[..|r|] == r && (r + b)[..|r + b|] == r + b;
  }

  /** A scan that leaves the head before `b` is through with nothing that `b` would change. */
  lemma {:induction false} LeavesHead(c: Conn, t: seq<byte>, b: seq<byte>)
    requires AtHead(c) && b != [] && Settled(Scan(c, t + b))
    ensures var d := Scan(c, t);
            d.events != [] || d.part == BodyPart ==>
              d.events == [] && d.open && Scan(c, t + b) == Step(d, Data(b)) && Fits(d, b)
    decreases |t|
  {
    hide Line, EndOfHead, Step, Span, Settled, Fits;
    if t == [] || t[0] == 0 {
    } else if IsBlank(t) {
      var k := if t[0] == C.CR then 2 else 1;
      assert (t + b)[k..] == t[k..] + b;
      HeadEndSplit(c, t[k..], b);
    } else if Span(t) < |t| && t[Span(t)] != 0 {
      NextLineOf(t, b);
      LineIgnores(c, t[..Span(t)], []);
      EmptyLine(c);
      var d, n := Line(c, t[..Span(t)]), NextLine(t);
      if d.open && n < |t| {
        LinesStart(t, b);
        assert (t + b)[n..] == t[n..] + b;
        LeavesHead(d, t[n..], b);
      } else if !d.open {
        RefusedIsShut(c, t[..Span(t)]);
        NotSettled(d);
      }
    }
  }

  lemma NotSettled(d: Conn)
    requires !d.open && d.events != []
    ensures !Settled(d)
  {}

  lemma RefusedIsShut(c: Conn, line: seq<byte>)
    requires AtHead(c) && !Line(c, line).open
    ensures c.part == RequestPart && Line(c, line).events != []
  {
    hide Text, Find, HeaderField, MethodOf;
  }

  /** One piece, with `b` to come. */
  lemma PieceOn(c: Conn, a: seq<byte>, seen: seq<byte>, b: seq<byte>)
    requires Waiting(c) && Possible(c, Data(a)) && b != [] && Settled(Step(c, Data(a + b))) && Fits(c, a + b)
    requires c.part != BodyPart ==>
               && c.line == Unfinished(seen) && InHead(seen) && !Cuts(seen, a + b) && Clean(seen + a + b)
               && (InHead(seen + a) ==> !Cuts(seen + a, b))
    ensures var d := Step(c, Data(a));
            && Waiting(d) && Step(c, Data(a + b)) == Step(d, Data(b)) && Fits(d, b)
            && (d.part != BodyPart ==> c.part != BodyPart && d.line == Unfinished(seen + a) && InHead(seen + a))
  {
    hide Scan, Deliver, InHead, Unfinished, Clean, Cuts;
    var d := Step(c, Data(a));
    StepOpen(c, Data(a));
    if c.part == BodyPart {
      BodyOn(c, a, b);
    } else {
      CleanPrefix(seen + a, b);
      HeadSeen(c, a, seen, b);
      HeadOn(c, a, seen, b);
    }
  }

  lemma BodyOn(c: Conn, a: seq<byte>, b: seq<byte>)
    requires Waiting(c) && c.part == BodyPart && b != [] && Fits(c, a + b)
    ensures var d := Step(c, Data(a));
            d.events == [] && d.part == BodyPart && Step(c, Data(a + b)) == Step(d, Data(b)) && Fits(d, b)
  {
    Assoc(c.body, a, b);
  }

  lemma HeadOn(c: Conn, a: seq<byte>, seen: seq<byte>, b: seq<byte>)
    requires Waiting(c) && c.part != BodyPart && b != [] && Settled(Step(c, Data(a + b)))
    requires c.line == Unfinished(seen) && InHead(seen) && !Cuts(seen, a + b) && Clean(seen + a + b)
    requires var d := Step(c, Data(a));
             (d.events == [] && d.part != BodyPart ==> !Cuts(c.line + a, b))
    ensures var d := Step(c, Data(a));
            d.events == [] && Step(c, Data(a + b)) == Step(d, Data(b)) && Fits(d, b)
  {
    hide Scan, Deliver, InHead, Unfinished, Clean, Cuts, Settled;
    var t, d := c.line + a, Step(c, Data(a));
    Assoc(c.line, a, b);
    LeavesHead(c, t, b);
    if d.events == [] && d.part != BodyPart {
      Assoc(seen, a, b);
      CleanTail(seen, a + b);
      assert [] + b == b;
      ScanInHead(c, t, b, b);
    }
  }

  lemma FeasibleFirst(c: Conn, cs: seq<seq<byte>>, more: seq<Recv>)
    requires cs != [] && c.open && Possible(c, Data(cs[0]))
    requires Feasible(Step(c, Data(cs[0])), Datas(cs[1..]) + more)
    ensures Feasible(c, Datas(cs) + more)
  {
    hide Step, Possible;
    assert (Datas(cs) + more)[0] == Data(cs[0]) && (Datas(cs) + more)[1..] == Datas(cs[1..]) + more;
  }

  /** However a stream is cut, if it leaves nothing over, all its pieces together do what it does at once, and what
      follows can be received if it can be received then. */
  lemma {:induction false} StepsAreOne(c: Conn, cs: seq<seq<byte>>, seen: seq<byte>, more: seq<Recv>)
    requires Waiting(c) && Deliverable(c, cs) && cs != [] && NoCut(seen, cs)
    requires c.part != BodyPart ==>
               c.line == Unfinished(seen) && InHead(seen) && !Cuts(seen, Concat(cs)) && Clean(seen + Concat(cs))
    requires (forall i | 0 <= i < |cs| :: cs[i] != []) && Settled(Step(c, Data(Concat(cs)))) && Fits(c, Concat(cs))
    ensures Steps(c, cs) == Step(c, Data(Concat(cs)))
    ensures Feasible(Steps(c, cs), more) ==> Feasible(c, Datas(cs) + more)
    decreases |cs|
  {
    hide Step, Possible, Feasible, InHead, Unfinished, Clean, Cuts, Settled, Fits;
    var a, b := cs[0], Concat(cs[1..]);
    if cs[1..] == [] {
      assert a + [] == a;
      assert Steps(Step(c, Data(a)), []) == Step(c, Data(a));
      assert Datas(cs[1..]) + more == more;
    } else {
      assert b != [] by { assert cs[1..][0] == cs[1]; }
      Assoc(seen, a, b);
      PieceOn(c, a, seen, b);
      StepsAreOne(Step(c, Data(a)), cs[1..], seen + a, more);
    }
    if Feasible(Steps(c, cs), more) { FeasibleFirst(c, cs, more); }
  }

  // The whole connection.

  lemma DatasFirst(cs: seq<seq<byte>>, more: seq<Recv>)
    requires cs != []
    ensures Datas(cs) + more == [Data(cs[0])] + (Datas(cs[1..]) + more)
  {}

  lemma RunFirst(c: Conn, r: Recv, more: seq<Recv>)
    requires c.open
    ensures Run(c, [r] + more) == Run(Step(c, r), more)
  {
    hide Step;
    assert ([r] + more)[1..] == more;
  }

  lemma {:induction false} RunSteps(c: Conn, cs: seq<seq<byte>>, more: seq<Recv>)
    ensures Run(c, Datas(cs) + more) == Run(Steps(c, cs), more)
    decreases |cs|
  {
    if cs == [] {
      assert Datas(cs) + more == more;
    } else if c.open {
      hide Step, Run, Datas;
      DatasFirst(cs, more);
      RunFirst(c, Data(cs[0]), Datas(cs[1..]) + more);
      RunSteps(Step(c, Data(cs[0])), cs[1..], more);
    }
  }

  /** The connection with these events before its own. */
  function Behind(es: seq<Event>, c: Conn): Conn {
    c.(events := es + c.events)
  }

  lemma LineBehind(es: seq<Event>, c: Conn, line: seq<byte>)
    ensures Line(Behind(es, c), line) == Behind(es, Line(c, line))
  {
    hide Text, Find, HeaderField, MethodOf, Lower;
    Assoc(es, c.events, [Answered(400)]);
    Assoc(es, c.events, [Answered(501)]);
  }

  lemma DeliverBehind(es: seq<Event>, c: Conn)
    ensures Deliver(Behind(es, c)) == Behind(es, Deliver(c))
  {
    Assoc(es, c.events, [Handed(c.req, c.recorded, Some(c.body))]);
  }

  lemma HeadEndBehind(es: seq<Event>, c: Conn, rest: seq<byte>)
    ensures EndOfHead(Behind(es, c), rest) == Behind(es, EndOfHead(c, rest))
  {
    hide Deliver;
    Assoc(es, c.events, [Answered(400)]);
    Assoc(es, c.events, [Answered(413)]);
    Assoc(es, c.events, [Handed(c.req, c.recorded, None)]);
    if 0 < c.req.contentLength {
      var k := if c.req.contentLength < |rest| then c.req.contentLength else |rest|;
      DeliverBehind(es, c.(part := BodyPart, body := rest[..k], line := rest[..|rest| - k]));
    }
  }

  lemma {:induction false} ScanBehind(es: seq<Event>, c: Conn, s: seq<byte>)
    ensures Scan(Behind(es, c), s) == Behind(es, Scan(c, s))
    decreases |s|
  {
    hide Line, EndOfHead, Span, NextLine;
    if s == [] || s[0] == 0 {
    } else if IsBlank(s) {
      HeadEndBehind(es, c, s[if s[0] == C.CR then 2 else 1..]);
    } else if Span(s) < |s| && s[Span(s)] != 0 {
      LineBehind(es, c, s[..Span(s)]);
      var d := Line(c, s[..Span(s)]);
      if d.open { ScanBehind(es, d, s[NextLine(s)..]); }
    }
  }

  /** What went before on a connection does not matter to what follows. */
  lemma StepBehind(es: seq<Event>, c: Conn, r: Recv)
    ensures Step(Behind(es, c), r) == Behind(es, Step(c, r))
  {
    hide Scan, Deliver;
    match r
    case Failed =>
    case Ended =>
      Assoc(es, c.events, [Handed(c.req, c.recorded, Some(c.body))]);
      Assoc(es, c.events, [Handed(c.req, c.recorded, None)]);
    case Data(bytes) =>
      if c.part == BodyPart { DeliverBehind(es, c.(body := c.body + bytes, line := [])); }
      else { ScanBehind(es, c, c.line + bytes); }
  }

  lemma {:induction false} RunBehind(es: seq<Event>, c: Conn, script: seq<Recv>)
    ensures Run(Behind(es, c), script) == Behind(es, Run(c, script))
    decreases |script|
  {
    hide Step;
    if c.open {
      StepBehind(es, c, if script == [] then Ended else script[0]);
      if script != [] { RunBehind(es, Step(c, script[0]), script[1..]); }
    }
  }

  lemma {:induction false} FeasibleBehind(es: seq<Event>, c: Conn, script: seq<Recv>)
    ensures Feasible(Behind(es, c), script) == Feasible(c, script)
    decreases |script|
  {
    hide Step;
    if script != [] && c.open {
      StepBehind(es, c, script[0]);
      FeasibleBehind(es, Step(c, script[0]), script[1..]);
    }
  }

  // How connections end.

  predicate Last(e: Event) {
    e.Answered? || Closes(e.req)
  }

  /** At most one thing happens at a time, and after the last one the connection is closed. */
  predicate EndsRightly(d: Conn) {
    d.events != [] ==> d == Shut(d.events) || (!Last(d.events[0]) && d.open)
  }

  lemma {:induction false} ScanEnds(c: Conn, s: seq<byte>)
    requires AtHead(c)
    ensures EndsRightly(Scan(c, s)) && |Scan(c, s).events| <= 1
    decreases |s|
  {
    hide Line, Span, NextLine;
    if s != [] && s[0] != 0 && !IsBlank(s) && Span(s) < |s| && s[Span(s)] != 0 {
      var line := s[..Span(s)];
      LineIgnores(c, line, []);
      var d := Line(c, line);
      if d.open { ScanEnds(d, s[NextLine(s)..]); } else { RefusedIs(c, line); }
    }
  }

  lemma RefusedIs(c: Conn, line: seq<byte>)
    requires AtHead(c) && !Line(c, line).open
    ensures Line(c, line) == Shut(Line(c, line).events)
  {
    hide Text, Find, HeaderField, MethodOf;
  }

  lemma StepEnds(c: Conn, a: seq<byte>)
    requires Waiting(c)
    ensures EndsRightly(Step(c, Data(a))) && |Step(c, Data(a)).events| <= 1
  {
    hide Scan;
    if c.part != BodyPart { ScanEnds(c, c.line + a); }
  }

  /** When the first reaction is a refusal, or a request that closes, it is all that ever happens. */
  lemma {:induction false} ReactionEnds(c: Conn, cs: seq<seq<byte>>, more: seq<Recv>)
    requires Waiting(c) && Deliverable(c, cs) && Reaction(c, cs).Some? && Last(Reaction(c, cs).value)
    ensures Run(c, Datas(cs) + more) == Shut([Reaction(c, cs).value]) && Feasible(c, Datas(cs) + more)
    decreases |cs|
  {
    hide Step, Possible, Run, Feasible, Datas;
    var d, rest := Step(c, Data(cs[0])), Datas(cs[1..]) + more;
    DatasFirst(cs, more);
    RunFirst(c, Data(cs[0]), rest);
    StepEnds(c, cs[0]);
    if d.events == [] {
      StepOpen(c, Data(cs[0]));
      ReactionEnds(d, cs[1..], more);
    } else {
      assert d.events == [d.events[0]];
      ShutStays(d.events, rest);
    }
    FeasibleFirst(c, cs, more);
  }

  lemma ShutStays(es: seq<Event>, script: seq<Recv>)
    ensures Run(Shut(es), script) == Shut(es) && Feasible(Shut(es), script)
  {}

  // The theorems.

  /** The pieces in which this stream arrives: none is empty, each is one `recv` could return, and each CR of the head
      stays with its LF. */
  predicate Arrives(cs: seq<seq<byte>>, s: seq<byte>) {
    && cs != [] && (forall i | 0 <= i < |cs| :: cs[i] != [])
    && Concat(cs) == s && Deliverable(Fresh([], []), cs) && NoCut([], cs)
  }

  lemma ArrivingSteps(cs: seq<seq<byte>>, s: seq<byte>, more: seq<Recv>)
    requires Arrives(cs, s) && Clean(s) && Settled(Step(Fresh([], []), Data(s)))
    ensures Steps(Fresh([], []), cs) == Step(Fresh([], []), Data(s))
    ensures Feasible(Steps(Fresh([], []), cs), more) ==> Feasible(Fresh([], []), Datas(cs) + more)
  {
    hide Step, Feasible, Deliverable, Clean, NoCut, Settled;
    assert [] + s == s;
    NothingSeen(s);
    StepsAreOne(Fresh([], []), cs, [], more);
  }

  lemma NothingSeen(s: seq<byte>)
    ensures Unfinished([]) == [] && InHead([]) && !Cuts([], s)
  {}

  lemma HeadClean(h: Head, rest: seq<byte>)
    requires Proper(h)
    ensures Clean(HeadBytes(h) + rest)
  {
    hide *;
    ProperLines(h);
    RenderClean([Opening(h)] + Headers(h), rest);
    Assoc(Render([Opening(h)] + Headers(h)), C.CRLF, rest);
  }

  /** A request with its whole body, which the server takes. */
  predicate Complete(h: Head, body: seq<byte>) {
    && Proper(h) && Hosted(h) && Announced(h) == |body| <= 2147483640
    && (body != [] ==> Verb(h) !in {GET, HEAD})
  }

  function BodyOf(body: seq<byte>): Option<seq<byte>> {
    if body == [] then None else Some(body)
  }

  /** A request of a connection that is kept is handed on, however it is cut, and the connection is as new. */
  lemma KeptHoweverCut(h: Head, body: seq<byte>, cs: seq<seq<byte>>, more: seq<Recv>) returns (e: Event)
    requires Complete(h, body) && !Closing(h) && Arrives(cs, HeadBytes(h) + body)
    ensures Carries(e, h, BodyOf(body)) && Steps(Fresh([], []), cs) == Fresh([], [e])
    ensures Feasible(Fresh([], [e]), more) ==> Feasible(Fresh([], []), Datas(cs) + more)
  {
    hide Feasible, Step, Arrives, Clean, Proper, HeadBytes, Carries, Hosted, Closing, Verb;
    RequestInOnePiece(h, body);
    HeadClean(h, body);
    assert body[..|body|] == body;
    ArrivingSteps(cs, HeadBytes(h) + body, more);
    e := Step(Fresh([], []), Data(HeadBytes(h) + body)).events[0];
    assert [e] == Step(Fresh([], []), Data(HeadBytes(h) + body)).events;
  }

  /** After a request that closes the connection nothing more is handed on, whatever follows. */
  lemma ClosedHoweverCut(h: Head, body: seq<byte>, cs: seq<seq<byte>>, more: seq<Recv>) returns (e: Event)
    requires Complete(h, body) && Closing(h) && Arrives(cs, HeadBytes(h) + body)
    ensures Carries(e, h, BodyOf(body)) && Run(Fresh([], []), Datas(cs) + more) == Shut([e])
    ensures Feasible(Fresh([], []), Datas(cs) + more)
  {
    hide Feasible, Step, Deliverable, NoCut, Clean, Proper, HeadBytes, Hosted, Headers, Recorded, SomeAsksToClose, Text, Verb, Run;
    RequestInOnePiece(h, body);
    HeadClean(h, body);
    assert body[..|body|] == body;
    e := Step(Fresh([], []), Data(HeadBytes(h) + body)).events[0];
    FirstReaction(cs, HeadBytes(h) + body);
    ReactionEnds(Fresh([], []), cs, more);
  }

  lemma FirstReaction(cs: seq<seq<byte>>, s: seq<byte>)
    requires Arrives(cs, s) && Clean(s)
    ensures Deliverable(Fresh([], []), cs) && Waiting(Fresh([], []))
    ensures Reaction(Fresh([], []), cs) == First(Step(Fresh([], []), Data(s)))
  {
    hide Scan, Deliverable, Clean, NoCut;
    SameForEveryCut(Fresh([], []), cs, cs);
  }

  /** A head that is refused is answered, however it is cut and whatever follows it, and nothing is ever handed on: 400
      without a host, 413 for a length that is negative or beyond the limit, 400 for GET and HEAD with a body. */
  lemma RefusedHoweverCut(h: Head, rest: seq<byte>, cs: seq<seq<byte>>, more: seq<Recv>)
    requires Proper(h) && Arrives(cs, HeadBytes(h) + rest)
    requires !Hosted(h) || !(0 <= Announced(h) <= 2147483640) || (Announced(h) > 0 && Verb(h) in {GET, HEAD})
    ensures var code := if Hosted(h) && !(0 <= Announced(h) <= 2147483640) then 413 else 400;
            Run(Fresh([], []), Datas(cs) + more) == Shut([Answered(code)])
  {
    hide Step, Deliverable, NoCut, Clean, Proper, HeadBytes, Hosted, Carries, Verb, Run;
    RequestInOnePiece(h, rest);
    HeadClean(h, rest);
    FirstReaction(cs, HeadBytes(h) + rest);
    ReactionEnds(Fresh([], []), cs, more);
  }

  datatype Message = Message(head: Head, body: seq<byte>, pieces: seq<seq<byte>>)

  function Script(rs: seq<Message>): seq<Recv> {
    if rs == [] then [] else Datas(rs[0].pieces) + Script(rs[1..])
  }

  predicate Sent(r: Message) {
    Complete(r.head, r.body) && Arrives(r.pieces, HeadBytes(r.head) + r.body)
  }

  predicate AllCarried(es: seq<Event>, rs: seq<Message>) {
    |es| == |rs| && forall i | 0 <= i < |rs| :: Carries(es[i], rs[i].head, BodyOf(rs[i].body))
  }

  lemma KeptThen(e: Event, cs: seq<seq<byte>>, rest: seq<Recv>)
    requires Steps(Fresh([], []), cs) == Fresh([], [e])
    ensures Run(Fresh([], []), Datas(cs) + rest) == Behind([e], Run(Fresh([], []), rest))
    ensures Feasible(Fresh([], [e]), rest) == Feasible(Fresh([], []), rest)
  {
    hide *;
    RunSteps(Fresh([], []), cs, rest);
    FreshBehind(e);
    RunBehind([e], Fresh([], []), rest);
    FeasibleBehind([e], Fresh([], []), rest);
  }

  lemma OneMoreCarried(e: Event, later: seq<Event>, rs: seq<Message>)
    requires rs != [] && Carries(e, rs[0].head, BodyOf(rs[0].body)) && AllCarried(later, rs[1..])
    ensures AllCarried([e] + later, rs)
  {
    hide Carries;
    forall i | 0 <= i < |rs| ensures Carries(([e] + later)[i], rs[i].head, BodyOf(rs[i].body)) {
      if i > 0 { assert rs[1..][i - 1] == rs[i]; }
    }
  }

  lemma NoneCarried()
    ensures AllCarried([], [])
  {}

  /** Requests on one connection, each in pieces of its own: exactly these are handed on, in order, as long as none but the
      last closes the connection; what follows a last one that does is not handed on, and otherwise it finds the
      connection as new. */
  lemma {:induction false} Conversation(rs: seq<Message>, more: seq<Recv>) returns (es: seq<Event>)
    requires forall i | 0 <= i < |rs| :: Sent(rs[i]) && (i < |rs| - 1 ==> !Closing(rs[i].head))
    ensures AllCarried(es, rs)
    ensures Run(Fresh([], []), Script(rs) + more) ==
            if rs != [] && Closing(rs[|rs| - 1].head) then Shut(es) else Behind(es, Run(Fresh([], []), more))
    ensures Feasible(Fresh([], []), more) ==> Feasible(Fresh([], []), Script(rs) + more)
    decreases |rs|
  {
    hide *;
    es := [];
    NoneCarried();
    ScriptFirst(rs, more);
    if rs == [] {
      BehindNothing(Run(Fresh([], []), more));
    } else {
      var rest := Script(rs[1..]) + more;
      if Closing(rs[0].head) {
        var e := LastSent(rs[0], rest);
        es := [e];
        assert |rs| == 1 && rs[1..] == [] && [e] + [] == [e];
        OneMoreCarried(e, [], rs);
      } else {
        var e := KeptSent(rs[0], rest);
        var later := Conversation(rs[1..], more);
        es := [e] + later;
        OneMoreCarried(e, later, rs);
        BehindTwice(e, later, Run(Fresh([], []), more));
      }
    }
  }

  lemma ScriptFirst(rs: seq<Message>, more: seq<Recv>)
    ensures rs == [] ==> Script(rs) + more == more
    ensures rs != [] ==> Script(rs) + more == Datas(rs[0].pieces) + (Script(rs[1..]) + more)
  {
    if rs != [] { Assoc(Datas(rs[0].pieces), Script(rs[1..]), more); }
  }

  lemma LastSent(r: Message, rest: seq<Recv>) returns (e: Event)
    requires Sent(r) && Closing(r.head)
    ensures Carries(e, r.head, BodyOf(r.body)) && Run(Fresh([], []), Datas(r.pieces) + rest) == Shut([e])
    ensures Feasible(Fresh([], []), Datas(r.pieces) + rest)
  {
    hide Complete, Closing, Carries, Run, Feasible, Arrives;
    e := ClosedHoweverCut(r.head, r.body, r.pieces, rest);
  }

  lemma KeptSent(r: Message, rest: seq<Recv>) returns (e: Event)
    requires Sent(r) && !Closing(r.head)
    ensures Carries(e, r.head, BodyOf(r.body))
    ensures Run(Fresh([], []), Datas(r.pieces) + rest) == Behind([e], Run(Fresh([], []), rest))
    ensures Feasible(Fresh([], []), rest) ==> Feasible(Fresh([], []), Datas(r.pieces) + rest)
  {
    hide Complete, Closing, Carries, Run, Feasible, Arrives, Steps, Behind;
    e := KeptHoweverCut(r.head, r.body, r.pieces, rest);
    KeptThen(e, r.pieces, rest);
  }

  /** The server itself: what it hands on in such a conversation is what was sent. */
  method ServeConversation(rs: seq<Message>) returns (events: seq<Event>)
    requires forall i | 0 <= i < |rs| :: Sent(rs[i]) && (i < |rs| - 1 ==> !Closing(rs[i].head))
    ensures AllCarried(events, rs)
  {
    hide Step, Sent, Closing, AllCarried;
    ghost var es := Conversation(rs, []);
    assert Script(rs) + [] == Script(rs);
    assert Run(Fresh([], []), []) == Shut([]) by { EndsNow(Fresh([], []), false); }
    assert es + [] == es;
    events := Serve(Script(rs));
  }

  /** What `recv` may return: a byte at least, and no more than what is missing of a body or fits in the line buffer. */
  lemma MayBeReceived(c: Conn, bytes: seq<byte>)
    requires Http.Valid(c) && c.open
    ensures Possible(c, Data(bytes)) <==>
            0 < |bytes| <= if c.part == BodyPart then c.req.contentLength - |c.body| else 32767 - |c.line|
    ensures Possible(c, Ended) && Possible(c, Failed)
  {}

  lemma {:induction false} AnyPieces(c: Conn, cs: seq<seq<byte>>, seen: seq<byte>)
    requires Waiting(c) && (forall i | 0 <= i < |cs| :: cs[i] != []) && NoCut(seen, cs)
    requires c.part != BodyPart ==>
               c.line == Unfinished(seen) && InHead(seen) && !Cuts(seen, Concat(cs)) && Clean(seen + Concat(cs))
    requires Settled(Step(c, Data(Concat(cs)))) && Fits(c, Concat(cs)) && |seen| + |Concat(cs)| < LINE_BUF_SIZE
    ensures Deliverable(c, cs)
    decreases |cs|
  {
    hide Step, InHead, Unfinished, Clean, Cuts, Settled;
    if cs != [] {
      var a, b := cs[0], Concat(cs[1..]);
      if c.part != BodyPart { UnfinishedIsTail(seen); }
      assert Possible(c, Data(a));
      if cs[1..] != [] {
        assert b != [] by { assert cs[1..][0] == cs[1]; }
        Assoc(seen, a, b);
        PieceOn(c, a, seen, b);
        AnyPieces(Step(c, Data(a)), cs[1..], seen + a);
      }
    }
  }

  /** A request of a connection that is kept may arrive in any pieces that keep CR with LF, if it fits in the buffer. */
  lemma ArrivesAnyhow(h: Head, body: seq<byte>, cs: seq<seq<byte>>)
    requires Complete(h, body) && !Closing(h) && |HeadBytes(h) + body| < LINE_BUF_SIZE
    requires cs != [] && (forall i | 0 <= i < |cs| :: cs[i] != []) && Concat(cs) == HeadBytes(h) + body && NoCut([], cs)
    ensures Arrives(cs, HeadBytes(h) + body)
  {
    hide Step, Deliverable, NoCut, Clean, Proper, HeadBytes, Carries, Hosted, Closing, Verb;
    RequestInOnePiece(h, body);
    HeadClean(h, body);
    assert body[..|body|] == body && [] + Concat(cs) == Concat(cs);
    NothingSeen(Concat(cs));
    AnyPieces(Fresh([], []), cs, []);
  }

  /** A short stream may arrive in one piece. */
  lemma ArrivesAtOnce(s: seq<byte>)
    requires 0 < |s| < LINE_BUF_SIZE
    ensures Arrives([s], s)
  {
    hide Step, InHead;
    var none: seq<seq<byte>> := [];
    assert [s][1..] == none && s + [] == s;
    assert Concat([s]) == s + Concat(none);
    assert Possible(Fresh([], []), Data(s)) && Deliverable(Step(Fresh([], []), Data(s)), none);
    assert !Cuts([] + s, Concat(none)) && NoCut([] + s, none);
  }

  lemma BehindNothing(c: Conn)
    ensures Behind([], c) == c
  {
    assert [] + c.events == c.events;
  }

  lemma FreshBehind(e: Event)
    ensures Behind([e], Fresh([], [])) == Fresh([], [e])
  {
    assert [e] + [] == [e];
  }

  lemma BehindTwice(e: Event, es: seq<Event>, c: Conn)
    ensures Behind([e], Behind(es, c)) == Behind([e] + es, c) && Behind([e], Shut(es)) == Shut([e] + es)
  {
    Assoc([e], es, c.events);
  }

  // More than one request in a piece.

  lemma WaitingBegins(rest: seq<byte>, e: Event, b: seq<byte>)
    ensures Step(Fresh(rest, [e]), Data(b)) == Behind([e], Step(Fresh([], []), Data(rest + b)))
  {
    hide Scan;
    assert [e] + [] == [e] && [] + (rest + b) == rest + b;
    StepBehind([e], Fresh(rest, []), Data(b));
    ScanIgnores(Fresh([], []), rest + b, rest);
  }

  /** What stands behind a request without a body waits in the buffer, even if it is a whole request: it begins the next
      request when more is received, and if the stream ends instead it is never handed on. */
  lemma SecondRequestWaits(h: Head, rest: seq<byte>, b: seq<byte>) returns (e: Event)
    requires Complete(h, []) && !Closing(h)
    ensures Carries(e, h, None)
    ensures var d := Step(Fresh([], []), Data(HeadBytes(h) + rest));
            && d == Fresh(rest, [e])
            && Step(d, Data(b)) == Behind([e], Step(Fresh([], []), Data(rest + b)))
            && Step(d, Ended) == Shut([e])
  {
    hide Scan, Proper, HeadBytes, Carries, Hosted, Closing, Verb;
    RequestInOnePiece(h, rest);
    var d := Step(Fresh([], []), Data(HeadBytes(h) + rest));
    e := d.events[0];
    assert d.events == [e];
    WaitingBegins(rest, e, b);
  }

  /** What stands behind a body in the same piece closes the connection. */
  lemma BytesBehindBodyClose(h: Head, body: seq<byte>, rest: seq<byte>) returns (e: Event)
    requires Complete(h, body) && body != [] && rest != []
    ensures Carries(e, h, Some(body)) && Step(Fresh([], []), Data(HeadBytes(h) + (body + rest))) == Shut([e])
  {
    hide Scan, Step, Proper, HeadBytes, Carries, Hosted, Closing, Verb;
    RequestInOnePiece(h, body + rest);
    var d := Step(Fresh([], []), Data(HeadBytes(h) + (body + rest)));
    e := d.events[0];
    assert d.events == [e] && (body + rest)[..|body|] == body;
  }

  // Streams that end too early.

  /** The end of the stream, or a failure to read it, as the script has it. */
  function Ending(failed: bool): seq<Recv> {
    if failed then [Failed] else []
  }

  /** A stream that ends inside a body hands on what has arrived of it; one that fails hands on nothing. */
  lemma EndsInBody(h: Head, part: seq<byte>, cs: seq<seq<byte>>, failed: bool) returns (e: Event)
    requires Proper(h) && Hosted(h) && |part| < Announced(h) <= 2147483640 && Verb(h) !in {GET, HEAD}
    requires Arrives(cs, HeadBytes(h) + part)
    ensures Carries(e, h, Some(part))
    ensures Run(Fresh([], []), Datas(cs) + Ending(failed)) == Shut(if failed then [] else [e])
  {
    hide Step, Arrives, Clean, Proper, HeadBytes, Hosted, Carries, Verb, AfterHead;
    RequestInOnePiece(h, part);
    HeadClean(h, part);
    HeadScanned(h, part);
    var d := Step(Fresh([], []), Data(HeadBytes(h) + part));
    e := Handed(d.req, d.recorded, Some(part));
    ArrivingSteps(cs, HeadBytes(h) + part, Ending(failed));
    RunSteps(Fresh([], []), cs, Ending(failed));
    EndsNow(d, failed);
  }

  lemma EndsNow(d: Conn, failed: bool)
    requires d.open && d.events == []
    ensures Run(d, Ending(failed)) ==
            if failed then Shut([])
            else if d.part == BodyPart then Shut([Handed(d.req, d.recorded, Some(d.body))])
            else if d.req.path.Some? then Shut([Handed(d.req, d.recorded, None)])
            else Shut([])
  {
    assert Ending(true)[1..] == [];
    assert !Step(d, Failed).open;
  }

  /** A stream that ends after the request line, inside the head, hands on the lines that are complete; no host is asked
      for. */
  lemma EndsInHead(h: Head, part: seq<byte>, cs: seq<seq<byte>>, failed: bool) returns (e: Event)
    requires Proper(h) && NoStop(part) && Arrives(cs, Render([Opening(h)] + Headers(h)) + part)
    ensures Carries(e, h, None)
    ensures Run(Fresh([], []), Datas(cs) + Ending(failed)) == Shut(if failed then [] else [e])
  {
    hide *;
    hide Carries;
    var lines := [Opening(h)] + Headers(h);
    var s, d := Render(lines) + part, AfterHead(h).(line := part);
    UnfinishedHead(h, part);
    ArrivingSteps(cs, s, Ending(failed));
    RunSteps(Fresh([], []), cs, Ending(failed));
    EndsNow(d, failed);
    e := Handed(d.req, d.recorded, None);
  }

  lemma UnfinishedHead(h: Head, part: seq<byte>)
    requires Proper(h) && NoStop(part)
    ensures var s, d := Render([Opening(h)] + Headers(h)) + part, AfterHead(h).(line := part);
            && Step(Fresh([], []), Data(s)) == d && Clean(s) && Settled(d)
            && d.open && d.events == [] && d.part == HeaderPart && d.req.path.Some?
            && Carries(Handed(d.req, d.recorded, None), h, None)
  {
    hide Scan, Lines, Line, Proper, Render, Headers, Plain, Text, Recorded, Clean, SomeNamed, SomeAsksToClose;
    var lines := [Opening(h)] + Headers(h);
    ProperLines(h);
    OpeningParsed(h);
    FirstLine(Opening(h), Headers(h));
    HeadScanned(h, []);
    HeadersParsed(h);
    ScanLines(Fresh([], []), lines, part);
    PartStays(AfterHead(h), part);
    LinesClean(lines, part);
    assert [] + (Render(lines) + part) == Render(lines) + part;
  }

  lemma PartStays(c: Conn, part: seq<byte>)
    requires NoStop(part)
    ensures Scan(c, part) == c.(line := part) && Clean(part)
  {
    SpanOfNoStop(part);
  }

  lemma {:induction false} LinesClean(lines: seq<seq<byte>>, part: seq<byte>)
    requires NoStop(part) && forall i | 0 <= i < |lines| :: Plain(lines[i])
    ensures Clean(Render(lines) + part)
    decreases |lines|
  {
    hide Span, NextLine, NoStop, Plain;
    if lines == [] {
      PartStays(Fresh([], []), part);
      assert Render(lines) + part == part;
    } else {
      var more := Render(lines[1..]) + part;
      assert Render(lines) + part == lines[0] + C.CRLF + more;
      LineInFront(lines[0], more);
      LinesClean(lines[1..], part);
    }
  }

  /** A stream that ends before its first line is complete hands on nothing. */
  lemma EndsBeforeRequest(part: seq<byte>, cs: seq<seq<byte>>, failed: bool)
    requires NoStop(part) && Arrives(cs, part)
    ensures Run(Fresh([], []), Datas(cs) + Ending(failed)) == Shut([])
  {
    hide Scan, Deliverable, NoCut, Clean, NoStop;
    PartStays(Fresh([], []), part);
    assert [] + part == part;
    ArrivingSteps(cs, part, Ending(failed));
    RunSteps(Fresh([], []), cs, Ending(failed));
    EndsNow(Fresh(part, []), failed);
  }
}
