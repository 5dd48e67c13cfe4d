/** Whole messages: the body a request announces, and the line that never ends. */
module HttpMessages {
  import opened Bytes
  import opened Http
  import opened HttpStream
  import opened HttpRuns
  import C = Chunked

  /** The name of a header line in lower case; a line without a colon has none. */
  function NameOf(line: seq<byte>): Option<seq<byte>> {
    if Find(line, COLON) == |line| then None else Some(Lower(line[..Find(line, COLON)]))
  }

  predicate Named(line: seq<byte>, name: string) {
    NameOf(line) == Some(Text(name))
  }

  predicate SomeNamed(lines: seq<seq<byte>>, name: string) {
    exists i | 0 <= i < |lines| :: Named(lines[i], name)
  }

  /** A `Connection` line whose value begins with `close`, in any case. */
  predicate AsksToClose(line: seq<byte>) {
    Named(line, "connection") && Text("close") <= Lower(SkipBlanks(line[Find(line, COLON) + 1..]))
  }

  predicate SomeAsksToClose(lines: seq<seq<byte>>) {
    exists i | 0 <= i < |lines| :: AsksToClose(lines[i])
  }

  lemma FieldEffect(r: Request, name: seq<byte>, value: seq<byte>)
    ensures var q := HeaderField(r, name, value);
            && q.verb == r.verb && q.attr.http10 == r.attr.http10
            && (q.attr.host <==> r.attr.host || name == Text("host"))
            && (q.attr.close <==> r.attr.close || (name == Text("connection") && Text("close") <= Lower(value)))
            && (name != Text("content-length") ==> q.attr.length == r.attr.length && q.contentLength == r.contentLength)
  {
    hide Text, Find, Lower, Atol;
    NamesApart();
  }

  /** What one header line does to the fields that frame the message. */
  lemma HeaderEffect(c: Conn, line: seq<byte>)
    requires c.open && c.part == HeaderPart
    ensures var d := Line(c, line);
            && d.open && d.part == HeaderPart && d.req.verb == c.req.verb && d.req.attr.http10 == c.req.attr.http10
            && (d.req.attr.host <==> c.req.attr.host || Named(line, "host"))
            && (d.req.attr.close <==> c.req.attr.close || AsksToClose(line))
            && (!Named(line, "content-length") ==>
                  d.req.attr.length == c.req.attr.length && d.req.contentLength == c.req.contentLength)
  {
    hide Text, Find, Lower, HeaderField, SkipBlanks;
    var k := Find(line, COLON);
    if k < |line| { FieldEffect(c.req, Lower(line[..k]), SkipBlanks(line[k + 1..])); }
  }

  lemma NamesApart()
    ensures Text("host") !in [Text("upgrade"), Text("content-length"), Text("content-type"), Text("connection")]
    ensures Text("content-length") != Text("upgrade")
    ensures Text("connection") !in [Text("upgrade"), Text("content-length"), Text("content-type")]
  {
    assert |"host"| == 4 && |"upgrade"| == 7 && |"content-length"| == 14 && |"content-type"| == 12 && |"connection"| == 10;
  }

  lemma {:induction false} LinesEffect(c: Conn, lines: seq<seq<byte>>)
    requires c.open && c.part == HeaderPart
    ensures var d := Lines(c, lines);
            && d.open && d.part == HeaderPart && d.req.verb == c.req.verb && d.req.attr.http10 == c.req.attr.http10
            && (d.req.attr.host <==> c.req.attr.host || SomeNamed(lines, "host"))
            && (d.req.attr.close <==> c.req.attr.close || SomeAsksToClose(lines))
            && (!SomeNamed(lines, "content-length") ==>
                  d.req.attr.length == c.req.attr.length && d.req.contentLength == c.req.contentLength)
    decreases |lines|
  {
    hide Line, Named, AsksToClose;
    if lines != [] {
      HeaderEffect(c, lines[0]);
      LinesEffect(Line(c, lines[0]), lines[1..]);
      FirstOrRest(lines, "host");
      FirstOrRest(lines, "content-length");
      CloseFirstOrRest(lines);
    }
  }

  lemma CloseFirstOrRest(lines: seq<seq<byte>>)
    requires lines != []
    ensures SomeAsksToClose(lines) <==> AsksToClose(lines[0]) || SomeAsksToClose(lines[1..])
  {
    hide AsksToClose;
    if i :| 0 <= i < |lines| && AsksToClose(lines[i]) {
      assert i > 0 ==> AsksToClose(lines[1..][i - 1]);
    }
    if j :| 0 <= j < |lines[1..]| && AsksToClose(lines[1..][j]) {
      assert AsksToClose(lines[j + 1]);
    }
  }

  lemma FirstOrRest(lines: seq<seq<byte>>, name: string)
    requires lines != []
    ensures SomeNamed(lines, name) <==> Named(lines[0], name) || SomeNamed(lines[1..], name)
  {
    if i :| 0 <= i < |lines| && Named(lines[i], name) {
      assert i > 0 ==> Named(lines[1..][i - 1], name);
    }
    if j :| 0 <= j < |lines[1..]| && Named(lines[1..][j], name) {
      assert Named(lines[j + 1], name);
    }
  }

  lemma {:induction false} LinesAppend(c: Conn, a: seq<seq<byte>>, b: seq<seq<byte>>)
    ensures Lines(c, a + b) == Lines(Lines(c, a), b)
    decreases |a|
  {
    hide Line;
    if a == [] {
      assert a + b == b;
    } else {
      assert (a + b)[1..] == a[1..] + b;
      LinesAppend(Line(c, a[0]), a[1..], b);
    }
  }

  function LengthLine(name: seq<byte>, n: int): seq<byte> {
    name + [COLON] + ([SPACE] + Number(n))
  }

  /** The last length line of a head, wherever it stands, announces the length. */
  lemma LengthOfHead(c: Conn, before: seq<seq<byte>>, name: seq<byte>, n: int, after: seq<seq<byte>>)
    requires c.open && c.part == HeaderPart && COLON !in name && Lower(name) == Text("content-length")
    requires !SomeNamed(after, "content-length")
    ensures var d := Lines(c, before + [LengthLine(name, n)] + after);
            && d.open && d.part == HeaderPart && d.req.attr.length && d.req.contentLength == n && d.req.verb == c.req.verb
            && d.req.attr.http10 == c.req.attr.http10
            && (d.req.attr.host <==> c.req.attr.host || SomeNamed(before + [LengthLine(name, n)] + after, "host"))
            && (d.req.attr.close <==> c.req.attr.close || SomeAsksToClose(before + [LengthLine(name, n)] + after))
  {
    hide Line, Lines, SomeNamed, SomeAsksToClose, Text, Lower, Number;
    var line := LengthLine(name, n);
    var c1 := Lines(c, before);
    LinesEffect(c, before);
    var c2 := Line(c1, line);
    HeaderEffect(c1, line);
    LengthAnnounced(c1, name, n);
    LinesEffect(c2, after);
    LinesAppend(c, before + [line], after);
    LinesAppend(c, before, [line]);
    OneLine(c1, line);
    LinesEffect(c, before + [line] + after);
  }

  lemma NamedParts(a: seq<seq<byte>>, b: seq<seq<byte>>, name: string)
    ensures SomeNamed(a + b, name) <==> SomeNamed(a, name) || SomeNamed(b, name)
  {
    hide Named;
    if i :| 0 <= i < |a + b| && Named((a + b)[i], name) {
      assert if i < |a| then Named(a[i], name) else Named(b[i - |a|], name);
    }
    if i :| 0 <= i < |a| && Named(a[i], name) { assert Named((a + b)[i], name); }
    if i :| 0 <= i < |b| && Named(b[i], name) { assert Named((a + b)[|a| + i], name); }
  }

  lemma OneLine(c: Conn, line: seq<byte>)
    ensures Lines(c, [line]) == Line(c, line)
  {
    hide Line;
  }

  /** A request whose line is accepted, with any method but GET and HEAD, with a `Host` header unless it is HTTP/1.0, and
      whose last `Content-Length`, in any case and place, is the length of its body: it is handed on with exactly those
      bytes, for every way `recv` cuts it that keeps each CR of the head with its LF. */
  lemma BodyDelivered(name: seq<byte>, target: seq<byte>, version: byte, before: seq<seq<byte>>,
                      lengthName: seq<byte>, after: seq<seq<byte>>, body: seq<byte>, cs: seq<seq<byte>>)
    requires var first := RequestText(name, target, version);
             && SPACE !in name && |name| + |target| >= 4 && Plain(first)
             && VerbOf(name) !in {GET, HEAD} && (VerbOf(name) != NoMethod || 18 + |name| <= HEADER_BUF_SIZE)
    requires COLON !in lengthName && Lower(lengthName) == Text("content-length")
    requires var headers := before + [LengthLine(lengthName, |body|)] + after;
             && (forall i | 0 <= i < |headers| :: Plain(headers[i]))
             && cs != [] && Concat(cs) == Render([RequestText(name, target, version)] + headers) + (C.CRLF + body)
    requires version == 48 || SomeNamed(before, "host") || SomeNamed(after, "host")
    requires !SomeNamed(after, "content-length")
    requires 0 < |body| <= BODY_LIMIT && Deliverable(Fresh([], []), cs) && NoCut([], cs)
    ensures match Reaction(Fresh([], []), cs)
            case Some(Handed(req, recorded, got)) =>
              var verb := VerbOf(name);
              && got == Some(body) && req.contentLength == |body| && req.path == Some(target)
              && req.verb == (if verb == NoMethod then OTHER else verb) && req.attr.http10 == (version == 48)
              && recorded == Line(Fresh([], []), RequestText(name, target, version)).recorded
                           + Recorded(before + [LengthLine(lengthName, |body|)] + after)
            case _ => false
  {
    hide *;
    var first := RequestText(name, target, version);
    var headers := before + [LengthLine(lengthName, |body|)] + after;
    var c := Fresh([], []);
    RequestLineParsed(name, target, version);
    FirstLine(first, headers);
    LengthOfHead(Line(c, first), before, lengthName, |body|, after);
    NamedParts(before, [LengthLine(lengthName, |body|)], "host");
    NamedParts(before + [LengthLine(lengthName, |body|)], after, "host");
    AnnouncesBody(Lines(c, [first] + headers).req, |body|);
    DeliveredHoweverCut(first, headers, body, cs);
    RequestIsDelivered(first, headers, body, []);
  }

  lemma AnnouncesBody(r: Request, n: nat)
    requires r.attr.length && r.contentLength == n > 0 && r.verb !in {GET, HEAD}
    ensures HasBody(r)
  {}

  // The line that does not fit.

  predicate NoStop(s: seq<byte>) {
    forall i | 0 <= i < |s| :: !Stops(s[i])
  }

  lemma NoStopParts(a: seq<byte>, b: seq<byte>)
    ensures NoStop(a + b) <==> NoStop(a) && NoStop(b)
  {
    if NoStop(a + b) {
      assert forall i | 0 <= i < |a| :: a[i] == (a + b)[i];
      assert forall i | 0 <= i < |b| :: b[i] == (a + b)[|a| + i];
    }
  }

  lemma {:induction false} SpanOfNoStop(s: seq<byte>)
    requires NoStop(s)
    ensures Span(s) == |s|
  {
    if s != [] { SpanOfNoStop(s[1..]); }
  }

  /** With a full line buffer outside the body, `recv` is asked for nothing, and the nothing it returns is taken for
      the end of the stream: the connection is closed, and never with the 413 answer meant for this case. */
  lemma FullBufferHangsUp(c: Conn)
    requires Http.Valid(c) && c.open && c.part != BodyPart && |c.line| == LINE_BUF_SIZE - 1
    ensures Room(c) == 0 && forall bytes :: !Possible(c, Data(bytes))
    ensures Possible(c, Ended)
    ensures Step(c, Ended) ==
            Shut(c.events + if c.req.path.Some? then [Handed(c.req, c.recorded, None)] else [])
    ensures Answered(413) !in c.events ==> Answered(413) !in Step(c, Ended).events
  {}

  /** A first line that is longer than the buffer, however it arrives: nothing is answered, the pieces that can be
      received end where the buffer is full, and then the connection is closed without a word. */
  lemma {:induction false} OverlongLineIsDropped(c: Conn, cs: seq<seq<byte>>)
    requires Http.Valid(c) && c == Fresh(c.line, []) && NoStop(c.line) && NoStop(Concat(cs)) && Deliverable(c, cs)
    ensures Reaction(c, cs) == None && |c.line| + |Concat(cs)| < LINE_BUF_SIZE
    ensures |c.line| + |Concat(cs)| == LINE_BUF_SIZE - 1 ==>
              var d := Fresh(c.line + Concat(cs), []);
              (forall bytes :: !Possible(d, Data(bytes))) && Step(d, Ended) == Shut([])
    decreases |cs|
  {
    hide Line, EndOfHead, Span;
    if cs != [] {
      var t := c.line + cs[0];
      assert Concat(cs) == cs[0] + Concat(cs[1..]);
      NoStopParts(cs[0], Concat(cs[1..]));
      NoStopParts(c.line, cs[0]);
      SpanOfNoStop(t);
      assert Step(c, Data(cs[0])) == Fresh(t, []);
      Assoc(c.line, cs[0], Concat(cs[1..]));
      StepValid(c, Data(cs[0]));
      OverlongLineIsDropped(Fresh(t, []), cs[1..]);
    } else {
      assert c.line + [] == c.line;
    }
  }

  /** Such a state is reached by a line of as many bytes as the buffer can take. */
  lemma FullBufferIsReached()
    ensures var line: seq<byte> := seq(LINE_BUF_SIZE - 1, _ => 97);
            && Possible(Fresh([], []), Data(line)) && Step(Fresh([], []), Data(line)) == Fresh(line, [])
            && Step(Fresh(line, []), Ended) == Shut([])
  {
    hide Line, EndOfHead, Span;
    var line: seq<byte> := seq(LINE_BUF_SIZE - 1, _ => 97);
    SpanOfNoStop(line);
    assert [] + line == line;
  }
}
