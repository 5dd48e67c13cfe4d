/** Requests over whole runs: independence of the way the stream is cut, and what a well-formed request turns into. */
module HttpRuns {
  import opened Bytes
  import opened Http
  import opened HttpStream
  import C = Chunked

  /** Every piece is one that `recv` could return when it is asked for. */
  predicate Deliverable(c: Conn, cs: seq<seq<byte>>)
    decreases |cs|
  {
    cs == [] || (Possible(c, Data(cs[0])) &&
                 var d := Step(c, Data(cs[0])); d.events != [] || Deliverable(d, cs[1..]))
  }

  /** The first answer, or the first request handed on, while the pieces arrive. */
  function Reaction(c: Conn, cs: seq<seq<byte>>): Option<Event>
    decreases |cs|
  {
    if cs == [] then None
    else
      var d := Step(c, Data(cs[0]));
      if d.events != [] then Some(d.events[0]) else Reaction(d, cs[1..])
  }

  /** The stream as the reader takes it: with an LF more at every CR LF of the head that is cut in two. */
  function AsSeen(c: Conn, cs: seq<seq<byte>>): seq<byte>
    decreases |cs|
  {
    if cs == [] then []
    else
      var d := Step(c, Data(cs[0]));
      if d.events != [] then Concat(cs)
      else
        var more := AsSeen(d, cs[1..]);
        cs[0] + (if d.part == BodyPart then [] else Seam(c.line + cs[0], more)) + more
  }

  /** A connection on which nothing has been answered or handed on since the last request. */
  ghost predicate Waiting(c: Conn) {
    Valid(c) && c.open && c.events == []
  }

  lemma BodyPiece(c: Conn, a: seq<byte>, b: seq<byte>)
    requires Waiting(c) && c.part == BodyPart && Possible(c, Data(a))
    ensures var d := Step(c, Data(a));
            && (d.events != [] ==> Verdict(c, a + b) == First(d))
            && (d.events == [] ==> Waiting(d) && d.part == BodyPart && Verdict(c, a + b) == Verdict(d, b))
  {
    StepValid(c, Data(a));
    Assoc(c.body, a, b);
    var n := c.req.contentLength;
    if |c.body + a| == n { assert (c.body + a + b)[..n] == c.body + a; }
  }

  lemma HeadPiece(c: Conn, a: seq<byte>, b: seq<byte>)
    requires Waiting(c) && c.part != BodyPart && Possible(c, Data(a))
    ensures var d := Step(c, Data(a));
            && (d.events != [] ==> Verdict(c, a + b) == First(d))
            && (d.events == [] ==> Waiting(d))
            && (d.events == [] && d.part == BodyPart ==> Verdict(c, a + b) == Verdict(d, b))
            && (d.events == [] && d.part != BodyPart && Clean(c.line + (a + Seam(c.line + a, b) + b)) ==>
                  Verdict(c, a + Seam(c.line + a, b) + b) == Verdict(d, b) && Clean(d.line + b))
  {
    hide Clean, Deliver, Seam;
    StepOpen(c, Data(a));
    var t := c.line + a;
    var u := Seam(t, b) + b;
    ScanPastHead(c, t, b);
    Assoc(c.line, a, b);
    Assoc(c.line, a, u);
    Assoc(a, Seam(t, b), b);
    if Clean(t + u) { ScanInHead(c, t, u, b); }
    hide Scan;
  }

  lemma StepOpen(c: Conn, r: Recv)
    requires Waiting(c) && Possible(c, r) && r.Data?
    ensures Step(c, r).events == [] ==> Waiting(Step(c, r))
  {
    StepValid(c, r);
  }

  /** However `recv` cuts the stream, the reaction is that to one piece holding the stream as seen. */
  lemma {:induction false} ReactionIsVerdict(c: Conn, cs: seq<seq<byte>>)
    requires Waiting(c) && Deliverable(c, cs) && (c.part != BodyPart ==> Clean(c.line + AsSeen(c, cs)))
    requires cs != []
    ensures Reaction(c, cs) == Verdict(c, AsSeen(c, cs))
    decreases |cs|
  {
    hide Step, Verdict, Possible, Clean, Seam;
    var d := Step(c, Data(cs[0]));
    if d.events != [] {
      if c.part == BodyPart { BodyPiece(c, cs[0], Concat(cs[1..])); } else { HeadPiece(c, cs[0], Concat(cs[1..])); }
    } else {
      var more := AsSeen(d, cs[1..]);
      if cs[1..] == [] {
        OnePiece(c, cs[0]);
        assert AsSeen(c, cs) == cs[0];
      } else {
        if c.part == BodyPart { BodyPiece(c, cs[0], more); } else { HeadPiece(c, cs[0], more); }
        assert cs[0] + [] == cs[0];
        ReactionIsVerdict(d, cs[1..]);
      }
    }
  }

  lemma OnePiece(c: Conn, a: seq<byte>)
    requires Waiting(c) && Possible(c, Data(a))
    ensures Verdict(c, a) == First(Step(c, Data(a))) && Seam(c.line + a, []) == []
  {
    if c.part == BodyPart {
      var t := c.body + a;
      assert t[..|t|] == t;
    }
  }

  // Streams without such a cut.

  /** Before the blank line, no CR is separated from its LF at the end of a line that is not empty; `seen` is what
      came before.  Cutting a body is free. */
  predicate NoCut(seen: seq<byte>, cs: seq<seq<byte>>)
    decreases |cs|
  {
    cs == [] || ((InHead(seen + cs[0]) ==> !Cuts(seen + cs[0], Concat(cs[1..]))) && NoCut(seen + cs[0], cs[1..]))
  }

  lemma CutsLonger(s: seq<byte>, t: seq<byte>, a: seq<byte>, b: seq<byte>)
    requires EndsWith(s, t) && Cuts(t + a, b)
    ensures Cuts(s + a, b)
  {
    assert (t + a)[|t + a| - 1] == (s + a)[|s + a| - 1] && (t + a)[|t + a| - 2] == (s + a)[|s + a| - 2];
  }

  lemma CutsEarlier(s: seq<byte>, a: seq<byte>, b: seq<byte>)
    requires a != [] && Cuts(s, a)
    ensures Cuts(s, a + b)
  {}

  /** One piece of the head: the reader and the stream agree on the unfinished line. */
  lemma HeadSeen(c: Conn, a: seq<byte>, seen: seq<byte>, b: seq<byte>)
    requires Waiting(c) && c.part != BodyPart && Possible(c, Data(a))
    requires c.line == Unfinished(seen) && InHead(seen) && !Cuts(seen, a + b) && Clean(seen + a)
    ensures var d := Step(c, Data(a));
            d.events == [] && d.part != BodyPart ==> d.line == Unfinished(seen + a) && InHead(seen + a)
    ensures Cuts(c.line + a, b) ==> Cuts(seen + a, b)
  {
    hide Line, Span, NextLine, Verdict, Scan;
    if Cuts(seen, a) { CutsEarlier(seen, a, b); }
    InHeadOn(seen, a);
    UnfinishedIsTail(seen);
    if Cuts(c.line + a, b) { CutsLonger(seen, c.line, a, b); }
    CleanTail(seen, a);
    ScanStays(c, c.line + a);
  }

  lemma {:induction false} CleanTail(t: seq<byte>, u: seq<byte>)
    requires InHead(t) && Clean(t + u) && !Cuts(t, u)
    ensures Clean(Unfinished(t) + u)
    decreases |t|
  {
    hide Span;
    CleanPrefix(t, u);
    if t != [] && Span(t) < |t| {
      var n := NextLine(t);
      if n < |t| {
        LinesStart(t, u);
        assert (t + u)[n..] == t[n..] + u;
        CleanTail(t[n..], u);
      } else {
        assert [] + u == u && t[n..] == [];
        LastShape(t, u, u);
      }
    }
  }

  /** Without such a cut the stream is seen as it is. */
  lemma {:induction false} SeenAsIs(c: Conn, cs: seq<seq<byte>>, seen: seq<byte>)
    requires Waiting(c) && Deliverable(c, cs) && NoCut(seen, cs) && Clean(seen + Concat(cs))
    requires c.part != BodyPart ==> c.line == Unfinished(seen) && InHead(seen) && !Cuts(seen, Concat(cs))
    ensures AsSeen(c, cs) == Concat(cs)
    decreases |cs|
  {
    hide Scan, Verdict, Deliver, Possible, Cuts, InHead, Unfinished, Clean;
    if cs != [] {
      var a, b := cs[0], Concat(cs[1..]);
      var d := Step(c, Data(a));
      StepOpen(c, Data(a));
      Assoc(seen, a, b);
      if d.events == [] {
        if c.part != BodyPart {
          CleanPrefix(seen + a, b);
          HeadSeen(c, a, seen, b);
        } else {
          BodyPiece(c, a, []);
        }
        SeenAsIs(d, cs[1..], seen + a);
      }
    }
  }

  /** The request handed on, or the error answered, is the same for every way `recv` cuts the stream that keeps each
      CR with its LF. */
  lemma SameForEveryCut(c: Conn, cs: seq<seq<byte>>, ds: seq<seq<byte>>)
    requires Waiting(c) && c.part == RequestPart && c.line == []
    requires Concat(cs) == Concat(ds) && Clean(Concat(cs)) && cs != [] && ds != []
    requires Deliverable(c, cs) && Deliverable(c, ds) && NoCut([], cs) && NoCut([], ds)
    ensures Reaction(c, cs) == Reaction(c, ds) == Verdict(c, Concat(cs))
  {
    hide Scan, Verdict, Deliver, Deliverable, NoCut, Clean;
    assert [] + Concat(cs) == Concat(cs);
    SeenAsIs(c, cs, []);
    SeenAsIs(c, ds, []);
    ReactionIsVerdict(c, cs);
    ReactionIsVerdict(c, ds);
  }

  // What a well-formed request turns into.

  predicate Plain(line: seq<byte>) {
    line != [] && forall i | 0 <= i < |line| :: !Stops(line[i])
  }

  function Render(lines: seq<seq<byte>>): seq<byte> {
    if lines == [] then [] else lines[0] + C.CRLF + Render(lines[1..])
  }

  function Lines(c: Conn, lines: seq<seq<byte>>): Conn
    decreases |lines|
  {
    if lines == [] then c else Lines(Line(c, lines[0]), lines[1..])
  }

  /** The header lines as they are kept for the handler: one newline after each. */
  function Recorded(lines: seq<seq<byte>>): seq<byte> {
    if lines == [] then [] else lines[0] + [C.LF] + Recorded(lines[1..])
  }

  lemma {:induction false} SpanOfLine(line: seq<byte>, r: seq<byte>)
    requires (forall i | 0 <= i < |line| :: !Stops(line[i])) && r != [] && Stops(r[0])
    ensures Span(line + r) == |line|
  {
    if line != [] {
      assert (line + r)[1..] == line[1..] + r;
      SpanOfLine(line[1..], r);
    } else {
      assert line + r == r;
    }
  }

  lemma LineInFront(line: seq<byte>, r: seq<byte>)
    requires Plain(line)
    ensures var s := line + C.CRLF + r;
            StartsWithLine(s) && Span(s) == |line| && s[..|line|] == line && NextLine(s) == |line| + 2 && s[|line| + 2..] == r
  {
    Assoc(line, C.CRLF, r);
    SpanOfLine(line, C.CRLF + r);
    hide Span;
  }

  lemma {:induction false} ScanLines(c: Conn, lines: seq<seq<byte>>, r: seq<byte>)
    requires AtHead(c) && (forall i | 0 <= i < |lines| :: Plain(lines[i]))
    requires c.part == RequestPart ==> lines != [] && Line(c, lines[0]).open
    ensures Scan(c, Render(lines) + r) == Scan(Lines(c, lines), r) && AtHead(Lines(c, lines))
    ensures c.part == HeaderPart || lines != [] ==> Lines(c, lines).part == HeaderPart
    decreases |lines|
  {
    hide Line, Scan, Span, NextLine, Plain;
    if lines == [] {
      assert Render(lines) + r == r;
    } else {
      var more := Render(lines[1..]) + r;
      assert Render(lines) + r == lines[0] + C.CRLF + more;
      LineInFront(lines[0], more);
      LineIgnores(c, lines[0], []);
      if c.part == HeaderPart { HeaderStaysOpen(c, lines[0]); }
      ScanLine(c, Render(lines) + r);
      ScanLines(Line(c, lines[0]), lines[1..], r);
    }
  }

  lemma HeaderStaysOpen(c: Conn, line: seq<byte>)
    requires c.open && c.part == HeaderPart
    ensures Line(c, line).open && Line(c, line).recorded == c.recorded + if line == [] then [] else line + [C.LF]
  {
    hide HeaderField, Text, Lower, Find;
    Assoc(c.recorded, line, [C.LF]);
  }

  /** Recording is lossless: nothing of the header lines is dropped or reordered. */
  lemma {:induction false} LinesRecorded(c: Conn, lines: seq<seq<byte>>)
    requires AtHead(c) && c.part == HeaderPart && forall i | 0 <= i < |lines| :: Plain(lines[i])
    ensures Lines(c, lines).recorded == c.recorded + Recorded(lines)
    decreases |lines|
  {
    hide Line;
    if lines != [] {
      LineIgnores(c, lines[0], []);
      HeaderStaysOpen(c, lines[0]);
      LinesRecorded(Line(c, lines[0]), lines[1..]);
      Assoc(c.recorded, lines[0] + [C.LF], Recorded(lines[1..]));
    } else {
      assert c.recorded + [] == c.recorded;
    }
  }

  lemma {:induction false} RenderClean(lines: seq<seq<byte>>, r: seq<byte>)
    requires forall i | 0 <= i < |lines| :: Plain(lines[i])
    ensures Clean(Render(lines) + (C.CRLF + r))
    decreases |lines|
  {
    if lines != [] {
      var more := Render(lines[1..]) + (C.CRLF + r);
      assert Render(lines) + (C.CRLF + r) == lines[0] + C.CRLF + more;
      LineInFront(lines[0], more);
      RenderClean(lines[1..], r);
    } else {
      assert Render(lines) + (C.CRLF + r) == C.CRLF + r;
    }
  }

  /** The request line: method, target and version, with single spaces between them. */
  function RequestText(name: seq<byte>, target: seq<byte>, version: byte): seq<byte> {
    name + [SPACE] + target + Text(" HTTP/1.") + [version]
  }

  lemma {:induction false} FindFirst(s: seq<byte>, x: byte, r: seq<byte>)
    requires x !in s
    ensures Find(s + [x] + r, x) == |s|
  {
    if s == [] {
      assert s + [x] + r == [x] + r;
    } else {
      assert (s + [x] + r)[1..] == s[1..] + [x] + r;
      FindFirst(s[1..], x, r);
    }
  }

  /** The methods by name. */
  function VerbOf(name: seq<byte>): Method {
    if name == [71, 69, 84] then GET
    else if name == [80, 85, 84] then PUT
    else if name == [80, 79, 83, 84] then POST
    else if name == [72, 69, 65, 68] then HEAD
    else if name == [68, 69, 76, 69, 84, 69] then DELETE
    else NoMethod
  }

  lemma WordInFront(word: seq<byte>, name: seq<byte>, r: seq<byte>)
    requires SPACE !in word && SPACE !in name
    ensures word + [SPACE] <= name + [SPACE] + r <==> word == name
  {
    var line := name + [SPACE] + r;
    if word + [SPACE] <= line {
      assert line[|word|] == SPACE && line[|name|] == SPACE;
      assert line[..|word|] == word && line[..|name|] == name;
    }
  }

  lemma MethodWords()
    ensures Text("GET ") == [71, 69, 84] + [SPACE] && Text("PUT ") == [80, 85, 84] + [SPACE]
    ensures Text("POST ") == [80, 79, 83, 84] + [SPACE] && Text("HEAD ") == [72, 69, 65, 68] + [SPACE]
    ensures Text("DELETE ") == [68, 69, 76, 69, 84, 69] + [SPACE]
  {
    assert Text("GET ") == [71, 69, 84, 32] && Text("PUT ") == [80, 85, 84, 32];
    assert Text("POST ") == [80, 79, 83, 84, 32] && Text("HEAD ") == [72, 69, 65, 68, 32];
    assert Text("DELETE ") == [68, 69, 76, 69, 84, 69, 32];
  }

  lemma MethodByName(name: seq<byte>, r: seq<byte>)
    requires SPACE !in name
    ensures MethodOf(name + [SPACE] + r) == VerbOf(name)
  {
    hide Text;
    MethodWords();
    WordInFront([71, 69, 84], name, r);
    WordInFront([80, 85, 84], name, r);
    WordInFront([80, 79, 83, 84], name, r);
    WordInFront([72, 69, 65, 68], name, r);
    WordInFront([68, 69, 76, 69, 84, 69], name, r);
  }

  /** A request line yields its target, its method - one that is not among the known as `OTHER` - and, if it fits the
      first header buffer, the method as a recorded header. */
  lemma RequestLineParsed(name: seq<byte>, target: seq<byte>, version: byte)
    requires SPACE !in name && |name| + |target| >= 4
    ensures var line := RequestText(name, target, version);
            var d := Line(Fresh([], []), line);
            && (d.open <==> VerbOf(name) != NoMethod || 18 + |name| <= HEADER_BUF_SIZE)
            && (d.open ==> d.req.path == Some(target) && d.part == HeaderPart && d.req.attr.http10 == (version == 48)
                           && d.req.verb == (if VerbOf(name) == NoMethod then OTHER else VerbOf(name))
                           && d.recorded == if 18 + |name| <= HEADER_BUF_SIZE
                                            then Text("Request-Method: ") + name + [C.LF] else [])
            && (!d.open ==> d.events == [Answered(501)])
  {
    hide MethodOf, VerbOf, Find, Text, RequestText, IsRequestLine;
    RequestLineShape(name, target, version);
    VersionTail(version);
  }

  lemma RequestLineShape(name: seq<byte>, target: seq<byte>, version: byte)
    requires SPACE !in name && |name| + |target| >= 4
    ensures var line, sp := RequestText(name, target, version), |name|;
            && MethodOf(line) == VerbOf(name)
            && IsRequestLine(line) && Find(line, SPACE) == sp && |line| == sp + |target| + 10
            && line[..sp] == name && line[sp + 1..|line| - 9] == target
            && line[|line| - 3..] == Text(" HTTP/1.")[6..] + [version]
  {
    hide Find, Text, MethodOf, VerbOf;
    var tail := Text(" HTTP/1.");
    MethodByName(name, target + tail + [version]);
    FindFirst(name, SPACE, target + tail + [version]);
    RequestShape(name, target, tail, version);
  }

  lemma VersionTail(version: byte)
    ensures |Text(" HTTP/1.")| == 8 && (Text(" HTTP/1.")[6..] + [version] == Text("1.0") <==> version == 48)
  {
    TextTail(" HTTP/1.", 6);
    assert " HTTP/1."[6..] == ['1', '.'] && "1.0" == ['1', '.', '0'];
    assert Text(['1', '.']) == [49, 46] && Text(['1', '.', '0']) == [49, 46, 48];
    var v := [49, 46] + [version];
    assert v[0] == 49 && v[1] == 46 && v[2] == version && |v| == 3;
  }

  lemma TextTail(s: string, n: nat)
    requires n <= |s|
    ensures Text(s)[n..] == Text(s[n..])
  {}

  lemma RequestShape(name: seq<byte>, target: seq<byte>, tail: seq<byte>, version: byte)
    requires |tail| == 8
    ensures var line, sp := name + [SPACE] + target + tail + [version], |name|;
            && line == name + [SPACE] + (target + tail + [version]) && |line| == sp + |target| + 10 && line[sp] == SPACE
            && line[sp + 1..|line| - 9] == target && line[..sp] == name
            && line[|line| - 9..|line| - 1] == tail && line[|line| - 3..] == tail[6..] + [version]
  {}

  /** A head with these lines, a blank line and the body: the request is handed on with the headers as sent, and with
      exactly the `Content-Length` bytes that follow the blank line. */
  lemma RequestIsDelivered(first: seq<byte>, headers: seq<seq<byte>>, body: seq<byte>, more: seq<byte>)
    requires Plain(first) && (forall i | 0 <= i < |headers| :: Plain(headers[i]))
    requires Line(Fresh([], []), first).open
    requires var r := Lines(Fresh([], []), [first] + headers).req;
             && (r.attr.http10 || r.attr.host)
             && (if HasBody(r) then r.contentLength == |body| <= BODY_LIMIT
                 else body == [] && (r.attr.length ==> r.contentLength == 0))
    ensures var c := Lines(Fresh([], []), [first] + headers);
            && Verdict(Fresh([], []), Render([first] + headers) + (C.CRLF + (body + more))) ==
               Some(Handed(c.req, c.recorded, if HasBody(c.req) then Some(body) else None))
            && c.recorded == Line(Fresh([], []), first).recorded + Recorded(headers)
            && c.req.path == Line(Fresh([], []), first).req.path
  {
    hide *;
    var c0, lines, rest := Fresh([], []), [first] + headers, C.CRLF + (body + more);
    AtStart(Render(lines) + rest);
    FirstLine(first, headers);
    ScanLines(c0, lines, rest);
    LinesRecorded(Line(c0, first), headers);
    LinesKeepPath(Line(c0, first), headers);
    EndOfLines(Lines(c0, lines), body, more);
  }

  lemma AtStart(s: seq<byte>)
    ensures var c := Fresh([], []); AtHead(c) && c.part == RequestPart && Verdict(c, s) == First(Scan(c, s))
  {
    hide Scan;
    assert [] + s == s;
  }

  lemma FirstLine(first: seq<byte>, headers: seq<seq<byte>>)
    requires Line(Fresh([], []), first).open
    ensures var c, lines := Fresh([], []), [first] + headers;
            && lines != [] && lines[0] == first && (forall i | 0 < i < |lines| :: lines[i] == headers[i - 1])
            && Lines(c, lines) == Lines(Line(c, first), headers)
            && AtHead(Line(c, first)) && Line(c, first).part == HeaderPart
  {
    hide Line;
    LineIgnores(Fresh([], []), first, []);
    assert ([first] + headers)[1..] == headers;
  }

  lemma {:induction false} LinesKeepPath(c: Conn, lines: seq<seq<byte>>)
    requires c.open && c.part == HeaderPart
    ensures Lines(c, lines).req.path == c.req.path
    decreases |lines|
  {
    if lines != [] {
      HeaderStaysOpen(c, lines[0]);
      HeaderKeepsPath(c, lines[0]);
      hide Line;
      LinesKeepPath(Line(c, lines[0]), lines[1..]);
    }
  }

  lemma HeaderKeepsPath(c: Conn, line: seq<byte>)
    requires c.open && c.part == HeaderPart
    ensures Line(c, line).req.path == c.req.path && Line(c, line).part == HeaderPart
  {
    hide HeaderField, Text, Lower, Find;
    var k := Find(line, COLON);
    if k < |line| { HeaderKeeps(c.req, Lower(line[..k]), SkipBlanks(line[k + 1..])); }
  }

  lemma EndOfLines(c: Conn, body: seq<byte>, more: seq<byte>)
    requires AtHead(c) && (c.req.attr.http10 || c.req.attr.host)
    requires if HasBody(c.req) then c.req.contentLength == |body| <= BODY_LIMIT
             else body == [] && (c.req.attr.length ==> c.req.contentLength == 0)
    ensures First(Scan(c, C.CRLF + (body + more))) ==
            Some(Handed(c.req, c.recorded, if HasBody(c.req) then Some(body) else None))
  {
    assert (C.CRLF + (body + more))[2..] == body + more;
    if HasBody(c.req) { assert (body + more)[..|body|] == body; }
    hide Line, Span, NextLine;
  }

  /** Together: a well-formed request arrives complete for every way `recv` cuts it between its bytes, the places
      between a CR and its LF excepted. */
  lemma DeliveredHoweverCut(first: seq<byte>, headers: seq<seq<byte>>, body: seq<byte>, cs: seq<seq<byte>>)
    requires Plain(first) && (forall i | 0 <= i < |headers| :: Plain(headers[i]))
    requires Line(Fresh([], []), first).open
    requires var r := Lines(Fresh([], []), [first] + headers).req;
             && (r.attr.http10 || r.attr.host)
             && (if HasBody(r) then r.contentLength == |body| <= BODY_LIMIT
                 else body == [] && (r.attr.length ==> r.contentLength == 0))
    requires cs != [] && Concat(cs) == Render([first] + headers) + (C.CRLF + body)
    requires Deliverable(Fresh([], []), cs) && NoCut([], cs)
    ensures var c := Lines(Fresh([], []), [first] + headers);
            Reaction(Fresh([], []), cs) ==
            Some(Handed(c.req, c.recorded, if HasBody(c.req) then Some(body) else None))
  {
    hide Line, Lines, Scan, Verdict, Deliverable, NoCut, Clean, Plain, HasBody;
    var c := Fresh([], []);
    RequestIsDelivered(first, headers, body, []);
    assert body + [] == body;
    RenderClean([first] + headers, body);
    SameForEveryCut(c, cs, cs);
  }

  /** The exception is real: when the CR LF of an HTTP/1.1 request line is cut in two, the request is refused for want
      of a `Host` header, whatever headers follow. */
  lemma CutIsRefused(line: seq<byte>, rest: seq<byte>)
    requires Plain(line) && Line(Fresh([], []), line).open && !Line(Fresh([], []), line).req.attr.http10
    requires |line| + 1 < LINE_BUF_SIZE && 1 + |rest| < LINE_BUF_SIZE
    ensures Deliverable(Fresh([], []), [line + [C.CR], [C.LF] + rest])
    ensures Reaction(Fresh([], []), [line + [C.CR], [C.LF] + rest]) == Some(Answered(400))
  {
    hide Line, Scan, Span;
    var c, t, u := Fresh([], []), line + [C.CR], [C.LF] + rest;
    var d := Line(c, line).(line := []);
    AfterCr(line);
    NoHostYet(line);
    LineIgnores(c, line, []);
    BlankIsRefused(d, u);
    assert [] + t == t && [] + u == u;
    assert Step(c, Data(t)) == d && Step(d, Data(u)) == Reject(d, 400);
    assert [t, u][1..] == [u];
  }

  lemma AfterCr(line: seq<byte>)
    requires Plain(line) && Line(Fresh([], []), line).open
    ensures Scan(Fresh([], []), line + [C.CR]) == Line(Fresh([], []), line).(line := [])
  {
    hide Line, Span, Scan;
    var t := line + [C.CR];
    SpanOfLine(line, [C.CR]);
    assert t[..|line|] == line && t[NextLine(t)..] == [];
    ScanLine(Fresh([], []), t);
    ScanNothing(Line(Fresh([], []), line));
  }

  lemma BlankIsRefused(d: Conn, u: seq<byte>)
    requires !d.req.attr.http10 && !d.req.attr.host && u != [] && u[0] == C.LF
    ensures Scan(d, u) == Reject(d, 400)
  {}

  lemma NoHostYet(line: seq<byte>)
    ensures !Line(Fresh([], []), line).req.attr.host
  {
    hide Text, Find, MethodOf;
  }

  // The length of the body.

  function Decimal(n: nat): (d: seq<byte>)
    ensures d != [] && 48 <= d[0] <= 57
  {
    if n < 10 then [48 + n] else Decimal(n / 10) + [48 + n % 10]
  }

  /** A whole number in decimal. */
  function Number(n: int): (d: seq<byte>)
    ensures d != [] && (48 <= d[0] <= 57 || d[0] == 45)
  {
    if n < 0 then [45] + Decimal(-n) else Decimal(n)
  }

  lemma {:induction false} DigitsOfDecimal(n: nat, r: seq<byte>)
    ensures Digits(Decimal(n) + r, 0) == Digits(r, n)
  {
    if n < 10 {
      assert (Decimal(n) + r)[1..] == r;
    } else {
      var d: seq<byte> := [48 + n % 10];
      Assoc(Decimal(n / 10), d, r);
      DigitsOfDecimal(n / 10, d + r);
      assert (d + r)[1..] == r;
    }
  }

  /** The length a client announces, in whatever case it writes the header's name, is the length the reader uses. */
  lemma LengthAnnounced(c: Conn, name: seq<byte>, n: int)
    requires c.open && c.part == HeaderPart && COLON !in name && Lower(name) == Text("content-length")
    ensures var r := Line(c, name + [COLON] + ([SPACE] + Number(n))).req; r.attr.length && r.contentLength == n
  {
    hide Text, Find, Lower, Digits, Decimal;
    var line, value := name + [COLON] + ([SPACE] + Number(n)), Number(n);
    FindFirst(name, COLON, [SPACE] + value);
    assert line[..|name|] == name && line[|name| + 1..] == [SPACE] + value && ([SPACE] + value)[1..] == value;
    assert SkipBlanks([SPACE] + value) == SkipBlanks(value) == value;
    var size := if n < 0 then -n else n;
    DigitsOfDecimal(size, []);
    NoDigits(size);
    assert Decimal(size) + [] == Decimal(size);
    NamesDiffer();
  }

  lemma NoDigits(n: nat)
    ensures Digits([], n) == n
  {}

  lemma NamesDiffer()
    ensures Text("content-length") != Text("upgrade")
  {
    assert |"content-length"| != |"upgrade"|;
  }

  // Every request that is handed on has recorded headers, so their flattened form always matters.

  lemma {:induction false} FindAtMost(s: seq<byte>, x: byte, i: nat)
    requires i < |s| && s[i] == x
    ensures Find(s, x) <= i
  {
    if s[0] != x { FindAtMost(s[1..], x, i - 1); }
  }

  lemma TextAt(s: string, i: nat)
    requires i < |s|
    ensures Text(s)[i] == s[i] as int % 256
  {
  }

  lemma KnownMethodIsShort(line: seq<byte>)
    requires MethodOf(line) != NoMethod
    ensures Find(line, SPACE) <= 6
  {
    hide Text, Find;
    TextAt("GET ", 3); TextAt("PUT ", 3); TextAt("POST ", 4); TextAt("HEAD ", 4); TextAt("DELETE ", 6);
    var i := if MethodOf(line) == DELETE then 6 else if MethodOf(line) == GET || MethodOf(line) == PUT then 3 else 4;
    assert line[i] == SPACE;
    FindAtMost(line, SPACE, i);
  }

  /** The method of an accepted request line is recorded, whole, as the first header. */
  lemma MethodIsRecorded(line: seq<byte>)
    requires Line(Fresh([], []), line).open
    ensures Line(Fresh([], []), line).recorded == Text("Request-Method: ") + line[..Find(line, SPACE)] + [C.LF]
  {
    hide Text, Find, MethodOf;
    if MethodOf(line) != NoMethod { KnownMethodIsShort(line); }
  }
}
