/** The connection object: a fixed line buffer and a body buffer, filled by `recv` and worked through in place. */
module HttpConnection {
  import opened Bytes
  import opened Http
  import opened HttpStream
  import C = Chunked

  /** The client's side: what each `recv` will return, and the end of the stream after that. */
  class Socket {
    var script: seq<Recv>

    constructor (script: seq<Recv>)
      ensures this.script == script
    {
      this.script := script;
    }

    method Receive() returns (r: Recv)
      modifies this
      ensures old(script) == [] ==> r == Ended && script == []
      ensures old(script) != [] ==> r == old(script)[0] && script == old(script)[1..]
    {
      if script == [] {
        r := Ended;
      } else {
        r := script[0];
        script := script[1..];
      }
    }
  }

  /** Each result is one that `recv` can give when it is called. */
  ghost predicate Feasible(c: Conn, script: seq<Recv>)
    decreases |script|
  {
    script == [] || !c.open || (Possible(c, script[0]) && Feasible(Step(c, script[0]), script[1..]))
  }

  /** The connection from the first `recv` until it is closed. */
  ghost function Run(c: Conn, script: seq<Recv>): Conn
    decreases |script|
  {
    if !c.open then c
    else if script == [] then Step(c, Ended)
    else Run(Step(c, script[0]), script[1..])
  }

  class Connection {
    var open: bool
    var part: Part
    const lineBuf: array<byte>
    var linePos: nat
    var req: Request
    var recorded: seq<byte>
    var body: array?<byte>
    var bodyPos: nat
    var events: seq<Event>

    ghost predicate Valid()
      reads this, body
    {
      && lineBuf.Length == LINE_BUF_SIZE && linePos <= LINE_BUF_SIZE && body != lineBuf
      && (open ==> linePos < LINE_BUF_SIZE)
      && (open && part != BodyPart ==> body == null)
      && (open && part == BodyPart ==> body != null && body.Length == req.contentLength + 1 && bodyPos <= req.contentLength)
    }

    ghost function Received(): seq<byte>
      requires Valid()
      reads this, body
    {
      if open && part == BodyPart then body[..bodyPos] else []
    }

    /** The state as a value; of a closed connection only the events are left. */
    ghost function View(): Conn
      requires Valid()
      reads this, lineBuf, body
    {
      if open then Conn(true, part, lineBuf[..linePos], req, recorded, Received(), events) else Shut(events)
    }

    /** The connection with an empty line buffer, as the scan sees it. */
    ghost function Scanned(): Conn
      reads this
    {
      Conn(true, part, [], req, recorded, [], events)
    }

    constructor ()
      ensures Valid() && fresh(lineBuf) && body == null && View() == Fresh([], [])
    {
      open, part, linePos, req, recorded, body, bodyPos, events := true, RequestPart, 0, NOTHING, [], null, 0, [];
      lineBuf := new byte[LINE_BUF_SIZE];
    }

    method Close(answers: seq<Event>)
      requires Valid()
      modifies this
      ensures Valid() && View() == Shut(old(events) + answers)
    {
      open, events := false, events + answers;
    }

    /** Ready for the next request, with `linePos` bytes of it already in the buffer. */
    method Reset(answers: seq<Event>)
      requires Valid() && open
      modifies this
      ensures Valid() && View() == Fresh(old(lineBuf[..linePos]), old(events) + answers)
      ensures body == null
    {
      part, req, recorded, body, bodyPos, events := RequestPart, NOTHING, [], null, 0, events + answers;
    }

    /** Move what follows `s` to the front of the buffer. */
    method Shift(s: nat)
      requires Valid() && s <= linePos && linePos < LINE_BUF_SIZE
      modifies `linePos, lineBuf
      ensures linePos == old(linePos) - s && lineBuf[..linePos] == old(lineBuf[s..linePos])
    {
      linePos := linePos - s;
      forall i | 0 <= i < linePos {
        lineBuf[i] := lineBuf[s + i];
      }
    }

    /** A complete line. */
    method TakeLine(line: seq<byte>)
      requires Valid() && open && part != BodyPart
      modifies this
      ensures Valid() && linePos == old(linePos) && body == null
      ensures var d := Line(old(Scanned()), line);
              if d.open then open && part == HeaderPart && Scanned() == d else View() == d
    {
      hide HeaderField, Text, Find, MethodOf, Lower;
      var d := Line(Conn(true, part, [], req, recorded, [], events), line);
      open, events, part, req, recorded, body := d.open, d.events, d.part, d.req, d.recorded, null;
    }

    /** The end of the line that starts at `from`. */
    method FindEnd(from: nat) returns (s: nat)
      requires from <= linePos <= lineBuf.Length
      ensures s == from + Span(lineBuf[from..linePos])
    {
      s := from;
      while s < linePos && !Stops(lineBuf[s])
        invariant from <= s <= linePos
        invariant from + Span(lineBuf[from..linePos]) == s + Span(lineBuf[s..linePos])
      {
        assert lineBuf[s..linePos][1..] == lineBuf[s + 1..linePos];
        s := s + 1;
      }
    }

    /** A complete body is handed on; whatever is left in the line buffer closes the connection. */
    method DeliverBody()
      requires Valid() && open && part == BodyPart
      modifies this
      ensures Valid() && View() == Deliver(old(View()))
      ensures open && part == BodyPart ==> body == old(body)
    {
      if bodyPos == req.contentLength {
        var answer := [Handed(req, recorded, Some(body[..bodyPos]))];
        if Closes(req) || linePos > 0 {
          Close(answer);
        } else {
          Reset(answer);
        }
      }
    }

    /** The blank line at the end of the head, with the rest of the buffer from `s` on. */
    method FinishHead(s: nat)
      requires Valid() && open && part != BodyPart && s <= linePos
      modifies this, lineBuf
      ensures Valid() && (open && part == BodyPart ==> fresh(body))
      ensures View() == EndOfHead(old(Scanned()), old(lineBuf[s..linePos]))
    {
      if !req.attr.http10 && !req.attr.host {
        Close([Answered(400)]);
      } else if req.attr.length && req.contentLength != 0 && (req.contentLength < 0 || req.contentLength > BODY_LIMIT) {
        Close([Answered(413)]);
      } else {
        Shift(s);
        if !HasBody(req) {
          if req.attr.length && req.contentLength > 0 {
            Close([Answered(400)]);
          } else if Closes(req) {
            Close([Handed(req, recorded, None)]);
          } else {
            Reset([Handed(req, recorded, None)]);
          }
        } else {
          BeginBody();
          DeliverBody();
        }
      }
    }

    /** Allocate the body and move what has arrived of it. */
    method BeginBody()
      requires Valid() && open && part != BodyPart && req.contentLength > 0
      modifies this
      ensures Valid() && open && part == BodyPart && fresh(body)
      ensures View() == (var rest := old(lineBuf[..linePos]);
              var k := if req.contentLength < |rest| then req.contentLength else |rest|;
              Conn(true, BodyPart, rest[..|rest| - k], old(req), old(recorded), rest[..k], old(events)))
    {
      body := new byte[req.contentLength + 1];
      part := BodyPart;
      bodyPos := if req.contentLength < linePos then req.contentLength else linePos;
      forall i | 0 <= i < bodyPos {
        body[i] := lineBuf[i];
      }
      linePos := linePos - bodyPos;
    }

    method Store(bytes: seq<byte>)
      requires Valid() && open && part != BodyPart && linePos + |bytes| < LINE_BUF_SIZE
      modifies `linePos, lineBuf
      ensures Valid() && lineBuf[..linePos] == old(lineBuf[..linePos]) + bytes
    {
      forall i | 0 <= i < |bytes| {
        lineBuf[linePos + i] := bytes[i];
      }
      linePos := linePos + |bytes|;
    }

    /** Past the end of the line at `s`: over a CR, over an LF, or over both. */
    method SkipEnd(bol: nat, s: nat) returns (t: nat)
      requires bol <= s < linePos <= lineBuf.Length && s == bol + Span(lineBuf[bol..linePos])
      requires lineBuf[s] == C.CR || lineBuf[s] == C.LF
      ensures s < t <= linePos && t == bol + NextLine(lineBuf[bol..linePos])
      ensures lineBuf[t..linePos] == lineBuf[bol..linePos][NextLine(lineBuf[bol..linePos])..]
      ensures lineBuf[bol..s] == lineBuf[bol..linePos][..Span(lineBuf[bol..linePos])]
    {
      hide Span;
      t := s;
      if lineBuf[t] == C.CR { t := t + 1; }
      if t < linePos && lineBuf[t] == C.LF { t := t + 1; }
    }

    /** The loop over the lines in the buffer. */
    method ScanBuffer()
      requires Valid() && open && part != BodyPart
      modifies this, lineBuf
      ensures Valid() && (open && part == BodyPart ==> fresh(body))
      ensures View() == Scan(old(Scanned()), old(lineBuf[..linePos]))
    {
      hide Line, Span, NextLine, EndOfHead;
      var s := 0;
      ghost var all := Scan(Scanned(), lineBuf[..linePos]);
      while s < linePos && lineBuf[s] != 0
        invariant Valid() && open && part != BodyPart && s <= linePos
        invariant Scan(Scanned(), lineBuf[s..linePos]) == all
        invariant linePos == old(linePos) && lineBuf[..] == old(lineBuf[..])
        decreases linePos - s
      {
        ghost var rest := lineBuf[s..linePos];
        if lineBuf[s] == C.LF || (lineBuf[s] == C.CR && s + 1 < linePos && lineBuf[s + 1] == C.LF) {
          FinishHead(if lineBuf[s] == C.CR then s + 2 else s + 1);
          return;
        }
        var bol := s;
        s := FindEnd(bol);
        if s == linePos || lineBuf[s] == 0 {
          Shift(bol);
          return;
        }
        ScanLine(Scanned(), rest);
        var line := lineBuf[bol..s];
        s := SkipEnd(bol, s);
        TakeLine(line);
        if !open {
          return;
        }
      }
      linePos := 0;
    }

    /** What a `recv` into the line buffer leads to. */
    method HeadInput(r: Recv)
      requires Valid() && open && part != BodyPart && Possible(View(), r)
      modifies this, lineBuf
      ensures Valid() && (open && part == BodyPart ==> fresh(body))
      ensures View() == Step(old(View()), r)
    {
      match r
      case Failed => Close([]);
      case Ended =>
        if req.path.Some? {
          Close([Handed(req, recorded, None)]);
        } else {
          Close([]);
        }
      case Data(bytes) =>
        StepScans(View(), bytes);
        Store(bytes);
        ScanBuffer();
    }

    /** What a `recv` into the body leads to. */
    method BodyInput(r: Recv)
      requires Valid() && open && part == BodyPart && Possible(View(), r)
      modifies this, body
      ensures Valid() && (open && part == BodyPart ==> body == old(body))
      ensures View() == Step(old(View()), r)
    {
      match r
      case Failed => Close([]);
      case Ended => Close([Handed(req, recorded, Some(body[..bodyPos]))]);
      case Data(bytes) =>
        forall i | 0 <= i < |bytes| {
          body[bodyPos + i] := bytes[i];
        }
        bodyPos := bodyPos + |bytes|;
        linePos := 0;
        assert body[..bodyPos] == old(body[..bodyPos]) + bytes;
        DeliverBody();
    }

    /** One round of the server loop: the head if it is not complete, and then the body. */
    method InputIteration(sock: Socket)
      requires Valid() && open && Http.Valid(View()) && Feasible(View(), sock.script)
      modifies this, lineBuf, body, sock
      ensures Valid() && Http.Valid(View()) && Feasible(View(), sock.script)
      ensures open && part == BodyPart ==> body == old(body) || fresh(body)
      ensures Run(View(), sock.script) == Run(old(View()), old(sock.script))
      ensures |sock.script| <= |old(sock.script)| && (open ==> |sock.script| < |old(sock.script)|)
    {
      hide Step;
      if part != BodyPart {
        RunStep(View(), sock.script);
        var r := sock.Receive();
        HeadInput(r);
        if !open || part != BodyPart {
          return;
        }
      }
      RunStep(View(), sock.script);
      var r := sock.Receive();
      BodyInput(r);
    }
  }

  lemma StepScans(c: Conn, bytes: seq<byte>)
    requires c.part != BodyPart && c.open && c.body == []
    ensures Step(c, Data(bytes)) == Scan(c.(line := []), c.line + bytes)
  {
    hide Scan;
    ScanIgnores(c, c.line + bytes, []);
  }

  lemma RunStep(c: Conn, script: seq<Recv>)
    requires c.open && Http.Valid(c) && Feasible(c, script)
    ensures var r := if script == [] then Ended else script[0];
            var rest := if script == [] then [] else script[1..];
            && Possible(c, r) && Http.Valid(Step(c, r)) && Feasible(Step(c, r), rest)
            && Run(c, script) == Run(Step(c, r), rest)
            && (script == [] ==> !Step(c, r).open)
  {
    StepValid(c, if script == [] then Ended else script[0]);
  }

  /** A whole connection: requests are answered and handed on as the value model says, and it comes to an end. */
  method Serve(script: seq<Recv>) returns (events: seq<Event>)
    requires Feasible(Fresh([], []), script)
    ensures events == Run(Fresh([], []), script).events
  {
    var c := new Connection();
    var sock := new Socket(script);
    while c.open
      invariant c.Valid() && Http.Valid(c.View()) && Feasible(c.View(), sock.script)
      invariant fresh(c.lineBuf) && (c.open && c.part == BodyPart ==> fresh(c.body))
      invariant Run(c.View(), sock.script) == Run(Fresh([], []), script)
      decreases |sock.script|, c.open
    {
      c.InputIteration(sock);
    }
    events := c.events;
  }
}
