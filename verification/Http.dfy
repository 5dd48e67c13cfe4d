/** The HTTP request reader: what one `recv` does to a connection. */
module Http {
  import opened Bytes
  import C = Chunked

  const LINE_BUF_SIZE: nat := 32768
  const HEADER_BUF_SIZE: nat := 1024
  const BODY_LIMIT: int := 2147483640

  const SPACE: byte := 32
  const TAB: byte := 9
  const COLON: byte := 58
  const SEMICOLON: byte := 59

  function Text(s: string): (b: seq<byte>)
    ensures |b| == |s|
  {
    seq(|s|, i requires 0 <= i < |s| => s[i] as int % 256)
  }

  datatype Method = NoMethod | GET | PUT | POST | HEAD | DELETE | OTHER

  /** The attributes of a request; `length` and `ctype` say that such a header was seen. */
  datatype Attr = Attr(close: bool, host: bool, http10: bool, length: bool, ctype: bool, form: bool, upgrade: bool)

  datatype Request = Request(
    path: Option<seq<byte>>, verb: Method, attr: Attr, contentLength: int, contentType: Option<seq<byte>>,
    wsKey: Option<seq<byte>>, wsProtocol: Option<seq<byte>>, wsVersion: Option<seq<byte>>)

  const NOTHING := Request(None, NoMethod, Attr(false, false, false, false, false, false, false), 0, None, None, None, None)

  datatype Part = RequestPart | HeaderPart | BodyPart

  /** An error answer, or a request handed to the handler with its recorded headers. */
  datatype Event = Answered(code: nat) | Handed(req: Request, recorded: seq<byte>, body: Option<seq<byte>>)

  /** `line` is the used part of the line buffer, `recorded` the recorded header text, `body` what has arrived of
      the body. */
  datatype Conn = Conn(open: bool, part: Part, line: seq<byte>, req: Request, recorded: seq<byte>, body: seq<byte>,
                       events: seq<Event>)

  datatype Recv = Data(bytes: seq<byte>) | Ended | Failed

  function Fresh(line: seq<byte>, events: seq<Event>): Conn {
    Conn(true, RequestPart, line, NOTHING, [], [], events)
  }

  function Shut(events: seq<Event>): Conn {
    Conn(false, RequestPart, [], NOTHING, [], [], events)
  }

  function Reject(c: Conn, code: nat): Conn {
    Shut(c.events + [Answered(code)])
  }

  // Text helpers with the meaning of their C counterparts.

  /** The position of the first `x`, or the length if there is none. */
  function Find(s: seq<byte>, x: byte): (n: nat)
    ensures n <= |s| && (n < |s| ==> s[n] == x) && x !in s[..n]
  {
    if s == [] || s[0] == x then 0 else 1 + Find(s[1..], x)
  }

  function LowerByte(b: byte): byte {
    if 65 <= b <= 90 then b + 32 else b
  }

  function Lower(s: seq<byte>): (r: seq<byte>)
    ensures |r| == |s|
  {
    if s == [] then [] else [LowerByte(s[0])] + Lower(s[1..])
  }

  function SkipBlanks(s: seq<byte>): seq<byte> {
    if s != [] && (s[0] == SPACE || s[0] == TAB) then SkipBlanks(s[1..]) else s
  }

  function IsSpace(b: byte): bool {
    b == SPACE || 9 <= b <= 13
  }

  function Digits(s: seq<byte>, acc: nat): nat {
    if s != [] && 48 <= s[0] <= 57 then Digits(s[1..], 10 * acc + (s[0] - 48)) else acc
  }

  /** `atol`: leading white space, a sign, and digits as far as they go. */
  function Atol(s: seq<byte>): int {
    if s != [] && IsSpace(s[0]) then Atol(s[1..])
    else if s != [] && s[0] == 45 then 0 - Digits(s[1..], 0)
    else if s != [] && s[0] == 43 then Digits(s[1..], 0)
    else Digits(s, 0)
  }

  // The request line and the header lines.

  function MethodOf(line: seq<byte>): Method {
    if Text("GET ") <= line then GET
    else if Text("PUT ") <= line then PUT
    else if Text("POST ") <= line then POST
    else if Text("HEAD ") <= line then HEAD
    else if Text("DELETE ") <= line then DELETE
    else NoMethod
  }

  /** The line has a space, at least 14 characters, and ends in ` HTTP/1.` and one more character. */
  predicate IsRequestLine(line: seq<byte>) {
    && SPACE in line && |line| >= 14
    && line[|line| - 9..|line| - 1] == Text(" HTTP/1.")
  }

  function RequestLine(c: Conn, line: seq<byte>): Conn {
    if !IsRequestLine(line) then Reject(c, 400)
    else
      var sp, n := Find(line, SPACE), |line|;
      var fits := 18 + sp <= HEADER_BUF_SIZE;
      var verb := if MethodOf(line) == NoMethod && fits then OTHER else MethodOf(line);
      if verb == NoMethod then Reject(c, 501)
      else
        var attr := c.req.attr.(http10 := c.req.attr.http10 || line[n - 3..] == Text("1.0"));
        var path := if sp + 1 <= n - 9 then line[sp + 1..n - 9] else line[sp + 1..];
        c.(part := HeaderPart, req := c.req.(path := Some(path), verb := verb, attr := attr),
           recorded := if fits then Text("Request-Method: ") + line[..sp] + [C.LF] else [])
  }

  function HeaderLine(c: Conn, line: seq<byte>): Conn {
    var recorded := if line == [] then c.recorded else c.recorded + line + [C.LF];
    var k := Find(line, COLON);
    c.(recorded := recorded,
       req := if k == |line| then c.req else HeaderField(c.req, Lower(line[..k]), SkipBlanks(line[k + 1..])))
  }

  function HeaderField(r: Request, name: seq<byte>, value: seq<byte>): Request {
    if name == Text("upgrade") && value == Text("websocket") then r.(attr := r.attr.(upgrade := true))
    else if name == Text("content-length") then r.(attr := r.attr.(length := true), contentLength := Atol(value))
    else if name == Text("content-type") then
      var semi := Find(value, SEMICOLON);
      var ctype := Lower(value[..semi]) + value[semi..];
      r.(attr := r.attr.(ctype := true, form := r.attr.form || Text("application/x-www-form-urlencoded") <= ctype),
         contentType := Some(ctype))
    else if name == Text("host") then r.(attr := r.attr.(host := true))
    else if name == Text("connection") then
      r.(attr := r.attr.(close := r.attr.close || Text("close") <= Lower(value)))
    else if name == Text("sec-websocket-key") then r.(wsKey := Some(value))
    else if name == Text("sec-websocket-protocol") then r.(wsProtocol := Some(value))
    else if name == Text("sec-websocket-version") then r.(wsVersion := Some(value))
    else r
  }

  function Line(c: Conn, line: seq<byte>): Conn {
    if c.part == RequestPart then RequestLine(c, line) else HeaderLine(c, line)
  }

  // The end of the head, and the body.

  predicate HasBody(r: Request) {
    r.verb != GET && r.verb != HEAD && r.attr.length && r.contentLength != 0
  }

  /** The connection is kept only for HTTP/1.1 without `Connection: close`. */
  predicate Closes(r: Request) {
    r.attr.close || r.attr.http10
  }

  function EndOfHead(c: Conn, rest: seq<byte>): Conn {
    var r := c.req;
    if !r.attr.http10 && !r.attr.host then Reject(c, 400)
    else if r.attr.length && r.contentLength != 0 && (r.contentLength < 0 || r.contentLength > BODY_LIMIT)
    then Reject(c, 413)
    else if !HasBody(r) then
      if r.attr.length && r.contentLength > 0 then Reject(c, 400)
      else
        var events := c.events + [Handed(r, c.recorded, None)];
        if Closes(r) then Shut(events) else Fresh(rest, events)
    else
      var k := if r.contentLength < |rest| then r.contentLength else |rest|;
      Deliver(c.(part := BodyPart, body := rest[..k], line := rest[..|rest| - k]))
  }

  /** A complete body is handed on; bytes left over in the line buffer close the connection. */
  function Deliver(c: Conn): Conn {
    if |c.body| == c.req.contentLength then
      var events := c.events + [Handed(c.req, c.recorded, Some(c.body))];
      if Closes(c.req) || c.line != [] then Shut(events) else Fresh([], events)
    else c
  }

  // Scanning the line buffer.

  predicate Stops(b: byte) {
    b == C.CR || b == C.LF || b == 0
  }

  /** The length of the line at the front. */
  function Span(s: seq<byte>): (n: nat)
    ensures n <= |s| && (forall i | 0 <= i < n :: !Stops(s[i])) && (n < |s| ==> Stops(s[n]))
  {
    if s == [] || Stops(s[0]) then 0 else 1 + Span(s[1..])
  }

  predicate IsBlank(s: seq<byte>) {
    s != [] && (s[0] == C.LF || (s[0] == C.CR && |s| > 1 && s[1] == C.LF))
  }

  /** Where the next line begins: a line ends in CR LF, in LF, or in CR alone. */
  function NextLine(s: seq<byte>): (n: nat)
    requires Span(s) < |s|
    ensures Span(s) < n <= |s|
  {
    var n := Span(s);
    if s[n] == C.CR && n + 1 < |s| && s[n + 1] == C.LF then n + 2 else n + 1
  }

  /** Work through the line buffer; an incomplete line stays in it. */
  function Scan(c: Conn, s: seq<byte>): Conn
    decreases |s|
  {
    if s == [] || s[0] == 0 then c.(line := [])
    else if IsBlank(s) then EndOfHead(c, s[if s[0] == C.CR then 2 else 1..])
    else if Span(s) == |s| || s[Span(s)] == 0 then c.(line := s)
    else
      var d := Line(c, s[..Span(s)]);
      if d.open then Scan(d, s[NextLine(s)..]) else d
  }

  /** How much the next `recv` asks for. */
  function Room(c: Conn): int {
    if c.part == BodyPart then c.req.contentLength - |c.body| else LINE_BUF_SIZE - |c.line| - 1
  }

  predicate Possible(c: Conn, r: Recv) {
    c.open && (r.Data? ==> 0 < |r.bytes| <= Room(c))
  }

  /** One `recv` and everything up to the next one. */
  function Step(c: Conn, r: Recv): Conn {
    match r
    case Failed => Shut(c.events)
    case Ended =>
      if c.part == BodyPart then Shut(c.events + [Handed(c.req, c.recorded, Some(c.body))])
      else if c.req.path.Some? then Shut(c.events + [Handed(c.req, c.recorded, None)])
      else Shut(c.events)
    case Data(bytes) =>
      if c.part == BodyPart then Deliver(c.(body := c.body + bytes, line := []))
      else Scan(c, c.line + bytes)
  }

  // The invariant of every run.

  /** The line buffer never overflows, and while a body is awaited there is a sensible length and something missing. */
  ghost predicate Valid(c: Conn) {
    c.open ==>
      && |c.line| < LINE_BUF_SIZE
      && (c.part == RequestPart ==> c.req == NOTHING && c.recorded == [])
      && (c.part != RequestPart ==> c.req.path.Some? && c.req.verb != NoMethod)
      && (c.part != BodyPart ==> c.body == [])
      && (c.part == BodyPart ==> HasBody(c.req) && |c.body| < c.req.contentLength <= BODY_LIMIT)
  }

  lemma LineValid(c: Conn, line: seq<byte>)
    requires Valid(c) && c.open && c.part != BodyPart
    ensures var d := Line(c, line); Valid(d) && (d.open ==> d.part == HeaderPart && d.line == c.line && d.events == c.events)
    ensures var d := Line(c, line); !d.open ==> |d.events| == |c.events| + 1 && c.events <= d.events
  {
    hide HeaderField, Text, Find, MethodOf;
    if c.part == HeaderPart {
      var k := Find(line, COLON);
      if k < |line| { HeaderKeeps(c.req, Lower(line[..k]), SkipBlanks(line[k + 1..])); }
    }
  }

  lemma HeaderKeeps(r: Request, name: seq<byte>, value: seq<byte>)
    ensures var q := HeaderField(r, name, value); q.path == r.path && q.verb == r.verb && q.attr.http10 == r.attr.http10
  {
    hide Text, Find, Lower, Atol;
  }

  lemma EndOfHeadValid(c: Conn, rest: seq<byte>)
    requires Valid(c) && c.open && c.part != BodyPart && |rest| < LINE_BUF_SIZE
    ensures var d := EndOfHead(c, rest); Valid(d) && (!d.open ==> |d.events| > |c.events|)
  {}

  lemma {:induction false} ScanValid(c: Conn, s: seq<byte>)
    requires Valid(c) && c.open && c.part != BodyPart && |s| < LINE_BUF_SIZE
    ensures var d := Scan(c, s); Valid(d) && (!d.open ==> |d.events| > |c.events|)
    decreases |s|
  {
    hide Line, EndOfHead;
    if s == [] || s[0] == 0 {
    } else if IsBlank(s) {
      EndOfHeadValid(c, s[if s[0] == C.CR then 2 else 1..]);
    } else if Span(s) < |s| && s[Span(s)] != 0 {
      var d := Line(c, s[..Span(s)]);
      LineValid(c, s[..Span(s)]);
      if d.open { ScanValid(d, s[NextLine(s)..]); }
    }
  }

  /** No run leaves these bounds, so neither the 413 answer to an overlong line nor the branch for a body without a
      buffer is ever reached. */
  lemma StepValid(c: Conn, r: Recv)
    requires Valid(c) && Possible(c, r)
    ensures var d := Step(c, r); Valid(d) && (r.Data? && !d.open ==> |d.events| > |c.events|)
  {
    if r.Data? && c.part != BodyPart { ScanValid(c, c.line + r.bytes); }
  }
}
