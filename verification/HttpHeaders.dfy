/** Single lines: what makes a request line, where a line ends, and what each header line that the reader knows sets. */
module HttpHeaders {
  import opened Bytes
  import opened Http
  import opened HttpStream
  import opened HttpRuns
  import opened HttpMessages
  import C = Chunked

  // Names and values in any case.

  /** A letter in either case, or another character as it is. */
  predicate Writes(b: byte, ch: char) {
    b == ch as int || ('a' <= ch <= 'z' && b == ch as int - 32)
  }

  /** The bytes spell this lower-case word, with any of its letters in upper case. */
  predicate Spells(s: seq<byte>, word: string) {
    |s| == |word| && forall i | 0 <= i < |s| :: Writes(s[i], word[i])
  }

  predicate LowerCase(word: string) {
    forall i | 0 <= i < |word| :: 'a' <= word[i] <= 'z' || word[i] == '-'
  }

  predicate Begins(s: seq<byte>, word: string) {
    |word| <= |s| && Spells(s[..|word|], word)
  }

  lemma {:induction false} LowerAt(s: seq<byte>, i: nat)
    requires i < |s|
    ensures Lower(s)[i] == if 65 <= s[i] <= 90 then s[i] + 32 else s[i]
  {
    if i > 0 { LowerAt(s[1..], i - 1); }
  }

  lemma SpellsWord(s: seq<byte>, word: string)
    requires LowerCase(word) && |s| == |word|
    ensures Spells(s, word) <==> Lower(s) == Text(word)
    ensures Spells(s, word) ==> COLON !in s
  {
    var t, w := Lower(s), Text(word);
    forall i | 0 <= i < |s| ensures (t[i] == w[i] <==> Writes(s[i], word[i])) && (Writes(s[i], word[i]) ==> s[i] != COLON) {
      WritesOne(s, word, i);
    }
    hide Lower, Text, LowerCase, Writes;
  }

  lemma WritesOne(s: seq<byte>, word: string, i: nat)
    requires LowerCase(word) && i < |s| == |word|
    ensures Lower(s)[i] == Text(word)[i] <==> Writes(s[i], word[i])
    ensures Writes(s[i], word[i]) ==> s[i] != COLON
  {
    LowerAt(s, i);
    assert 'a' <= word[i] <= 'z' || word[i] == '-';
  }

  lemma BeginsWord(s: seq<byte>, word: string)
    requires LowerCase(word)
    ensures Begins(s, word) <==> Text(word) <= Lower(s)
  {
    if |word| <= |s| {
      SpellsWord(s[..|word|], word);
      forall i | 0 <= i < |word| ensures Lower(s[..|word|])[i] == Lower(s)[i] { LowerAt(s, i); LowerAt(s[..|word|], i); }
      assert Lower(s)[..|word|] == Lower(s[..|word|]);
      hide Spells, Lower, Text;
    }
  }

  // A header line.

  predicate Blanks(s: seq<byte>) {
    forall i | 0 <= i < |s| :: s[i] == SPACE || s[i] == TAB
  }

  /** A name, a colon, blanks, and a value that does not begin with one. */
  function Field(name: seq<byte>, blanks: seq<byte>, value: seq<byte>): seq<byte> {
    name + [COLON] + (blanks + value)
  }

  predicate IsField(name: seq<byte>, blanks: seq<byte>, value: seq<byte>) {
    COLON !in name && Blanks(blanks) && (value != [] ==> value[0] != SPACE && value[0] != TAB)
  }

  lemma {:induction false} BlanksSkipped(blanks: seq<byte>, value: seq<byte>)
    requires Blanks(blanks) && (value != [] ==> value[0] != SPACE && value[0] != TAB)
    ensures SkipBlanks(blanks + value) == value
  {
    if blanks == [] {
      assert blanks + value == value;
    } else {
      assert (blanks + value)[1..] == blanks[1..] + value;
      BlanksSkipped(blanks[1..], value);
    }
  }

  lemma FieldTaken(c: Conn, name: seq<byte>, blanks: seq<byte>, value: seq<byte>)
    requires c.part == HeaderPart && IsField(name, blanks, value)
    ensures Line(c, Field(name, blanks, value)).req == HeaderField(c.req, Lower(name), value)
  {
    hide HeaderField, Lower;
    var line := Field(name, blanks, value);
    FindFirst(name, COLON, blanks + value);
    BlanksSkipped(blanks, value);
    assert line[..|name|] == name && line[|name| + 1..] == blanks + value;
    hide Find, SkipBlanks;
  }

  lemma NameLengths()
    ensures |Text("upgrade")| == 7 && |Text("content-length")| == 14 && |Text("content-type")| == 12 && |Text("host")| == 4
    ensures |Text("connection")| == 10 && |Text("sec-websocket-key")| == 17 && |Text("sec-websocket-protocol")| == 22
    ensures |Text("sec-websocket-version")| == 21
  {
    assert |"upgrade"| == 7 && |"content-length"| == 14 && |"content-type"| == 12 && |"host"| == 4;
    assert |"connection"| == 10 && |"sec-websocket-key"| == 17 && |"sec-websocket-protocol"| == 22;
    assert |"sec-websocket-version"| == 21;
  }

  /** `Connection`, in any case, asks to close exactly if its value begins with `close`, in any case. */
  lemma ConnectionLine(c: Conn, name: seq<byte>, blanks: seq<byte>, value: seq<byte>)
    requires c.part == HeaderPart && IsField(name, blanks, value) && Spells(name, "connection")
    ensures var r := c.req;
            Line(c, Field(name, blanks, value)).req == r.(attr := r.attr.(close := r.attr.close || Begins(value, "close")))
  {
    FieldTaken(c, name, blanks, value);
    SpellsWord(name, "connection");
    BeginsWord(value, "close");
    NameLengths();
    hide Line, Text, Lower, Spells, Begins, Find, Atol;
  }

  lemma HostLine(c: Conn, name: seq<byte>, blanks: seq<byte>, value: seq<byte>)
    requires c.part == HeaderPart && IsField(name, blanks, value) && Spells(name, "host")
    ensures Line(c, Field(name, blanks, value)).req == c.req.(attr := c.req.attr.(host := true))
  {
    FieldTaken(c, name, blanks, value);
    SpellsWord(name, "host");
    NameLengths();
    hide Line, Text, Lower, Spells, Find, Atol;
  }

  /** The value must be `websocket` as it stands. */
  lemma UpgradeLine(c: Conn, name: seq<byte>, blanks: seq<byte>, value: seq<byte>)
    requires c.part == HeaderPart && IsField(name, blanks, value) && Spells(name, "upgrade")
    ensures var r := c.req;
            Line(c, Field(name, blanks, value)).req ==
            if value == Text("websocket") then r.(attr := r.attr.(upgrade := true)) else r
  {
    FieldTaken(c, name, blanks, value);
    SpellsWord(name, "upgrade");
    NameLengths();
    hide Line, Text, Lower, Spells, Find, Atol;
  }

  lemma WebSocketLine(c: Conn, name: seq<byte>, blanks: seq<byte>, value: seq<byte>)
    requires c.part == HeaderPart && IsField(name, blanks, value)
    ensures var q, r := Line(c, Field(name, blanks, value)).req, c.req;
            && (Spells(name, "sec-websocket-key") ==> q == r.(wsKey := Some(value)))
            && (Spells(name, "sec-websocket-protocol") ==> q == r.(wsProtocol := Some(value)))
            && (Spells(name, "sec-websocket-version") ==> q == r.(wsVersion := Some(value)))
  {
    hide *;
    FieldTaken(c, name, blanks, value);
    AllLowerCase();
    if Spells(name, "sec-websocket-key") { SpelledOut(name, "sec-websocket-key"); KeyField(c.req, value); }
    if Spells(name, "sec-websocket-protocol") { SpelledOut(name, "sec-websocket-protocol"); ProtocolField(c.req, value); }
    if Spells(name, "sec-websocket-version") { SpelledOut(name, "sec-websocket-version"); VersionField(c.req, value); }
  }

  lemma AllLowerCase()
    ensures LowerCase("connection") && LowerCase("host") && LowerCase("upgrade") && LowerCase("content-type")
    ensures LowerCase("content-length") && LowerCase("sec-websocket-key")
    ensures LowerCase("sec-websocket-protocol") && LowerCase("sec-websocket-version")
  {}

  lemma SpelledOut(name: seq<byte>, word: string)
    requires LowerCase(word) && Spells(name, word)
    ensures Lower(name) == Text(word)
  {
    SpellsWord(name, word);
  }

  lemma KeyField(r: Request, value: seq<byte>)
    ensures HeaderField(r, Text("sec-websocket-key"), value) == r.(wsKey := Some(value))
  {
    NameLengths();
    hide Text, Lower, Find, Atol;
  }

  lemma ProtocolField(r: Request, value: seq<byte>)
    ensures HeaderField(r, Text("sec-websocket-protocol"), value) == r.(wsProtocol := Some(value))
  {
    NameLengths();
    hide Text, Lower, Find, Atol;
  }

  lemma VersionField(r: Request, value: seq<byte>)
    ensures HeaderField(r, Text("sec-websocket-version"), value) == r.(wsVersion := Some(value))
  {
    NameLengths();
    hide Text, Lower, Find, Atol;
  }

  predicate SemicolonBy(value: seq<byte>, i: nat)
    requires i < |value|
  {
    exists j | 0 <= j <= i :: value[j] == SEMICOLON
  }

  /** The content type in lower case up to the first semicolon, as it stands from there on. */
  predicate IsTypeOf(t: seq<byte>, value: seq<byte>) {
    |t| == |value| && forall i | 0 <= i < |t| ::
      t[i] == if !SemicolonBy(value, i) && 65 <= value[i] <= 90 then value[i] + 32 else value[i]
  }

  lemma TypeOf(value: seq<byte>)
    ensures var semi := Find(value, SEMICOLON); IsTypeOf(Lower(value[..semi]) + value[semi..], value)
  {
    var semi := Find(value, SEMICOLON);
    forall i | 0 <= i < semi ensures Lower(value[..semi])[i] == (if 65 <= value[i] <= 90 then value[i] + 32 else value[i])
    { LowerAt(value[..semi], i); }
    forall i | 0 <= i < |value| ensures SemicolonBy(value, i) <==> semi <= i {
      if i < semi { assert forall j | 0 <= j <= i :: value[j] == value[..semi][j]; }
    }
  }

  lemma ContentTypeLine(c: Conn, name: seq<byte>, blanks: seq<byte>, value: seq<byte>)
    requires c.part == HeaderPart && IsField(name, blanks, value) && Spells(name, "content-type")
    ensures var q, r := Line(c, Field(name, blanks, value)).req, c.req;
            && q.contentType.Some? && IsTypeOf(q.contentType.value, value)
            && q == r.(contentType := q.contentType, attr := r.attr.(ctype := true,
                  form := r.attr.form || Text("application/x-www-form-urlencoded") <= q.contentType.value))
  {
    FieldTaken(c, name, blanks, value);
    SpellsWord(name, "content-type");
    NameLengths();
    TypeOf(value);
    hide Line, Text, Lower, Spells, Find, Atol, IsTypeOf;
  }

  /** Every other line sets nothing; it is only recorded. */
  lemma OtherLine(c: Conn, name: seq<byte>, blanks: seq<byte>, value: seq<byte>)
    requires c.part == HeaderPart && IsField(name, blanks, value)
    requires !Spells(name, "connection") && !Spells(name, "host") && !Spells(name, "upgrade") && !Spells(name, "content-type")
    requires !Spells(name, "content-length") && !Spells(name, "sec-websocket-key")
    requires !Spells(name, "sec-websocket-protocol") && !Spells(name, "sec-websocket-version")
    ensures Line(c, Field(name, blanks, value)).req == c.req
  {
    hide *;
    FieldTaken(c, name, blanks, value);
    AllLowerCase();
    NotSpelled(name, "connection");
    NotSpelled(name, "host");
    NotSpelled(name, "upgrade");
    NotSpelled(name, "content-type");
    NotSpelled(name, "content-length");
    NotSpelled(name, "sec-websocket-key");
    NotSpelled(name, "sec-websocket-protocol");
    NotSpelled(name, "sec-websocket-version");
    OtherField(c.req, Lower(name), value);
  }

  lemma NotSpelled(name: seq<byte>, word: string)
    requires LowerCase(word) && !Spells(name, word)
    ensures Lower(name) != Text(word)
  {
    if |name| == |word| { SpellsWord(name, word); }
  }

  lemma OtherField(r: Request, name: seq<byte>, value: seq<byte>)
    requires name != Text("connection") && name != Text("host") && name != Text("upgrade") && name != Text("content-type")
    requires name != Text("content-length") && name != Text("sec-websocket-key")
    requires name != Text("sec-websocket-protocol") && name != Text("sec-websocket-version")
    ensures HeaderField(r, name, value) == r
  {
    hide Text, Find, Lower, Atol;
  }

  // The request line.

  predicate EndsInVersion(line: seq<byte>, start: seq<byte>, version: byte) {
    line == start + Text(" HTTP/1.") + [version]
  }

  /** Refused as malformed exactly if there are not five bytes in front of ` HTTP/1.` and a last one. */
  lemma RequestLineExact(line: seq<byte>)
    ensures Line(Fresh([], []), line) == Shut([Answered(400)]) <==>
            forall start, version :: EndsInVersion(line, start, version) ==> |start| < 5
  {
    hide MethodOf;
    TailLength();
    hide Text, Find;
    assert [] + [Answered(400)] == [Answered(400)] && [] + [Answered(501)] == [Answered(501)] != [Answered(400)];
    if IsRequestLine(line) {
      var n := |line|;
      var start, version := line[..n - 9], line[n - 1];
      assert line == line[..n - 9] + line[n - 9..n - 1] + [line[n - 1]];
      assert EndsInVersion(line, start, version);
    }
    forall start, version | EndsInVersion(line, start, version) && |start| >= 5 ensures IsRequestLine(line) {
      HasTail(line, start, version);
    }
  }

  /** Without a target the version is taken for it. */
  lemma NoTargetLine(name: seq<byte>, version: byte)
    requires SPACE !in name && |name| >= 5
    ensures var d := Line(Fresh([], []), name + Text(" HTTP/1.") + [version]);
            && (d.open <==> VerbOf(name) != NoMethod || |name| <= 1006)
            && (d.open ==> d.req.path == Some(Text(" HTTP/1.")[1..] + [version])
                           && d.req.verb == if VerbOf(name) == NoMethod then OTHER else VerbOf(name))
  {
    hide MethodOf, VerbOf, Text, Find;
    var tail := Text(" HTTP/1.");
    var line := name + tail + [version];
    TailLength();
    assert EndsInVersion(line, name, version);
    HasTail(line, name, version);
    assert line == name + [SPACE] + (tail[1..] + [version]);
    MethodByName(name, tail[1..] + [version]);
    FindFirst(name, SPACE, tail[1..] + [version]);
    assert line[|name| + 1..] == tail[1..] + [version];
  }

  lemma TailLength()
    ensures |Text(" HTTP/1.")| == 8 && Text(" HTTP/1.")[0] == SPACE
  {
    assert |" HTTP/1."| == 8;
  }

  lemma HasTail(line: seq<byte>, start: seq<byte>, version: byte)
    requires EndsInVersion(line, start, version) && |start| >= 5
    ensures IsRequestLine(line)
  {
    TailLength();
    hide Text;
    var tail := Text(" HTTP/1.");
    assert line[|start|] == tail[0] == SPACE;
    assert line[|line| - 9..|line| - 1] == tail;
  }

  // Line ends.

  /** CR LF, LF alone, or a CR alone. */
  predicate EndsLine(eol: seq<byte>, r: seq<byte>) {
    eol == [C.CR, C.LF] || eol == [C.LF] || (eol == [C.CR] && (r == [] || r[0] != C.LF))
  }

  /** A line is taken however it ends, and the scan goes on behind its end. */
  lemma LineEnds(c: Conn, line: seq<byte>, eol: seq<byte>, r: seq<byte>)
    requires Plain(line) && EndsLine(eol, r)
    ensures Scan(c, line + (eol + r)) == if Line(c, line).open then Scan(Line(c, line), r) else Line(c, line)
  {
    hide Line, Scan, Span;
    var s := line + (eol + r);
    SpanOfLine(line, eol + r);
    assert s[..|line|] == line && s[|line|..] == eol + r;
    assert s[NextLine(s)..] == r by { assert NextLine(s) == |line| + |eol|; }
    ScanLine(c, s);
  }

  /** A blank line ends the head, with or without a CR. */
  lemma BlankEnds(c: Conn, eol: seq<byte>, rest: seq<byte>)
    requires eol == [C.CR, C.LF] || eol == [C.LF]
    ensures Scan(c, eol + rest) == EndOfHead(c, rest)
  {
    assert (eol + rest)[|eol|..] == rest;
    hide EndOfHead;
  }

  /** A NUL inside a line keeps the line from ever ending; at the beginning of one it makes the reader drop all it has. */
  lemma NulStops(c: Conn, part: seq<byte>, r: seq<byte>)
    requires NoStop(part)
    ensures Scan(c, part + ([0] + r)) == c.(line := if part == [] then [] else part + ([0] + r))
  {
    var s := part + ([0] + r);
    SpanOfLine(part, [0] + r);
    assert s[|part|] == 0;
    hide Span;
  }
}
