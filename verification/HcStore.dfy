/** The HTTP back end: a buffer that decides what is accumulated and what is sent as a chunk of its own. */
module HcStore {
  import opened Bytes
  import opened Values
  import opened Chunked
  import opened Schedules

  const MAX_CHUNK_SIZE: nat := 1024 * 1024 * 16
  const MIN_INPLACE_SIZE: nat := 1024 * 1024 * 2

  /** The chunks sent so far and the bytes waiting in the buffer. */
  datatype Hc = Hc(chunks: seq<seq<byte>>, buf: seq<byte>)

  /** `api->len - api->pos` on `size_t`. */
  function Room(len: nat, pos: nat): nat {
    (len - pos) % WORD
  }

  /** `buf_add` while sends succeed; `min` is the in-place threshold, `len` the declared buffer length. */
  function Step(min: nat, len: nat, h: Hc, what: seq<byte>): Hc {
    var h1 := if |what| > Room(len, |h.buf|) && (|h.buf| >= min || |what| >= min)
              then Hc(h.chunks + [h.buf], []) else h;
    if h1.buf == [] && |what| >= min then Hc(h1.chunks + [what], [])
    else Hc(h1.chunks, h1.buf + what)
  }

  /** Everything taken in: sent payloads, then the buffer. */
  function Data(h: Hc): seq<byte> {
    Concat(h.chunks) + h.buf
  }

  /** No byte is lost, repeated or reordered, whatever the sizes are. */
  lemma StepKeepsData(min: nat, len: nat, h: Hc, what: seq<byte>)
    ensures Data(Step(min, len, h, what)) == Data(h) + what
  {
    var h1 := if |what| > Room(len, |h.buf|) && (|h.buf| >= min || |what| >= min)
              then Hc(h.chunks + [h.buf], []) else h;
    ConcatLast(h.chunks, h.buf);
    assert Data(h1) == Data(h);
    ConcatLast(h1.chunks, what);
    Assoc(Concat(h1.chunks), h1.buf, what);
    assert h1.buf == [] ==> Data(h1) == Concat(h1.chunks);
  }

  /** What is in the buffer never exceeds the `cap` bytes that were allocated. */
  predicate Stays(min: nat, len: nat, cap: nat, h: Hc, inputs: seq<seq<byte>>)
    decreases |inputs|
  {
    |h.buf| <= cap && (inputs == [] || Stays(min, len, cap, Step(min, len, h, inputs[0]), inputs[1..]))
  }

  lemma StepStays(min: nat, len: nat, h: Hc, what: seq<byte>)
    requires 2 <= min && 2 * min - 2 <= len < WORD && |h.buf| <= len
    ensures |Step(min, len, h, what).buf| <= len
  {}

  lemma {:induction false} RunStays(min: nat, len: nat, cap: nat, h: Hc, inputs: seq<seq<byte>>)
    requires 2 <= min && 2 * min - 2 <= len <= cap && len < WORD && |h.buf| <= len
    ensures Stays(min, len, cap, h, inputs)
    decreases |inputs|
  {
    if inputs != [] {
      StepStays(min, len, h, inputs[0]);
      RunStays(min, len, cap, Step(min, len, h, inputs[0]), inputs[1..]);
    }
  }

  lemma StaysFacts(min: nat, len: nat, cap: nat, h: Hc, inputs: seq<seq<byte>>)
    ensures Stays(min, len, cap, h, inputs) ==> |h.buf| <= cap
    ensures Sound(min, len, cap) && |h.buf| <= len ==> Stays(min, len, cap, h, inputs)
  {
    if Sound(min, len, cap) && |h.buf| <= len { RunStays(min, len, cap, h, inputs); }
  }

  /** One store call: the header, then the payload if there is a buffer. */
  function CallStep(min: nat, len: nat, h: Hc, c: Call): Hc {
    var g := Step(min, len, h, Header(c.ts, c.len));
    if c.buf.Some? then Step(min, len, g, c.buf.value) else g
  }

  /** What a call hands to `buf_add`: its header, and behind it the payload if there is a buffer. */
  function InputsOf(c: Call): seq<seq<byte>> {
    [Header(c.ts, c.len)] + if c.buf.Some? then [c.buf.value] else []
  }

  function Inputs(calls: seq<Call>): seq<seq<byte>> {
    if calls == [] then [] else InputsOf(calls[0]) + Inputs(calls[1..])
  }

  function Run(min: nat, len: nat, h: Hc, inputs: seq<seq<byte>>): Hc
    decreases |inputs|
  {
    if inputs == [] then h else Run(min, len, Step(min, len, h, inputs[0]), inputs[1..])
  }

  function CallRun(min: nat, len: nat, h: Hc, calls: seq<Call>): Hc {
    Run(min, len, h, Inputs(calls))
  }

  lemma {:induction false} InputsAppend(a: seq<Call>, b: seq<Call>)
    ensures Inputs(a + b) == Inputs(a) + Inputs(b)
  {
    if a == [] {
      assert a + b == b;
    } else {
      assert (a + b)[0] == a[0] && (a + b)[1..] == a[1..] + b;
      InputsAppend(a[1..], b);
      Assoc(InputsOf(a[0]), Inputs(a[1..]), Inputs(b));
    }
  }

  lemma InputsSnoc(calls: seq<Call>, c: Call)
    ensures Inputs(calls + [c]) == Inputs(calls) + InputsOf(c)
  {
    InputsAppend(calls, [c]);
    assert [c][1..] == [] && InputsOf(c) + [] == InputsOf(c);
  }

  lemma {:induction false} InputsAreFlat(calls: seq<Call>)
    ensures Concat(Inputs(calls)) == Flat(calls)
  {
    if calls != [] {
      InputsAreFlat(calls[1..]);
      ConcatAppend(InputsOf(calls[0]), Inputs(calls[1..]));
      InputsOfAreFlat(calls[0]);
    }
  }

  lemma InputsOfAreFlat(c: Call)
    ensures Concat(InputsOf(c)) == CallBytes(c)
  {
    var hdr := Header(c.ts, c.len);
    var none: seq<seq<byte>> := [];
    ConcatLast(none, hdr);
    assert none + [hdr] == [hdr];
    if c.buf.Some? { ConcatLast([hdr], c.buf.value); }
  }

  lemma {:induction false} RunAppend(min: nat, len: nat, cap: nat, h: Hc, a: seq<seq<byte>>, b: seq<seq<byte>>)
    ensures Run(min, len, h, a + b) == Run(min, len, Run(min, len, h, a), b)
    ensures Stays(min, len, cap, h, a + b) <==> Stays(min, len, cap, h, a) && Stays(min, len, cap, Run(min, len, h, a), b)
    decreases |a|
  {
    if a == [] {
      assert a + b == b;
    } else {
      assert (a + b)[0] == a[0] && (a + b)[1..] == a[1..] + b;
      RunAppend(min, len, cap, Step(min, len, h, a[0]), a[1..], b);
    }
  }

  lemma RunCall(min: nat, len: nat, cap: nat, h: Hc, c: Call)
    ensures Run(min, len, h, InputsOf(c)) == CallStep(min, len, h, c)
    ensures Stays(min, len, cap, h, InputsOf(c)) <==>
              |h.buf| <= cap && |Step(min, len, h, Header(c.ts, c.len)).buf| <= cap && |CallStep(min, len, h, c).buf| <= cap
  {
    hide Header, Step;
    var hdr := Header(c.ts, c.len);
    var g := Step(min, len, h, hdr);
    var none: seq<seq<byte>> := [];
    assert [hdr][1..] == none;
    if c.buf.Some? {
      var what := c.buf.value;
      assert InputsOf(c)[0] == hdr && InputsOf(c)[1..] == [what] && [what][1..] == none;
      assert Run(min, len, g, [what]) == Step(min, len, g, what);
      assert Stays(min, len, cap, Step(min, len, g, what), none) <==> |Step(min, len, g, what).buf| <= cap;
    }
  }

  /** One more call: it is carried out on the buffer the others left. */
  lemma CallRunSnoc(min: nat, len: nat, cap: nat, h: Hc, calls: seq<Call>, c: Call)
    ensures var g := CallRun(min, len, h, calls);
            && CallRun(min, len, h, calls + [c]) == CallStep(min, len, g, c)
            && (Stays(min, len, cap, h, Inputs(calls + [c])) <==>
                  && Stays(min, len, cap, h, Inputs(calls)) && |g.buf| <= cap
                  && |Step(min, len, g, Header(c.ts, c.len)).buf| <= cap && |CallStep(min, len, g, c).buf| <= cap)
  {
    hide Step, Stays, Run, CallStep, InputsOf, Inputs;
    InputsSnoc(calls, c);
    RunAppend(min, len, cap, h, Inputs(calls), InputsOf(c));
    RunCall(min, len, cap, CallRun(min, len, h, calls), c);
  }

  predicate NoEmptyChunk(chunks: seq<seq<byte>>) {
    forall i | 0 <= i < |chunks| :: chunks[i] != []
  }

  /** Sizes for which no copy overruns: the length between twice the threshold, less two, and what was allocated. */
  predicate Sound(min: nat, len: nat, cap: nat) {
    HEADER_SIZE < min && 2 * min - 2 <= len <= cap && len < WORD
  }

  /** The header goes first and always stays in the buffer, so no payload can flush an empty buffer, whatever the
      declared length is. */
  lemma CallStepChunks(min: nat, len: nat, h: Hc, c: Call)
    requires HEADER_SIZE < min && NoEmptyChunk(h.chunks)
    ensures var g := CallStep(min, len, h, c); NoEmptyChunk(g.chunks) && Data(g) == Data(h) + CallBytes(c)
  {
    var hdr := Header(c.ts, c.len);
    var g := Step(min, len, h, hdr);
    assert g.buf != [] && NoEmptyChunk(g.chunks);
    StepKeepsData(min, len, h, hdr);
    StepKeepsData(min, len, g, Payload(c));
    Assoc(Data(h), hdr, Payload(c));
  }

  lemma {:induction false} CallRunChunks(min: nat, len: nat, h: Hc, calls: seq<Call>)
    requires HEADER_SIZE < min && NoEmptyChunk(h.chunks)
    ensures var g := CallRun(min, len, h, calls); NoEmptyChunk(g.chunks) && Data(g) == Data(h) + Flat(calls)
    decreases |calls|
  {
    if calls == [] {
      assert Data(h) + Flat([]) == Data(h);
    } else {
      var front, last := calls[..|calls| - 1], calls[|calls| - 1];
      assert calls == front + [last];
      CallRunSnoc(min, len, 0, h, front, last);
      CallRunChunks(min, len, h, front);
      CallStepChunks(min, len, CallRun(min, len, h, front), last);
      FlatSnoc(front, last);
      Assoc(Data(h), Flat(front), CallBytes(last));
    }
  }

  /** The chunks of a finished store: what was sent, then the rest of the buffer if there is any. */
  function AllChunks(h: Hc): seq<seq<byte>> {
    if h.buf == [] then h.chunks else h.chunks + [h.buf]
  }

  /** The whole response body: those chunks and the empty one. */
  function Emitted(h: Hc): seq<byte> {
    Wire(AllChunks(h)) + ChunkBytes([])
  }

  /** A receiver recovers the bytes the buffer started with followed by the flat encoding, and leaves what follows,
      whatever the declared length is; so it recovers the encoding exactly when the buffer started empty. */
  lemma StreamIsFaithful(min: nat, len: nat, unset: seq<byte>, v: Sexp, r: seq<byte>)
    requires HEADER_SIZE < min
    ensures var h := CallRun(min, len, Hc([], unset), Calls(v));
            && NoEmptyChunk(AllChunks(h))
            && ReadChunks(Emitted(h) + r) == Some((unset + Encode(v), r))
    ensures ReadChunks(Emitted(CallRun(min, len, Hc([], unset), Calls(v))) + r) == Some((Encode(v), r)) <==> unset == []
  {
    var h0 := Hc([], unset);
    var h := CallRun(min, len, h0, Calls(v));
    CallRunChunks(min, len, h0, Calls(v));
    assert Data(h0) == unset;
    ConcatLast(h.chunks, h.buf);
    assert Concat(AllChunks(h)) == Data(h);
    WireReads(AllChunks(h), r);
    Assoc(Wire(AllChunks(h)), ChunkBytes([]), r);
    if unset != [] { assert |unset + Encode(v)| > |Encode(v)|; } else { assert unset + Encode(v) == Encode(v); }
  }

  /** Why the header must come first: a long input into an empty buffer sends an empty chunk, and a
      receiver takes that for the end of the message. */
  lemma EmptyFlushEndsMessage(min: nat, len: nat, what: seq<byte>, r: seq<byte>)
    requires 0 < min && 2 * min - 2 <= len < |what| < WORD && min <= |what|
    ensures var h := Step(min, len, Hc([], []), what);
            h.chunks == [[], what] && ReadChunks(Wire(h.chunks) + r) == Some(([], ChunkBytes(what) + r))
  {
    var h := Step(min, len, Hc([], []), what);
    WireSnoc([], []);
    WireSnoc([[]], what);
    var none: seq<seq<byte>> := [];
    assert none + [[]] == [[]] && h.chunks == [[]] + [what];
    assert Wire([[]]) == Wire(none) + ChunkBytes([]) == ChunkBytes([]);
    Assoc(ChunkBytes([]), ChunkBytes(what), r);
    LastChunkReads(ChunkBytes(what) + r);
  }

  // How the chunks fare on a connection.

  function SendChunks(script: seq<int>, chunks: seq<seq<byte>>): (r: Sending)
    ensures r.took <= |Wire(chunks)| && (r.code == 0 ==> r.took == |Wire(chunks)|)
  {
    PiecesAreWire(chunks);
    SendAll(script, Pieces(chunks), MAX_SEND)
  }

  /** One chunk more is sent if the others went through, and otherwise changes nothing. */
  lemma OneChunkMore(script: seq<int>, chunks: seq<seq<byte>>, c: seq<byte>)
    ensures var s, r := SendChunks(script, chunks), SendChunks(script, chunks + [c]);
            if s.code != 0 then r == s && Wire(chunks + [c])[..r.took] == Wire(chunks)[..s.took]
            else
              var t := SendAll(s.script, PiecesOf(c), MAX_SEND);
              && t.took <= |ChunkBytes(c)| && r == t.(took := s.took + t.took)
              && Wire(chunks + [c])[..r.took] == Wire(chunks)[..s.took] + ChunkBytes(c)[..t.took]
  {
    hide SendAll, Wire, ChunkBytes, Pieces, PiecesOf, Concat;
    PiecesSnoc(chunks, c);
    WireSnoc(chunks, c);
    PiecesOfChunk(c);
    SendAllAppend(script, Pieces(chunks), PiecesOf(c), MAX_SEND);
  }

  lemma MoreChunks(script: seq<int>, min: nat, len: nat, h: Hc, what: seq<byte>)
    requires SendChunks(script, h.chunks).code != 0
    ensures var g := Step(min, len, h, what);
            var s := SendChunks(script, h.chunks);
            SendChunks(script, g.chunks) == s && Wire(g.chunks)[..s.took] == Wire(h.chunks)[..s.took]
  {
    hide SendChunks, Wire;
    var h1 := if |what| > Room(len, |h.buf|) && (|h.buf| >= min || |what| >= min)
              then Hc(h.chunks + [h.buf], []) else h;
    OneChunkMore(script, h.chunks, h.buf);
    OneChunkMore(script, h1.chunks, what);
  }

  class Store {
    const conn: Connection
    const buf: array<byte>
    var res: int
    const len: nat
    var pos: nat
    var overrun: bool          // a copy has run past the end of `buf`; nothing is known from then on
    ghost var h: Hc            // what the buffer and the chunks come to if nothing fails
    ghost const start: Hc
    ghost var log: seq<Call>
    ghost const base: seq<byte>
    ghost const script: seq<int>

    /** These chunks have been sent, up to the first send that failed. */
    ghost predicate Sent(chunks: seq<seq<byte>>, code: int)
      reads this, conn
    {
      var s := SendChunks(script, chunks);
      code == s.code && conn.script == s.script && conn.sent == base + Wire(chunks)[..s.took]
    }

    /** While no copy has run past the end, the connection carries the chunks of `h` as far as the sends went, and while
        none of them has failed the buffer holds the rest. */
    ghost predicate Tracks()
      reads this, conn, buf
    {
      && buf.Length < WORD
      && (!overrun ==> Sent(h.chunks, res) && (res == 0 ==> pos <= buf.Length && buf[..pos] == h.buf))
    }

    /** Whether the calls made so far stay inside the buffer. */
    ghost predicate Inside()
      reads this, buf
    {
      Stays(MIN_INPLACE_SIZE, len, buf.Length, start, Inputs(log))
    }

    /** A copy has run past the end only if the calls say so, and while no send has failed, exactly then. */
    ghost predicate Valid()
      reads this, conn, buf
    {
      && Tracks() && (overrun ==> !Inside()) && (res == 0 && !overrun ==> Inside())
      && (!overrun ==> h == CallRun(MIN_INPLACE_SIZE, len, start, log))
    }

    /** `len` and `pos` are whatever the allocation left in the structure; nothing sets them. */
    constructor (conn: Connection, buf: array<byte>, len: nat, pos: nat)
      requires buf.Length < WORD
      ensures Valid() && res == 0 && log == [] && base == conn.sent && script == conn.script
      ensures overrun <==> pos > buf.Length
      ensures start.chunks == [] && |start.buf| == pos && (pos <= buf.Length ==> start.buf == buf[..pos])
      ensures this.conn == conn && this.buf == buf && this.len == len
    {
      this.conn, this.buf, this.len, this.pos := conn, buf, len, pos;
      res, log, base, overrun, script := 0, [], conn.sent, pos > buf.Length, conn.script;
      h := Hc([], if pos <= buf.Length then buf[..pos] else seq(pos, i => 0));
      start := Hc([], if pos <= buf.Length then buf[..pos] else seq(pos, i => 0));
      new;
      assert conn.sent == base + Wire([])[..0];
    }

    /** Send one chunk. */
    method Emit(data: seq<byte>)
      requires Sent(h.chunks, res) && res == 0 && |data| < WORD
      modifies this`res, conn
      ensures Sent(h.chunks + [data], res)
    {
      hide SendChunks, Wire, SendAll, ChunkBytes;
      ghost var s := SendChunks(script, h.chunks);
      OneChunkMore(script, h.chunks, data);
      ghost var t := SendAll(s.script, PiecesOf(data), MAX_SEND);
      res := conn.SendChunk(data);
      Assoc(base, Wire(h.chunks)[..s.took], ChunkBytes(data)[..t.took]);
    }

    /** Send the buffer; with nothing in it, that is the chunk that ends the message. */
    method Flush()
      requires Tracks() && res == 0 && !overrun
      modifies this`res, this`pos, this`h, conn
      ensures Tracks() && (res == 0 ==> pos == 0) && h == Hc(old(h).chunks + [old(h).buf], [])
    {
      hide SendChunks, Wire;
      Emit(buf[..pos]);
      if res == 0 { pos := 0; }
      h := Hc(h.chunks + [h.buf], []);
    }

    method BufAdd(what: seq<byte>)
      requires Tracks() && |what| < WORD
      modifies this`res, this`pos, this`overrun, this`h, conn, buf
      ensures Tracks()
      ensures old(res != 0 || overrun) ==> res == old(res) && overrun == old(overrun) && conn.sent == old(conn.sent)
      ensures !overrun ==> !old(overrun) && h == Step(MIN_INPLACE_SIZE, len, old(h), what)
      ensures res == 0 ==> old(res) == 0
      ensures overrun && !old(overrun) ==> res == old(res) == 0 && |Step(MIN_INPLACE_SIZE, len, old(h), what).buf| > buf.Length
    {
      hide SendChunks, Wire;
      if overrun { return; }
      if res != 0 {
        MoreChunks(script, MIN_INPLACE_SIZE, len, h, what);
        h := Step(MIN_INPLACE_SIZE, len, h, what);
        return;
      }
      ghost var g := h;
      if |what| > (len - pos) % WORD && (pos >= MIN_INPLACE_SIZE || |what| >= MIN_INPLACE_SIZE) {
        Flush();
        if res != 0 {
          Rest(g, what);
          return;
        }
      }
      if pos == 0 && |what| >= MIN_INPLACE_SIZE {
        SendInPlace(what);
        return;
      }
      Accumulate(what);
    }

    /** After a flush that failed, nothing more of the input is sent. */
    ghost method Rest(g: Hc, what: seq<byte>)
      requires Tracks() && res != 0 && !overrun && h == Hc(g.chunks + [g.buf], [])
      requires |what| > Room(len, |g.buf|) && (|g.buf| >= MIN_INPLACE_SIZE || |what| >= MIN_INPLACE_SIZE)
      modifies this`h
      ensures Tracks() && h == Step(MIN_INPLACE_SIZE, len, g, what)
    {
      hide SendChunks, Wire;
      OneChunkMore(script, h.chunks, what);
      h := Step(MIN_INPLACE_SIZE, len, g, what);
    }

    /** A large input with nothing waiting goes out as a chunk of its own. */
    method SendInPlace(what: seq<byte>)
      requires Tracks() && res == 0 && !overrun && pos == 0 && 0 < |what| < WORD
      modifies this`res, this`h, conn
      ensures Tracks() && h == Hc(old(h).chunks + [what], [])
    {
      hide SendChunks, Wire;
      Emit(what);
      h := Hc(h.chunks + [what], []);
    }

    /** Copy behind what is in the buffer, unless that runs past its end. */
    method Accumulate(what: seq<byte>)
      requires Tracks() && res == 0 && !overrun
      modifies this`pos, this`overrun, this`h, buf
      ensures Tracks() && overrun == (old(pos) + |what| > buf.Length)
      ensures !overrun ==> h == Hc(old(h).chunks, old(h).buf + what)
    {
      hide SendChunks, Wire;
      if pos + |what| > buf.Length {
        overrun := true;
        return;
      }
      forall i | 0 <= i < |what| {
        buf[pos + i] := what[i];
      }
      pos := pos + |what|;
      h := Hc(h.chunks, h.buf + what);
    }

    method Add(c: Call)
      requires Valid() && WellCall(c)
      modifies this, conn, buf
      ensures Valid() && log == old(log) + [c]
      ensures old(res) != 0 ==> res == old(res) && conn.sent == old(conn.sent)
    {
      hide CallRun, Step, Stays, Inputs, Header, Wire, SendChunks;
      CallRunSnoc(MIN_INPLACE_SIZE, len, buf.Length, start, log, c);
      log := log + [c];
      BufAdd(Header(c.ts, c.len));
      if c.buf.Some? {
        BufAdd(c.buf.value);
      }
    }

    /** Send what is left, then the empty chunk; a failure anywhere is the result. */
    method Finish() returns (r: int)
      requires Valid()
      modifies this, conn
      ensures !overrun ==> Sent(AllChunks(CallRun(MIN_INPLACE_SIZE, len, start, log)) + [[]], r)
      ensures overrun == old(overrun) && if overrun then !Inside() else r == 0 ==> Inside()
      ensures log == old(log)
    {
      hide CallRun, Stays, Inputs, SendChunks, Wire;
      ghost var g := h;
      if res == 0 && pos != 0 && !overrun {
        Flush();
      } else if !overrun && res != 0 {
        OneChunkMore(script, g.chunks, g.buf);
      }
      r := res;
      h := Hc(if overrun then h.chunks else AllChunks(g), []);
      if r == 0 {
        if overrun { r := conn.SendChunk([]); } else { Emit([]); r := res; }
      } else if !overrun {
        OneChunkMore(script, h.chunks, []);
      }
    }
  }
}
