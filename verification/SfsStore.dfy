/** The serialiser itself, writing through the store interface to any of the four back ends. */
module SfsStore {
  import opened Bytes
  import opened Counting
  import opened Values
  import M = MemStore
  import F = FdStore
  import H = HcStore
  import T = StatStore
  import opened Chunked
  import opened Schedules

  /** The function pointer of the store interface, with the state behind it. */
  datatype Sink =
    | MemSink(mem: M.Store)
    | FdSink(fd: F.Store)
    | HttpSink(http: H.Store)
    | StatSink(stat: T.Store)
  {
    ghost function Repr(): set<object>
      reads if MemSink? then {mem.chain} else {}
    {
      match this
      case MemSink(m) => {m, m.chain} + m.chain.Repr
      case FdSink(f) => {f, f.fd}
      case HttpSink(h) => {h, h.conn, h.buf}
      case StatSink(s) => {s, s.cs, s.ls}
    }

    ghost predicate Valid()
      reads Repr()
      reads if MemSink? then {mem.chain} else {}
    {
      match this
      case MemSink(m) => m.Valid()
      case FdSink(f) => f.Valid()
      case HttpSink(h) => h.Valid()
      case StatSink(s) => s.Valid()
    }

    /** An error on a descriptor abandons the whole store; the other back ends always carry on. */
    ghost predicate Live()
      reads if FdSink? then {fd} else {}
    {
      FdSink? ==> fd.open
    }

    ghost function Log(): seq<Call>
      reads Repr()
      reads if MemSink? then {mem.chain} else {}
    {
      match this
      case MemSink(m) => m.log
      case FdSink(f) => f.log
      case HttpSink(h) => h.log
      case StatSink(s) => s.log
    }

    method Add(c: Call) returns (ok: bool)
      requires Valid() && Live() && WellCall(c)
      modifies Repr()
      ensures Valid() && Live() == ok && fresh(Repr() - old(Repr()))
      ensures Log() == old(Log()) + [c]
    {
      ok := true;
      match this
      case MemSink(m) => m.Add(c);
      case FdSink(f) => ok := f.Add(c);
      case HttpSink(h) => h.Add(c);
      case StatSink(s) => s.Add(c);
    }
  }

  /** Attributes first where they are kept, then the object itself.  Every call of the trace is made, in
      order, unless a descriptor fails, and then a prefix of it. */
  method Store(api: Sink, v: Sexp) returns (ok: bool)
    requires WellFormed(v) && api.Valid() && api.Live()
    modifies api.Repr()
    ensures api.Valid() && api.Live() == ok && fresh(api.Repr() - old(api.Repr()))
    ensures ok ==> api.Log() == old(api.Log()) + Calls(v)
    ensures api.Log() <= old(api.Log()) + Calls(v)
    decreases v, 1
  {
    hide Sink.Valid, Sink.Live, Sink.Log;
    if KeepsAttributes(v.body) && v.attr != [] {
      Assoc(api.Log(), [Call(ATTRSXP, 0, |v.attr|, None)] + CellCalls(v.attr), BodyCalls(v.body));
      ok := StoreHeaded(api, Call(ATTRSXP, 0, |v.attr|, None), v.attr);
      if !ok { return; }
    } else {
      assert Calls(v) == BodyCalls(v.body);
    }
    ok := StoreBody(api, v.body);
  }

  /** A count, then the cells of a pairlist: attributes, lists and calls alike. */
  method StoreHeaded(api: Sink, c: Call, cells: seq<Cell>) returns (ok: bool)
    requires WellCall(c)
    requires forall i | 0 <= i < |cells| :: WellFormed(cells[i].tag) && WellFormed(cells[i].car)
    requires api.Valid() && api.Live()
    modifies api.Repr()
    ensures api.Valid() && api.Live() == ok && fresh(api.Repr() - old(api.Repr()))
    ensures ok ==> api.Log() == old(api.Log()) + ([c] + CellCalls(cells))
    ensures api.Log() <= old(api.Log()) + ([c] + CellCalls(cells))
    decreases cells, 1
  {
    Assoc(api.Log(), [c], CellCalls(cells));
    ok := api.Add(c);
    if ok { ok := StoreCells(api, cells); }
  }

  method StoreCell(api: Sink, cell: Cell) returns (ok: bool)
    requires WellFormed(cell.tag) && WellFormed(cell.car)
    requires api.Valid() && api.Live()
    modifies api.Repr()
    ensures api.Valid() && api.Live() == ok && fresh(api.Repr() - old(api.Repr()))
    ensures ok ==> api.Log() == old(api.Log()) + (Calls(cell.tag) + Calls(cell.car))
    ensures api.Log() <= old(api.Log()) + (Calls(cell.tag) + Calls(cell.car))
    decreases cell
  {
    hide Sink.Valid, Sink.Live, Sink.Log, Calls;
    Assoc(api.Log(), Calls(cell.tag), Calls(cell.car));
    ok := Store(api, cell.tag);
    if ok { ok := Store(api, cell.car); }
  }

  lemma CellsFrom(cells: seq<Cell>, i: nat)
    requires i < |cells|
    ensures CellCalls(cells[i..]) == Calls(cells[i].tag) + Calls(cells[i].car) + CellCalls(cells[i + 1..])
  {
    assert cells[i..][0] == cells[i] && cells[i..][1..] == cells[i + 1..];
  }

  lemma NoCells()
    ensures CellCalls([]) == []
  {}

  method StoreCells(api: Sink, cells: seq<Cell>) returns (ok: bool)
    requires forall i | 0 <= i < |cells| :: WellFormed(cells[i].tag) && WellFormed(cells[i].car)
    requires api.Valid() && api.Live()
    modifies api.Repr()
    ensures api.Valid() && api.Live() == ok && fresh(api.Repr() - old(api.Repr()))
    ensures ok ==> api.Log() == old(api.Log()) + CellCalls(cells)
    ensures api.Log() <= old(api.Log()) + CellCalls(cells)
    decreases cells, 0
  {
    hide Calls, CellCalls, Sink.Valid, Sink.Live, Sink.Log;
    ok := true;
    var i := 0;
    ghost var all := api.Log() + CellCalls(cells);
    NoCells();
    assert cells[0..] == cells;
    while i < |cells|
      invariant 0 <= i <= |cells|
      invariant api.Valid() && api.Live() && fresh(api.Repr() - old(api.Repr()))
      invariant api.Log() + CellCalls(cells[i..]) == all
    {
      CellsFrom(cells, i);
      Assoc(api.Log(), Calls(cells[i].tag) + Calls(cells[i].car), CellCalls(cells[i + 1..]));
      ok := StoreCell(api, cells[i]);
      if !ok { return; }
      i := i + 1;
    }
    assert cells[i..] == [];
  }

  method StoreBody(api: Sink, b: Body) returns (ok: bool)
    requires WellFormed(Sexp([], b)) && api.Valid() && api.Live()
    modifies api.Repr()
    ensures api.Valid() && api.Live() == ok && fresh(api.Repr() - old(api.Repr()))
    ensures ok ==> api.Log() == old(api.Log()) + BodyCalls(b)
    ensures api.Log() <= old(api.Log()) + BodyCalls(b)
    decreases b, 2
  {
    BodyCallsAreWell(b);
    ok := true;
    match b
    case Nil => ok := api.Add(Call(NILSXP, 0, 0, None));
    case Sym(name) => ok := api.Add(NameCall(name));
    case Char(_) => assert false;
    case Num(kind, n, data) => ok := api.Add(Call(kind.Code(), kind.Width(), n, Some(data)));
    case Vec(_, _) => ok := StoreVec(api, b);
    case Pairs(cells) => ok := StoreHeaded(api, Call(PairsCode(cells), 0, |cells|, None), cells);
    case Clo(_, _, _) => ok := StoreClosure(api, b);
    case Env(which) => ok := api.Add(Call(ENVSXP, 0, which.Code(), None));
    case Other(ts) => ok := api.Add(Call(ts, 0, 0, None));
  }

  /** The elements of a list. */
  method StoreMany(api: Sink, elts: seq<Sexp>) returns (ok: bool)
    requires forall i | 0 <= i < |elts| :: WellFormed(elts[i])
    requires api.Valid() && api.Live()
    modifies api.Repr()
    ensures api.Valid() && api.Live() == ok && fresh(api.Repr() - old(api.Repr()))
    ensures ok ==> api.Log() == old(api.Log()) + ManyCalls(elts)
    ensures api.Log() <= old(api.Log()) + ManyCalls(elts)
    decreases elts, 0
  {
    hide Sink.Valid, Sink.Live, Sink.Log;
    ok := true;
    var i := 0;
    ghost var all := api.Log() + ManyCalls(elts);
    assert elts[0..] == elts;
    while i < |elts|
      invariant 0 <= i <= |elts|
      invariant api.Valid() && api.Live() && fresh(api.Repr() - old(api.Repr()))
      invariant api.Log() + ManyCalls(elts[i..]) == all
    {
      assert elts[i..][0] == elts[i] && elts[i..][1..] == elts[i + 1..];
      Assoc(api.Log(), Calls(elts[i]), ManyCalls(elts[i + 1..]));
      ok := Store(api, elts[i]);
      if !ok { return; }
      i := i + 1;
    }
    assert elts[i..] == [];
  }

  /** The strings of a string vector, each with its terminator. */
  method StoreTexts(api: Sink, elts: seq<Sexp>) returns (ok: bool)
    requires forall i | 0 <= i < |elts| :: elts[i].body.Char? && |elts[i].body.text| < COUNT_LIMIT - 1
    requires api.Valid() && api.Live()
    modifies api.Repr()
    ensures api.Valid() && api.Live() == ok && fresh(api.Repr() - old(api.Repr()))
    ensures ok ==> api.Log() == old(api.Log()) + TextCalls(elts)
    ensures api.Log() <= old(api.Log()) + TextCalls(elts)
    decreases elts, 0
  {
    hide Sink.Valid, Sink.Live, Sink.Log;
    ok := true;
    var i := 0;
    ghost var all := api.Log() + TextCalls(elts);
    assert elts[0..] == elts;
    while i < |elts|
      invariant 0 <= i <= |elts|
      invariant api.Valid() && api.Live() && fresh(api.Repr() - old(api.Repr()))
      invariant api.Log() + TextCalls(elts[i..]) == all
    {
      assert elts[i..][0] == elts[i] && elts[i..][1..] == elts[i + 1..];
      Assoc(api.Log(), [TextCall(elts[i])], TextCalls(elts[i + 1..]));
      ok := api.Add(TextCall(elts[i]));
      if !ok { return; }
      i := i + 1;
    }
    assert elts[i..] == [];
  }

  method StoreVec(api: Sink, b: Body) returns (ok: bool)
    requires b.Vec? && WellFormed(Sexp([], b))
    requires api.Valid() && api.Live()
    modifies api.Repr()
    ensures api.Valid() && api.Live() == ok && fresh(api.Repr() - old(api.Repr()))
    ensures ok ==> api.Log() == old(api.Log()) + BodyCalls(b)
    ensures api.Log() <= old(api.Log()) + BodyCalls(b)
    decreases b, 1
  {
    var c := Call(if b.isStr then STRSXP else VECSXP, 0, |b.elts|, None);
    Assoc(api.Log(), [c], if b.isStr then TextCalls(b.elts) else ManyCalls(b.elts));
    ok := api.Add(c);
    if ok {
      if b.isStr { ok := StoreTexts(api, b.elts); } else { ok := StoreMany(api, b.elts); }
    }
  }

  method StoreClosure(api: Sink, b: Body) returns (ok: bool)
    requires b.Clo? && WellFormed(Sexp([], b))
    requires api.Valid() && api.Live()
    modifies api.Repr()
    ensures api.Valid() && api.Live() == ok && fresh(api.Repr() - old(api.Repr()))
    ensures ok ==> api.Log() == old(api.Log()) + BodyCalls(b)
    ensures api.Log() <= old(api.Log()) + BodyCalls(b)
    decreases b, 1
  {
    var c := Call(CLOSXP, 0, 3, None);
    Assoc(api.Log(), [c], Calls(b.formals) + Calls(b.code) + Calls(b.env));
    ok := api.Add(c);
    if ok { ok := StoreParts(api, b); }
  }

  method StoreParts(api: Sink, b: Body) returns (ok: bool)
    requires b.Clo? && WellFormed(Sexp([], b))
    requires api.Valid() && api.Live()
    modifies api.Repr()
    ensures api.Valid() && api.Live() == ok && fresh(api.Repr() - old(api.Repr()))
    ensures ok ==> api.Log() == old(api.Log()) + (Calls(b.formals) + Calls(b.code) + Calls(b.env))
    ensures api.Log() <= old(api.Log()) + (Calls(b.formals) + Calls(b.code) + Calls(b.env))
    decreases b, 0
  {
    hide Sink.Valid, Sink.Live, Sink.Log, Calls;
    ghost var f, g, e := Calls(b.formals), Calls(b.code), Calls(b.env);
    Assoc(api.Log(), f + g, e);
    Assoc(api.Log(), f, g);
    ok := Store(api, b.formals);
    if !ok { return; }
    ok := Store(api, b.code);
    if !ok { return; }
    ok := Store(api, b.env);
  }

  /** Serialise into a raw vector.  `segs` is what the buffers held and `unset` what the new vector did;
      the vector is the encoding whenever that fits in the first buffer. */
  method StoreToMemory(v: Sexp) returns (res: array<byte>, ghost segs: seq<seq<byte>>, ghost unset: seq<byte>)
    requires WellFormed(v)
    ensures fresh(res) && M.ChainShape(segs) && Concat(segs) == Encode(v)
    ensures |unset| == res.Length == |Encode(v)|
    ensures forall i | 0 <= i < |segs| :: |segs[i]| <= |unset|
    ensures res[..] == M.Overlay(segs, unset)
    ensures |Encode(v)| <= M.DEF_BUF_SIZE ==> res[..] == Encode(v)
  {
    var mem := new M.Store();
    var _ := Store(MemSink(mem), v);
    assert mem.log == [] + Calls(v) == Calls(v);
    segs := mem.chain.segs;
    M.CollapseExact(segs);
    res, unset := mem.chain.Collapse();
  }

  /** Serialise to a descriptor.  A failed payload write or a short header write abandons the store, but a header write
      that returns -1 goes unnoticed: a finished store has written the encoding without those headers, and so the
      encoding itself exactly if no write failed; one that was abandoned has written a prefix.  The schedule of the
      writes decides which. */
  method StoreToFd(out: F.Descriptor, v: Sexp) returns (ok: bool)
    requires WellFormed(v)
    modifies out
    ensures F.Rest(old(out.script), Calls(v)) == (if ok then Some(out.script) else None)
    ensures var lost := F.LostOf(old(out.script), Calls(v));
            && (ok ==> out.out == old(out.out) + F.Sent(Calls(v), lost) && out.failed == old(out.failed) + F.Losses(lost))
            && out.out <= old(out.out) + F.Sent(Calls(v), lost)
            && (F.Losses(lost) == 0 ==> out.out <= old(out.out) + Encode(v))
            && F.Losses(lost) + old(out.failed) <= out.failed
    ensures ok ==> (out.out == old(out.out) + Encode(v) <==> out.failed == old(out.failed))
    ensures ok ==> |out.out| == |old(out.out)| + |Encode(v)| - HEADER_SIZE * (out.failed - old(out.failed))
    ensures out.failed + F.Failures(out.script) == old(out.failed + F.Failures(out.script))
  {
    hide F.Sent, F.Losses, F.Rest, F.LostOf, F.Failures, Calls;
    var fd := new F.Store(out);
    ok := Store(FdSink(fd), v);
    assert [] + Calls(v) == Calls(v);
    assert fd.log + Calls(v)[|fd.log|..] == Calls(v);
    if !ok { F.SentPrefix(fd.script, fd.log, Calls(v)[|fd.log|..]); }
    F.SentExact(Calls(v), F.LostOf(fd.script, Calls(v)));
  }

  /** Serialise into a chunked response, with whatever `len` and `pos` the allocation left.  A copy runs past the end of
      the buffer only if the calls for the value do not stay inside it, and if no send fails, exactly then.  Otherwise
      the response is sent as far as the schedule of the sends lets it: the result is 0 exactly if each send that was
      made took something, and then a receiver reads the bytes the buffer was said to hold at the start, then the
      encoding, and nothing is left over. */
  method StoreToHttp(conn: Connection, v: Sexp, buf: array<byte>, len: nat, pos: nat) returns (r: int, overrun: bool)
    requires WellFormed(v) && buf.Length < WORD
    modifies conn, buf
    ensures pos <= buf.Length ==>
              var inside := H.Stays(H.MIN_INPLACE_SIZE, len, buf.Length, H.Hc([], old(buf[..pos])), H.Inputs(Calls(v)));
              if overrun then !inside else r == 0 ==> inside
    ensures H.Sound(H.MIN_INPLACE_SIZE, len, buf.Length) && pos <= len ==> !overrun
    ensures !overrun ==> exists k | 0 <= k <= |old(conn.script)| ::
              UsedUp(old(conn.script), Sending(r, conn.script, 0), k)
    ensures !overrun && pos <= buf.Length ==>
              var all := H.Emitted(H.CallRun(H.MIN_INPLACE_SIZE, len, H.Hc([], old(buf[..pos])), Calls(v)));
              old(conn.sent) <= conn.sent <= old(conn.sent) + all
    ensures r == 0 && !overrun ==>
              && pos <= buf.Length && old(conn.sent) <= conn.sent
              && ReadChunks(conn.sent[|old(conn.sent)|..]) == Some((old(buf[..pos]) + Encode(v), []))
  {
    hide H.Stays, H.Inputs, H.CallRun, Calls, H.SendChunks, Wire, ReadChunks, Encode, UsedUp;
    ghost var base := conn.sent;
    var http := new H.Store(conn, buf, len, pos);
    var _ := Store(HttpSink(http), v);
    assert http.log == [] + Calls(v) == Calls(v);
    H.StaysFacts(H.MIN_INPLACE_SIZE, len, buf.Length, http.start, H.Inputs(Calls(v)));
    overrun := http.overrun;
    r := http.Finish();
    if !overrun {
      ghost var hc := H.CallRun(H.MIN_INPLACE_SIZE, len, http.start, Calls(v));
      ghost var k := ResponseSent(http.script, hc, base, conn.sent, r, conn.script);
      if r == 0 { Delivered(len, http.start.buf, v, base, conn.sent); }
    }
  }

  lemma ResponseSent(script: seq<int>, hc: H.Hc, base: seq<byte>, sent: seq<byte>, r: int, rest: seq<int>) returns (k: nat)
    requires var s := H.SendChunks(script, H.AllChunks(hc) + [[]]);
             r == s.code && rest == s.script && sent == base + Wire(H.AllChunks(hc) + [[]])[..s.took]
    ensures k <= |script| && UsedUp(script, Sending(r, rest, 0), k)
    ensures base <= sent <= base + H.Emitted(hc) && (r == 0 ==> sent == base + H.Emitted(hc))
  {
    hide Wire, SendAll, UsedUp, H.AllChunks;
    var chunks := H.AllChunks(hc) + [[]];
    k := SendAllExact(script, Pieces(chunks), MAX_SEND);
    WireSnoc(H.AllChunks(hc), []);
    UsedUpTook(script, H.SendChunks(script, chunks), k);
  }

  lemma UsedUpTook(script: seq<int>, s: Sending, k: nat)
    requires k <= |script| && UsedUp(script, s, k)
    ensures UsedUp(script, Sending(s.code, s.script, 0), k)
  {}

  lemma Delivered(len: nat, unset: seq<byte>, v: Sexp, base: seq<byte>, sent: seq<byte>)
    requires sent == base + H.Emitted(H.CallRun(H.MIN_INPLACE_SIZE, len, H.Hc([], unset), Calls(v)))
    ensures base <= sent && ReadChunks(sent[|base|..]) == Some((unset + Encode(v), []))
  {
    hide H.CallRun, H.Emitted, Calls, ReadChunks, Encode;
    H.StreamIsFaithful(H.MIN_INPLACE_SIZE, len, unset, v, []);
    var body := H.Emitted(H.CallRun(H.MIN_INPLACE_SIZE, len, H.Hc([], unset), Calls(v)));
    assert body + [] == body;
    assert sent[|base|..] == body;
  }

  /** Count without storing: the counts and sizes per type, which together predict the encoding's length. */
  method StoreStatistics(v: Sexp) returns (cs: array<nat>, ls: array<nat>)
    requires WellFormed(v)
    ensures cs.Length == ls.Length == T.TYPES
    ensures forall t | 0 <= t < T.TYPES :: cs[t] == T.Count(Calls(v), t) && ls[t] == T.Size(Calls(v), t)
    ensures HEADER_SIZE * Sum(cs[..], T.Itself) + Sum(ls[..], T.Itself) == |Encode(v)|
  {
    var stat := new T.Store();
    var _ := Store(StatSink(stat), v);
    assert stat.log == [] + Calls(v) == Calls(v);
    cs, ls := stat.cs, stat.ls;
  }
}
