/** What the decoder makes of the encoder's output, for every value and every continuation. */
module Recovery {
  import opened Bytes
  import opened Values
  import opened Decoder

  /** A name or string, with its terminator, is fetched only when it is shorter than the scratch buffer. */
  predicate TextFits(t: seq<byte>) {
    |CString(t)| + 1 < SCRATCH_SIZE
  }

  /** The values the decoder can read back: no raw vector, no type without a reader, no long text. */
  predicate Supported(v: Sexp) {
    && (KeepsAttributes(v.body) ==> SupportedCells(v.attr))
    && SupportedBody(v.body)
  }

  predicate SupportedBody(b: Body) {
    match b
    case Sym(name) => CString(name) == [] || TextFits(name)
    case Num(kind, _, _) => kind != Raw
    case Vec(isStr, elts) => if isStr then SupportedTexts(elts) else SupportedMany(elts)
    case Pairs(cells) => SupportedCells(cells)
    case Clo(formals, code, env) => Supported(formals) && Supported(code) && Supported(env)
    case Char(_) => false
    case Other(_) => false
    case _ => true
  }

  predicate SupportedTexts(elts: seq<Sexp>) {
    elts != [] ==> (elts[0].body.Char? ==> TextFits(elts[0].body.text)) && SupportedTexts(elts[1..])
  }

  predicate SupportedMany(elts: seq<Sexp>) {
    elts != [] ==> Supported(elts[0]) && SupportedMany(elts[1..])
  }

  predicate SupportedCells(cells: seq<Cell>) {
    if cells == [] then true else
      var cell := cells[0];
      assert cell.tag < cell && cell.car < cell;
      Supported(cell.tag) && Supported(cell.car) && SupportedCells(cells[1..])
  }

  /** What survives: a custom environment becomes the base environment, attributes are kept on vectors
      only, every cell of a chain takes the type of the first, and text stops at its first NUL. */
  function Norm(v: Sexp): Sexp {
    Sexp(if KeepsAttributes(v.body) then NormCells(false, v.attr) else [], NormBody(v.body))
  }

  function NormBody(b: Body): Body {
    match b
    case Sym(name) => Sym(CString(name))
    case Vec(isStr, elts) => Vec(isStr, if isStr then NormTexts(elts) else NormMany(elts))
    case Pairs(cells) => Pairs(NormCells(PairsCode(cells) == LANGSXP, cells))
    case Clo(formals, code, env) => Clo(Norm(formals), Norm(code), Norm(env))
    case Env(which) => Env(if which == Custom then Base else which)
    case _ => b
  }

  function NormTexts(elts: seq<Sexp>): (r: seq<Sexp>)
    ensures |r| == |elts|
  {
    if elts == [] then [] else
      [Sexp([], Char(CString(if elts[0].body.Char? then elts[0].body.text else [])))] + NormTexts(elts[1..])
  }

  function NormMany(elts: seq<Sexp>): (r: seq<Sexp>)
    ensures |r| == |elts|
  {
    if elts == [] then [] else [Norm(elts[0])] + NormMany(elts[1..])
  }

  function NormCells(lang: bool, cells: seq<Cell>): (r: seq<Cell>)
    ensures |r| == |cells|
    decreases cells
  {
    if cells == [] then [] else
      var cell := cells[0];
      assert cell.tag < cell && cell.car < cell;
      [Cell(lang, Norm(cell.tag), Norm(cell.car))] + NormCells(lang, cells[1..])
  }

  /** Reading gave `v` and stopped exactly before `r`, or did not give a value at all. */
  ghost predicate Reads<T>(o: Outcome<T>, ok: bool, v: T, r: seq<byte>) {
    if ok then o.Done? && o.value == v && o.rest == r else !o.Done?
  }

  lemma ReadText(t: seq<byte>, r: seq<byte>, s: Scratch)
    requires |t| < COUNT_LIMIT - 1
    ensures Reads(LoadText(|CString(t)| + 1, CString(t) + [0] + r, s), TextFits(t), CString(t), r)
  {
    var c := CString(t);
    var b := c + [0] + r;
    if TextFits(t) {
      assert b[..|c| + 1] == c + [0] && b[|c| + 1..] == r;
      CStringOfTerminated(c, s[|c| + 1..]);
    }
  }

  /** One call's bytes in front of `more`: its header is read, its payload and `more` remain. */
  lemma ReadCall(c: Call, cs: seq<Call>, r: seq<byte>)
    requires c.len < COUNT_LIMIT
    ensures var b := Flat([c] + cs) + r;
            && |b| >= HEADER_SIZE
            && b[HEADER_SIZE..] == Payload(c) + (Flat(cs) + r)
            && FromLittleEndian(b[..HEADER_SIZE]) % 256 == c.ts
            && FromLittleEndian(b[..HEADER_SIZE]) / 256 == c.len
  {
    var h, p := Header(c.ts, c.len), Payload(c) + (Flat(cs) + r);
    assert ([c] + cs)[1..] == cs;
    assert Flat([c] + cs) + r == h + p;
    HeaderRoundTrip(c.ts, c.len);
    assert (h + p)[..HEADER_SIZE] == h && (h + p)[HEADER_SIZE..] == p;
  }

  lemma FlatThen(a: seq<Call>, b: seq<Call>, r: seq<byte>)
    ensures Flat(a + b) + r == Flat(a) + (Flat(b) + r)
  {
    FlatAppend(a, b);
  }

  /** A value without attributes starts with the header of its body. */
  lemma LoadPlain(c: Call, cs: seq<Call>, r: seq<byte>, s: Scratch)
    requires c.len < COUNT_LIMIT && c.ts != ATTRSXP
    ensures Load(Flat([c] + cs) + r, s) == LoadBody([], Flat([c] + cs) + r, s)
  {
    ReadCall(c, cs, r);
  }

  lemma LoadBodyIsDecode(attr: seq<Cell>, c: Call, cs: seq<Call>, r: seq<byte>, s: Scratch)
    requires c.len < COUNT_LIMIT
    ensures var d := DecodeOne(c.ts, c.len, Payload(c) + (Flat(cs) + r), s);
            LoadBody(attr, Flat([c] + cs) + r, s) ==
            if d.Done? then Done(Sexp(attr, d.value), d.rest, d.scratch) else if d.Error? then Error else Undefined
  {
    ReadCall(c, cs, r);
  }

  /** The second half of `Load`: the value itself, once its attributes are read. */
  function ThenBody(d: Outcome<seq<Cell>>): Outcome<Sexp> {
    if d.Done? then LoadBody(d.value, d.rest, d.scratch) else if d.Error? then Error else Undefined
  }

  lemma LoadSplits(b: seq<byte>, n: nat, e: seq<byte>, s: Scratch)
    requires |b| >= HEADER_SIZE && b[HEADER_SIZE..] == e
    requires FromLittleEndian(b[..HEADER_SIZE]) % 256 == ATTRSXP && FromLittleEndian(b[..HEADER_SIZE]) / 256 == n
    ensures Load(b, s) == ThenBody(LoadCells(false, n, e, s))
  {}

  lemma LoadAttributes(c: Call, cs: seq<Call>, ds: seq<Call>, r: seq<byte>, s: Scratch)
    requires c.ts == ATTRSXP && c.len < COUNT_LIMIT && c.buf.None?
    ensures Load(Flat([c] + (cs + ds)) + r, s) == ThenBody(LoadCells(false, c.len, Flat(cs) + (Flat(ds) + r), s))
  {
    ReadCall(c, cs + ds, r);
    FlatThen(cs, ds, r);
    LoadSplits(Flat([c] + (cs + ds)) + r, c.len, Flat(cs) + (Flat(ds) + r), s);
  }

  /** Loading `store(v)` followed by any bytes yields `Norm(v)` and leaves exactly those bytes if `v` is
      supported, and does not yield a value if it is not - whatever the scratch buffer held before. */
  lemma {:induction false} RoundTrip(v: Sexp, r: seq<byte>, s: Scratch)
    requires WellFormed(v)
    ensures Reads(Load(Encode(v) + r, s), Supported(v), Norm(v), r)
    decreases v, 1
  {
    hide Load, LoadBody, Flat, BodyCalls, NormBody, SupportedBody, NormCells, SupportedCells, CellCalls, WellFormed;
    if KeepsAttributes(v.body) && v.attr != [] {
      AttributedRoundTrip(v, r, s);
    } else {
      NoAttributes(v);
      BodyOfWellFormed(v);
      var ds := BodyCalls(v.body);
      BodyHasHeader(v.body);
      LoadBodyRoundTrip([], v.body, r, s);
      LoadPlain(ds[0], ds[1..], r, s);
    }
  }

  lemma BodyHasHeader(b: Body)
    ensures var ds := BodyCalls(b); ds != [] && ds == [ds[0]] + ds[1..]
  {}

  lemma BodyOfWellFormed(v: Sexp)
    requires WellFormed(v)
    ensures WellFormed(Sexp([], v.body))
  {}

  lemma NoAttributes(v: Sexp)
    requires !(KeepsAttributes(v.body) && v.attr != [])
    ensures Calls(v) == BodyCalls(v.body) && Norm(v) == Sexp([], NormBody(v.body)) && Supported(v) == SupportedBody(v.body)
  {
    hide BodyCalls, NormBody, SupportedBody;
  }

  lemma {:induction false} AttributedRoundTrip(v: Sexp, r: seq<byte>, s: Scratch)
    requires WellFormed(v) && KeepsAttributes(v.body) && v.attr != []
    ensures Reads(Load(Encode(v) + r, s), Supported(v), Norm(v), r)
    decreases v, 0
  {
    var c, cs, ds := Call(ATTRSXP, 0, |v.attr|, None), CellCalls(v.attr), BodyCalls(v.body);
    var e := Flat(ds) + r;
    assert Calls(v) == [c] + (cs + ds) by { Assoc([c], cs, ds); }
    LoadAttributes(c, cs, ds, r, s);
    CellsRoundTrip(false, v.attr, e, s);
    var o := LoadCells(false, |v.attr|, Flat(cs) + e, s);
    if o.Done? {
      LoadBodyRoundTrip(o.value, v.body, r, o.scratch);
    }
  }

  lemma {:induction false} LoadBodyRoundTrip(attr: seq<Cell>, b: Body, r: seq<byte>, s: Scratch)
    requires WellFormed(Sexp([], b))
    ensures BodyCalls(b)[0].ts != ATTRSXP && BodyCalls(b)[0].len < COUNT_LIMIT
    ensures Reads(LoadBody(attr, Flat(BodyCalls(b)) + r, s), SupportedBody(b), Sexp(attr, NormBody(b)), r)
    decreases b, 4
  {
    var ds := BodyCalls(b);
    assert ds == [ds[0]] + ds[1..];
    BodyRoundTrip(b, r, s);
    LoadBodyIsDecode(attr, ds[0], ds[1..], r, s);
  }

  /** The body of `b`, read from the bytes that follow its header. */
  ghost predicate BodyReads(b: Body, r: seq<byte>, s: Scratch) {
    var cs := BodyCalls(b);
    && cs[0].ts != ATTRSXP && cs[0].len < COUNT_LIMIT
    && Reads(DecodeOne(cs[0].ts, cs[0].len, Payload(cs[0]) + (Flat(cs[1..]) + r), s), SupportedBody(b), NormBody(b), r)
  }

  lemma {:induction false} BodyRoundTrip(b: Body, r: seq<byte>, s: Scratch)
    requires WellFormed(Sexp([], b))
    ensures BodyReads(b, r, s)
    decreases b, 3
  {
    match b
    case Nil => LeafRoundTrip(b, r, s);
    case Env(_) => LeafRoundTrip(b, r, s);
    case Other(_) => LeafRoundTrip(b, r, s);
    case Sym(name) => NameRoundTrip(b, r, s);
    case Num(_, _, _) => NumRoundTrip(b, r, s);
    case Vec(_, _) => VecRoundTrip(b, r, s);
    case Pairs(_) => PairsRoundTrip(b, r, s);
    case Clo(_, _, _) => ClosureRoundTrip(b, r, s);
  }

  lemma LeafRoundTrip(b: Body, r: seq<byte>, s: Scratch)
    requires b.Nil? || b.Env? || (b.Other? && b.ts in UNHANDLED)
    ensures BodyReads(b, r, s)
  {
    assert [] + (Flat([]) + r) == r;
  }

  lemma NameRoundTrip(b: Body, r: seq<byte>, s: Scratch)
    requires b.Sym? && |b.name| < COUNT_LIMIT - 1
    ensures BodyReads(b, r, s)
  {
    assert Flat([]) + r == r;
    if CString(b.name) == [] {
      assert [] + r == r;
    } else {
      ReadText(b.name, r, s);
    }
  }

  lemma NumRoundTrip(b: Body, r: seq<byte>, s: Scratch)
    requires b.Num? && WellFormed(Sexp([], b))
    ensures BodyReads(b, r, s)
  {
    assert Flat([]) + r == r;
    assert (b.data + r)[..|b.data|] == b.data && (b.data + r)[|b.data|..] == r;
  }

  lemma {:induction false} VecRoundTrip(b: Body, r: seq<byte>, s: Scratch)
    requires b.Vec? && WellFormed(Sexp([], b))
    ensures BodyReads(b, r, s)
    decreases b, 2
  {
    if b.isStr {
      assert BodyCalls(b)[1..] == TextCalls(b.elts);
      TextsRoundTrip(b.elts, r, s);
      assert [] + (Flat(TextCalls(b.elts)) + r) == Flat(TextCalls(b.elts)) + r;
    } else {
      assert BodyCalls(b)[1..] == ManyCalls(b.elts);
      ManyRoundTrip(b.elts, r, s);
      assert [] + (Flat(ManyCalls(b.elts)) + r) == Flat(ManyCalls(b.elts)) + r;
    }
  }

  lemma {:induction false} PairsRoundTrip(b: Body, r: seq<byte>, s: Scratch)
    requires b.Pairs? && WellFormed(Sexp([], b))
    ensures BodyReads(b, r, s)
    decreases b, 2
  {
    var t := Flat(CellCalls(b.cells)) + r;
    assert BodyCalls(b)[1..] == CellCalls(b.cells);
    assert [] + t == t;
    CellsRoundTrip(PairsCode(b.cells) == LANGSXP, b.cells, r, s);
  }

  lemma {:induction false} ClosureRoundTrip(b: Body, r: seq<byte>, s: Scratch)
    requires b.Clo? && WellFormed(Sexp([], b))
    ensures BodyReads(b, r, s)
    decreases b, 2
  {
    var cs := Calls(b.formals) + Calls(b.code) + Calls(b.env);
    assert BodyCalls(b)[1..] == cs;
    assert [] + (Flat(cs) + r) == Flat(cs) + r;
    PartsRoundTrip(b, r, s);
  }

  lemma {:induction false} PartsRoundTrip(b: Body, r: seq<byte>, s: Scratch)
    requires b.Clo? && WellFormed(Sexp([], b))
    ensures Reads(LoadClosure(Flat(Calls(b.formals) + Calls(b.code) + Calls(b.env)) + r, s), SupportedBody(b), NormBody(b), r)
    decreases b, 1
  {
    var r2 := Encode(b.env) + r;
    var r1 := Encode(b.code) + r2;
    FlatThen(Calls(b.formals) + Calls(b.code), Calls(b.env), r);
    FlatThen(Calls(b.formals), Calls(b.code), r2);
    RoundTrip(b.formals, r1, s);
    var o := Load(Encode(b.formals) + r1, s);
    if o.Done? {
      RoundTrip(b.code, r2, o.scratch);
      var o1 := Load(r1, o.scratch);
      if o1.Done? {
        RoundTrip(b.env, r, o1.scratch);
      }
    }
  }

  lemma {:induction false} ManyRoundTrip(elts: seq<Sexp>, r: seq<byte>, s: Scratch)
    requires forall i | 0 <= i < |elts| :: WellFormed(elts[i])
    ensures Reads(LoadMany(|elts|, Flat(ManyCalls(elts)) + r, s), SupportedMany(elts), NormMany(elts), r)
    decreases elts, 0
  {
    if elts == [] {
      assert Flat([]) + r == r;
    } else {
      var r1 := Flat(ManyCalls(elts[1..])) + r;
      FlatThen(Calls(elts[0]), ManyCalls(elts[1..]), r);
      RoundTrip(elts[0], r1, s);
      if Supported(elts[0]) {
        ManyRoundTrip(elts[1..], r, Load(Encode(elts[0]) + r1, s).scratch);
      }
    }
  }

  lemma {:induction false} CellsRoundTrip(lang: bool, cells: seq<Cell>, r: seq<byte>, s: Scratch)
    requires forall i | 0 <= i < |cells| :: WellFormed(cells[i].tag) && WellFormed(cells[i].car)
    ensures Reads(LoadCells(lang, |cells|, Flat(CellCalls(cells)) + r, s), SupportedCells(cells), NormCells(lang, cells), r)
    decreases cells, 0
  {
    if cells == [] {
      assert Flat([]) + r == r;
    } else {
      var cell := cells[0];
      assert cell.tag < cell && cell.car < cell;
      var r2 := Flat(CellCalls(cells[1..])) + r;
      var r1 := Encode(cell.car) + r2;
      FlatThen(Calls(cell.tag) + Calls(cell.car), CellCalls(cells[1..]), r);
      FlatThen(Calls(cell.tag), Calls(cell.car), r2);
      RoundTrip(cell.tag, r1, s);
      if Supported(cell.tag) {
        var s1 := Load(Encode(cell.tag) + r1, s).scratch;
        RoundTrip(cell.car, r2, s1);
        if Supported(cell.car) {
          CellsRoundTrip(lang, cells[1..], r, Load(Encode(cell.car) + r2, s1).scratch);
        }
      }
    }
  }

  lemma TextRoundTrip(e: Sexp, cs: seq<Call>, r: seq<byte>, s: Scratch)
    requires e.body.Char? && |e.body.text| < COUNT_LIMIT - 1
    ensures Reads(Load(Flat([TextCall(e)] + cs) + r, s), TextFits(e.body.text),
                  Sexp([], Char(CString(e.body.text))), Flat(cs) + r)
  {
    var c := TextCall(e);
    LoadPlain(c, cs, r, s);
    LoadBodyIsDecode([], c, cs, r, s);
    ReadText(e.body.text, Flat(cs) + r, s);
  }

  lemma {:induction false} TextsRoundTrip(elts: seq<Sexp>, r: seq<byte>, s: Scratch)
    requires forall i | 0 <= i < |elts| :: elts[i].body.Char? && |elts[i].body.text| < COUNT_LIMIT - 1
    ensures Reads(LoadMany(|elts|, Flat(TextCalls(elts)) + r, s), SupportedTexts(elts), NormTexts(elts), r)
    decreases elts, 0
  {
    if elts == [] {
      assert Flat([]) + r == r;
    } else {
      var b := Flat(TextCalls(elts)) + r;
      TextRoundTrip(elts[0], TextCalls(elts[1..]), r, s);
      if TextFits(elts[0].body.text) {
        TextsRoundTrip(elts[1..], r, Load(b, s).scratch);
      }
    }
  }
}
