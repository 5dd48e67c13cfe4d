/** R values as the serialiser sees them, and the sequence of store calls it makes for each. */
module Values {
  import opened Bytes

  // Type codes of R, and the virtual code that announces attributes.
  const NILSXP: byte := 0
  const SYMSXP: byte := 1
  const LISTSXP: byte := 2
  const CLOSXP: byte := 3
  const ENVSXP: byte := 4
  const LANGSXP: byte := 6
  const CHARSXP: byte := 9
  const LGLSXP: byte := 10
  const INTSXP: byte := 13
  const REALSXP: byte := 14
  const CPLXSXP: byte := 15
  const STRSXP: byte := 16
  const VECSXP: byte := 19
  const RAWSXP: byte := 24
  const S4SXP: byte := 25
  const ATTRSXP: byte := 255

  /** The remaining type codes an R value can carry: promises, builtins, byte code, S4 and so on. */
  const UNHANDLED: set<byte> := {5, 7, 8, 17, 18, 20, 21, 22, 23, S4SXP}

  const EMPTY_ENV: nat := 0xf0000000000000
  const GLOBAL_ENV: nat := 0xf0000000000001
  const BASE_ENV: nat := 0xf0000000000002

  /** Every value has an attribute pairlist beside its body; `attr == []` is `R_NilValue`. */
  datatype Sexp = Sexp(attr: seq<Cell>, body: Body)

  /** A pairlist cell; `lang` tells a `LANGSXP` cell from a `LISTSXP` one. */
  datatype Cell = Cell(lang: bool, tag: Sexp, car: Sexp)

  datatype NumKind = Lgl | Int | Real | Cplx | Raw {
    function Code(): byte {
      match this
      case Lgl => LGLSXP
      case Int => INTSXP
      case Real => REALSXP
      case Cplx => CPLXSXP
      case Raw => RAWSXP
    }

    function Width(): nat {
      match this
      case Lgl => 4
      case Int => 4
      case Real => 8
      case Cplx => 16
      case Raw => 1
    }
  }

  datatype EnvKind = Global | Empty | Base | Custom {
    function Code(): nat {
      match this
      case Global => GLOBAL_ENV
      case Empty => EMPTY_ENV
      case Base => BASE_ENV
      case Custom => 0
    }
  }

  datatype Body =
    | Nil
    | Sym(name: seq<byte>)                        // the empty name is R_MissingArg
    | Char(text: seq<byte>)                       // an element of a string vector
    | Num(kind: NumKind, n: nat, data: seq<byte>) // n elements of kind.Width() bytes
    | Vec(isStr: bool, elts: seq<Sexp>)           // STRSXP or VECSXP
    | Pairs(cells: seq<Cell>)                     // a LISTSXP or LANGSXP chain, never empty
    | Clo(formals: Sexp, code: Sexp, env: Sexp)
    | Env(which: EnvKind)
    | Other(ts: byte)

  const NIL_VALUE := Sexp([], Nil)

  /** One call through the function pointer of the store interface; `None` is a null buffer. */
  datatype Call = Call(ts: byte, el: nat, len: nat, buf: Option<seq<byte>>)

  /** The types whose attributes the serialiser writes. */
  predicate KeepsAttributes(b: Body) {
    match b
    case Num(_, _, _) => true
    case Vec(_, _) => true
    case Other(ts) => ts == S4SXP
    case _ => false
  }

  function Calls(v: Sexp): seq<Call>
  {
    (if KeepsAttributes(v.body) && v.attr != []
     then [Call(ATTRSXP, 0, |v.attr|, None)] + CellCalls(v.attr) else [])
    + BodyCalls(v.body)
  }

  function PairsCode(cells: seq<Cell>): byte {
    if cells != [] && cells[0].lang then LANGSXP else LISTSXP
  }

  function BodyCalls(b: Body): seq<Call>
  {
    match b
    case Nil => [Call(NILSXP, 0, 0, None)]
    case Sym(name) => [NameCall(name)]
    case Char(_) => [Call(CHARSXP, 0, 0, None)]
    case Num(kind, n, data) => [Call(kind.Code(), kind.Width(), n, Some(data))]
    case Vec(isStr, elts) =>
      if isStr then [Call(STRSXP, 0, |elts|, None)] + TextCalls(elts)
      else [Call(VECSXP, 0, |elts|, None)] + ManyCalls(elts)
    case Pairs(cells) => [Call(PairsCode(cells), 0, |cells|, None)] + CellCalls(cells)
    case Clo(formals, code, env) => [Call(CLOSXP, 0, 3, None)] + (Calls(formals) + Calls(code) + Calls(env))
    case Env(which) => [Call(ENVSXP, 0, which.Code(), None)]
    case Other(ts) => [Call(ts, 0, 0, None)]
  }

  function NameCall(name: seq<byte>): Call {
    var p := CString(name);
    if p == [] then Call(SYMSXP, 1, 0, Some([])) else Call(SYMSXP, 1, |p| + 1, Some(p + [0]))
  }

  function TextCall(e: Sexp): Call {
    var c := CString(if e.body.Char? then e.body.text else []);
    Call(CHARSXP, 1, |c| + 1, Some(c + [0]))
  }

  function TextCalls(elts: seq<Sexp>): seq<Call> {
    if elts == [] then [] else [TextCall(elts[0])] + TextCalls(elts[1..])
  }

  function ManyCalls(elts: seq<Sexp>): seq<Call> {
    if elts == [] then [] else Calls(elts[0]) + ManyCalls(elts[1..])
  }

  function CellCalls(cells: seq<Cell>): seq<Call> {
    if cells == [] then [] else
      var cell := cells[0];
      assert cell.tag < cell && cell.car < cell;
      Calls(cell.tag) + Calls(cell.car) + CellCalls(cells[1..])
  }

  /** The bytes one call denotes: the header word, then `len * el` payload bytes if there is a buffer. */
  function CallBytes(c: Call): seq<byte> {
    Header(c.ts, c.len) + Payload(c)
  }

  function Payload(c: Call): seq<byte> {
    if c.buf.Some? then c.buf.value else []
  }

  function Flat(calls: seq<Call>): seq<byte> {
    if calls == [] then [] else CallBytes(calls[0]) + Flat(calls[1..])
  }

  function Encode(v: Sexp): seq<byte> {
    Flat(Calls(v))
  }

  /** What R guarantees of its values: payload sizes, element types of string vectors, 56-bit counts. */
  predicate WellFormed(v: Sexp) {
    && |v.attr| < COUNT_LIMIT
    && (forall i | 0 <= i < |v.attr| :: WellFormed(v.attr[i].tag) && WellFormed(v.attr[i].car))
    && match v.body
       case Sym(name) => |name| < COUNT_LIMIT - 1
       case Char(_) => false
       case Num(kind, n, data) => n < COUNT_LIMIT && |data| == kind.Width() * n
       case Vec(isStr, elts) =>
         && |elts| < COUNT_LIMIT
         && if isStr then forall i | 0 <= i < |elts| :: elts[i].body.Char? && |elts[i].body.text| < COUNT_LIMIT - 1
            else forall i | 0 <= i < |elts| :: WellFormed(elts[i])
       case Pairs(cells) =>
         && 0 < |cells| < COUNT_LIMIT
         && forall i | 0 <= i < |cells| :: WellFormed(cells[i].tag) && WellFormed(cells[i].car)
       case Clo(formals, code, env) => WellFormed(formals) && WellFormed(code) && WellFormed(env)
       case Other(ts) => ts in UNHANDLED
       case _ => true
  }

  lemma {:induction false} FlatAppend(a: seq<Call>, b: seq<Call>)
    ensures Flat(a + b) == Flat(a) + Flat(b)
  {
    if a == [] {
      assert a + b == b;
    } else {
      assert (a + b)[0] == a[0] && (a + b)[1..] == a[1..] + b;
      calc {
        Flat(a + b);
        CallBytes(a[0]) + Flat(a[1..] + b);
        { FlatAppend(a[1..], b); }
        CallBytes(a[0]) + (Flat(a[1..]) + Flat(b));
        (CallBytes(a[0]) + Flat(a[1..])) + Flat(b);
      }
    }
  }

  lemma FlatSnoc(a: seq<Call>, c: Call)
    ensures Flat(a + [c]) == Flat(a) + CallBytes(c)
  {
    FlatAppend(a, [c]);
    assert [c][1..] == [];
    assert Flat([c]) == CallBytes(c);
  }

  lemma CallAppends(a: seq<Call>, c: Call)
    ensures Flat(a + [c]) == Flat(a) + Header(c.ts, c.len) + Payload(c)
    ensures c.buf.None? ==> Flat(a + [c]) == Flat(a) + Header(c.ts, c.len)
    ensures |Flat(a + [c])| == |Flat(a)| + HEADER_SIZE + |Payload(c)|
  {
    FlatSnoc(a, c);
    Assoc(Flat(a), Header(c.ts, c.len), Payload(c));
  }

  /** A call whose buffer holds `len` elements of `el` bytes, a size that fits in a word. */
  predicate WellCall(c: Call) {
    c.len < COUNT_LIMIT && c.el <= 16 && if c.buf.Some? then c.el > 0 && |c.buf.value| == c.len * c.el else c.el == 0
  }

  /** `len *= el` on a word is the payload size of such a call. */
  function PayloadSize(c: Call): (n: nat)
    ensures WellCall(c) && c.buf.Some? ==> n == |Payload(c)|
    ensures WellCall(c) && c.el == 0 ==> n == 0
  {
    assert WellCall(c) ==> c.len * c.el < WORD by { if WellCall(c) { SmallProduct(c.len, c.el); } }
    (c.len * c.el) % WORD
  }

  lemma SmallProduct(len: nat, el: nat)
    requires len < COUNT_LIMIT && el <= 16
    ensures len * el < WORD
  {
    assert len * el <= len * 16;
  }

  predicate WellCalls(cs: seq<Call>) {
    forall c | c in cs :: WellCall(c)
  }

  /** Every call the serialiser makes for an R value is of that form: no length ever wraps. */
  lemma {:induction false} CallsAreWell(v: Sexp)
    requires WellFormed(v)
    ensures WellCalls(Calls(v))
    decreases v, 1
  {
    CellCallsAreWell(v.attr);
    BodyCallsAreWell(v.body);
  }

  lemma {:induction false} BodyCallsAreWell(b: Body)
    requires WellFormed(Sexp([], b))
    ensures WellCalls(BodyCalls(b))
    decreases b, 0
  {
    match b
    case Vec(isStr, elts) => if isStr { TextCallsAreWell(elts); } else { ManyCallsAreWell(elts); }
    case Pairs(cells) => CellCallsAreWell(cells);
    case Clo(formals, code, env) => CallsAreWell(formals); CallsAreWell(code); CallsAreWell(env);
    case _ =>
  }

  lemma {:induction false} TextCallsAreWell(elts: seq<Sexp>)
    requires forall i | 0 <= i < |elts| :: elts[i].body.Char? && |elts[i].body.text| < COUNT_LIMIT - 1
    ensures WellCalls(TextCalls(elts))
    decreases elts, 0
  {
    if elts != [] { TextCallsAreWell(elts[1..]); }
  }

  lemma {:induction false} ManyCallsAreWell(elts: seq<Sexp>)
    requires forall i | 0 <= i < |elts| :: WellFormed(elts[i])
    ensures WellCalls(ManyCalls(elts))
    decreases elts, 0
  {
    if elts != [] {
      CallsAreWell(elts[0]);
      ManyCallsAreWell(elts[1..]);
    }
  }

  lemma {:induction false} CellCallsAreWell(cells: seq<Cell>)
    requires forall i | 0 <= i < |cells| :: WellFormed(cells[i].tag) && WellFormed(cells[i].car)
    ensures WellCalls(CellCalls(cells))
    decreases cells, 0
  {
    if cells != [] {
      var cell := cells[0];
      assert cell.tag < cell && cell.car < cell;
      CallsAreWell(cell.tag);
      CallsAreWell(cell.car);
      CellCallsAreWell(cells[1..]);
    }
  }
}
