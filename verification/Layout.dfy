/** The bytes of the format, spelled out: type codes, byte order, payloads and the order of parts, without the calls that
    produce them. */
module Layout {
  import opened Bytes
  import opened Values

  /** A type code and a 56-bit number, least significant byte first. */
  function Word(code: byte, n: nat): (w: seq<byte>)
    ensures |w| == 8 && w[0] == code
    ensures w[1] == n % 256 && w[2] == n / 0x100 % 256 && w[3] == n / 0x1_0000 % 256 && w[4] == n / 0x100_0000 % 256
    ensures w[5] == n / 0x1_0000_0000 % 256 && w[6] == n / 0x100_0000_0000 % 256 && w[7] == n / 0x1_0000_0000_0000 % 256
  {
    [code, n % 256, n / 0x100 % 256, n / 0x1_0000 % 256, n / 0x100_0000 % 256,
     n / 0x1_0000_0000 % 256, n / 0x100_0000_0000 % 256, n / 0x1_0000_0000_0000 % 256]
  }

  /** A text up to its first NUL, with the terminator and its size in front. */
  function Terminated(code: byte, text: seq<byte>): seq<byte> {
    Word(code, |CString(text)| + 1) + CString(text) + [0]
  }

  /** Attributes come first, and only for vectors and S4 objects. */
  function Layout(v: Sexp): seq<byte> {
    (if v.attr != [] && (v.body.Num? || v.body.Vec? || v.body == Other(25))
     then Word(255, |v.attr|) + CellsLayout(v.attr) else [])
    + BodyLayout(v.body)
  }

  function BodyLayout(b: Body): seq<byte> {
    match b
    case Nil => Word(0, 0)
    case Sym(name) => if CString(name) == [] then Word(1, 0) else Terminated(1, name)
    case Char(_) => Word(9, 0)
    case Num(Lgl, n, data) => Word(10, n) + data
    case Num(Int, n, data) => Word(13, n) + data
    case Num(Real, n, data) => Word(14, n) + data
    case Num(Cplx, n, data) => Word(15, n) + data
    case Num(Raw, n, data) => Word(24, n) + data
    case Vec(true, elts) => Word(16, |elts|) + TextsLayout(elts)
    case Vec(false, elts) => Word(19, |elts|) + ManyLayout(elts)
    case Pairs(cells) => Word(if cells != [] && cells[0].lang then 6 else 2, |cells|) + CellsLayout(cells)
    case Clo(formals, code, env) => Word(3, 3) + (Layout(formals) + Layout(code) + Layout(env))
    case Env(Global) => Word(4, 0xf0000000000001)
    case Env(Empty) => Word(4, 0xf0000000000000)
    case Env(Base) => Word(4, 0xf0000000000002)
    case Env(Custom) => Word(4, 0)
    case Other(ts) => Word(ts, 0)
  }

  function TextsLayout(elts: seq<Sexp>): seq<byte> {
    if elts == [] then [] else Terminated(9, if elts[0].body.Char? then elts[0].body.text else []) + TextsLayout(elts[1..])
  }

  function ManyLayout(elts: seq<Sexp>): seq<byte> {
    if elts == [] then [] else Layout(elts[0]) + ManyLayout(elts[1..])
  }

  /** The tag of a cell, then its value. */
  function CellsLayout(cells: seq<Cell>): seq<byte> {
    if cells == [] then [] else
      var cell := cells[0];
      assert cell.tag < cell && cell.car < cell;
      Layout(cell.tag) + Layout(cell.car) + CellsLayout(cells[1..])
  }

  // The writer produces this layout.

  lemma HeaderIsWord(code: byte, n: nat)
    requires n < COUNT_LIMIT
    ensures Header(code, n) == Word(code, n)
  {
    hide Word;
    ShiftDropsHighByte(n);
    assert HeaderWord(code, n) == n * 256 + code;
    assert Header(code, n) == [code] + ToLittleEndian(n, 7);
    WordParts(code, n);
  }

  lemma WordParts(code: byte, n: nat)
    ensures Word(code, n) == [code] + ToLittleEndian(n, 7)
  {
    FourBytes(n);
    var m := n / 0x1_0000_0000;
    assert m / 0x100 == n / 0x100_0000_0000 && m / 0x1_0000 == n / 0x1_0000_0000_0000;
    assert ToLittleEndian(m, 3) == [m % 256, m / 0x100 % 256, m / 0x1_0000 % 256] by {
      assert m / 0x100 / 256 == m / 0x1_0000;
      assert ToLittleEndian(m / 0x100, 2) == [m / 0x100 % 256] + ToLittleEndian(m / 0x1_0000, 1);
      assert ToLittleEndian(m / 0x1_0000, 1) == [m / 0x1_0000 % 256] + [];
    }
    hide ToLittleEndian;
  }

  lemma FourBytes(n: nat)
    ensures ToLittleEndian(n, 7) ==
            [n % 256, n / 0x100 % 256, n / 0x1_0000 % 256, n / 0x100_0000 % 256] + ToLittleEndian(n / 0x1_0000_0000, 3)
  {
    assert n / 0x100 / 256 == n / 0x1_0000 && n / 0x1_0000 / 256 == n / 0x100_0000;
    assert n / 0x100_0000 / 256 == n / 0x1_0000_0000;
    assert ToLittleEndian(n / 0x100, 6) == [n / 0x100 % 256] + ToLittleEndian(n / 0x1_0000, 5);
    assert ToLittleEndian(n / 0x1_0000, 5) == [n / 0x1_0000 % 256] + ToLittleEndian(n / 0x100_0000, 4);
    assert ToLittleEndian(n / 0x100_0000, 4) == [n / 0x100_0000 % 256] + ToLittleEndian(n / 0x1_0000_0000, 3);
  }

  lemma FlatOne(c: Call)
    requires c.len < COUNT_LIMIT
    ensures Flat([c]) == Word(c.ts, c.len) + Payload(c)
  {
    hide Header;
    FlatSnoc([], c);
    assert [] + [c] == [c];
    HeaderIsWord(c.ts, c.len);
  }

  lemma FlatCons(c: Call, more: seq<Call>)
    requires c.len < COUNT_LIMIT
    ensures Flat([c] + more) == Word(c.ts, c.len) + Payload(c) + Flat(more)
  {
    hide Header, Flat, Word;
    FlatOne(c);
    FlatAppend([c], more);
  }

  /** Every well-formed value is written in this layout: each part where it belongs, each byte as it is. */
  lemma {:induction false} WrittenAsLaidOut(v: Sexp)
    requires WellFormed(v)
    ensures Encode(v) == Layout(v)
    decreases v, 1
  {
    hide Flat, Word, Header;
    BodyLaidOut(v.body);
    if KeepsAttributes(v.body) && v.attr != [] {
      var c := Call(ATTRSXP, 0, |v.attr|, None);
      CellsLaidOut(v.attr);
      FlatCons(c, CellCalls(v.attr));
      FlatAppend([c] + CellCalls(v.attr), BodyCalls(v.body));
    } else {
      assert [] + BodyCalls(v.body) == BodyCalls(v.body) && [] + BodyLayout(v.body) == BodyLayout(v.body);
    }
  }

  lemma {:induction false} BodyLaidOut(b: Body)
    requires WellFormed(Sexp([], b))
    ensures Flat(BodyCalls(b)) == BodyLayout(b)
    decreases b, 0
  {
    hide Flat, Word, Header;
    match b
    case Sym(name) => FlatOne(NameCall(name));
    case Num(kind, n, data) => FlatOne(Call(kind.Code(), kind.Width(), n, Some(data)));
    case Vec(isStr, elts) => VecLaidOut(b);
    case Pairs(cells) =>
      CellsLaidOut(cells);
      FlatCons(Call(PairsCode(cells), 0, |cells|, None), CellCalls(cells));
    case Clo(formals, code, env) => CloLaidOut(b);
    case Nil => FlatOne(Call(NILSXP, 0, 0, None));
    case Env(which) => FlatOne(Call(ENVSXP, 0, which.Code(), None));
    case Other(ts) => FlatOne(Call(ts, 0, 0, None));
  }

  lemma {:induction false} VecLaidOut(b: Body)
    requires b.Vec? && WellFormed(Sexp([], b))
    ensures Flat(BodyCalls(b)) == BodyLayout(b)
    decreases b, 0, 0
  {
    hide Flat, Word, Header;
    if b.isStr {
      TextsLaidOut(b.elts);
      FlatCons(Call(STRSXP, 0, |b.elts|, None), TextCalls(b.elts));
    } else {
      ManyLaidOut(b.elts);
      FlatCons(Call(VECSXP, 0, |b.elts|, None), ManyCalls(b.elts));
    }
  }

  lemma {:induction false} CloLaidOut(b: Body)
    requires b.Clo? && WellFormed(Sexp([], b))
    ensures Flat(BodyCalls(b)) == BodyLayout(b)
    decreases b, 0, 0
  {
    hide Flat, Word, Header;
    WrittenAsLaidOut(b.formals);
    WrittenAsLaidOut(b.code);
    WrittenAsLaidOut(b.env);
    var f, c, e := Calls(b.formals), Calls(b.code), Calls(b.env);
    FlatCons(Call(CLOSXP, 0, 3, None), f + c + e);
    FlatAppend(f + c, e);
    FlatAppend(f, c);
  }

  lemma {:induction false} TextsLaidOut(elts: seq<Sexp>)
    requires forall i | 0 <= i < |elts| :: elts[i].body.Char? && |elts[i].body.text| < COUNT_LIMIT - 1
    ensures Flat(TextCalls(elts)) == TextsLayout(elts)
    decreases elts, 0
  {
    hide Word, Header;
    if elts != [] {
      hide Flat;
      TextsLaidOut(elts[1..]);
      FlatCons(TextCall(elts[0]), TextCalls(elts[1..]));
      var t := CString(elts[0].body.text);
      Assoc(Word(9, |t| + 1), t, [0]);
    }
  }

  lemma {:induction false} ManyLaidOut(elts: seq<Sexp>)
    requires forall i | 0 <= i < |elts| :: WellFormed(elts[i])
    ensures Flat(ManyCalls(elts)) == ManyLayout(elts)
    decreases elts, 0
  {
    if elts != [] {
      hide Flat;
      WrittenAsLaidOut(elts[0]);
      ManyLaidOut(elts[1..]);
      FlatAppend(Calls(elts[0]), ManyCalls(elts[1..]));
    }
  }

  lemma {:induction false} CellsLaidOut(cells: seq<Cell>)
    requires forall i | 0 <= i < |cells| :: WellFormed(cells[i].tag) && WellFormed(cells[i].car)
    ensures Flat(CellCalls(cells)) == CellsLayout(cells)
    decreases cells, 0
  {
    if cells != [] {
      hide Flat;
      var cell := cells[0];
      assert cell.tag < cell && cell.car < cell;
      WrittenAsLaidOut(cell.tag);
      WrittenAsLaidOut(cell.car);
      CellsLaidOut(cells[1..]);
      FlatAppend(Calls(cell.tag) + Calls(cell.car), CellCalls(cells[1..]));
      FlatAppend(Calls(cell.tag), Calls(cell.car));
    }
  }
}
