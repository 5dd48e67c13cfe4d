/** The reader of the serialisation format as a function of the bytes and of the scratch buffer. */
module Decoder {
  import opened Bytes
  import opened Values

  /** Size of the static buffer that symbols and strings are read into. */
  const SCRATCH_SIZE: nat := 8192

  /** The scratch buffer is static, so it starts zeroed, and no read ever reaches its last byte. */
  predicate ScratchOk(s: seq<byte>) {
    |s| == SCRATCH_SIZE && s[SCRATCH_SIZE - 1] == 0
  }

  type Scratch = s: seq<byte> | ScratchOk(s) witness seq(SCRATCH_SIZE, i => 0)

  /** A finished read, an R error, or a read of memory that was never written. */
  datatype Outcome<+T> =
    | Done(value: T, rest: seq<byte>, scratch: Scratch)
    | Error
    | Undefined

  /** One value: its optional attributes, then its header and body. */
  function Load(b: seq<byte>, s: Scratch): (o: Outcome<Sexp>)
    ensures o.Done? ==> |o.rest| + HEADER_SIZE <= |b|
    decreases |b|, 1
  {
    if |b| < HEADER_SIZE then Error else
    var hdr := FromLittleEndian(b[..HEADER_SIZE]);
    if hdr % 256 != ATTRSXP then LoadBody([], b, s) else
    match LoadCells(false, hdr / 256, b[HEADER_SIZE..], s)
    case Error => Error
    case Undefined => Undefined
    case Done(attr, b1, s1) => LoadBody(attr, b1, s1)
  }

  /** A header and the body it announces, given attributes already read. */
  function LoadBody(attr: seq<Cell>, b: seq<byte>, s: Scratch): (o: Outcome<Sexp>)
    ensures o.Done? ==> |o.rest| + HEADER_SIZE <= |b|
    decreases |b|, 0
  {
    if |b| < HEADER_SIZE then Error else
    var hdr := FromLittleEndian(b[..HEADER_SIZE]);
    match DecodeOne(hdr % 256, hdr / 256, b[HEADER_SIZE..], s)
    case Error => Error
    case Undefined => Undefined
    case Done(body, b1, s1) => Done(Sexp(attr, body), b1, s1)
  }

  /** The body for a type code and count; a code without a reader is an error, and so is an attempt to install a symbol
      without a name. */
  function DecodeOne(ts: byte, len: nat, b: seq<byte>, s: Scratch): (o: Outcome<Body>)
    ensures o.Done? ==> |o.rest| <= |b|
    decreases |b|, 3
  {
    if ts == NILSXP then Done(Nil, b, s)
    else if ts == INTSXP then LoadNum(Int, len, b, s)
    else if ts == LGLSXP then LoadNum(Lgl, len, b, s)
    else if ts == REALSXP then LoadNum(Real, len, b, s)
    else if ts == CPLXSXP then LoadNum(Cplx, len, b, s)
    else if ts == SYMSXP then
      if len == 0 then Done(Sym([]), b, s) else
      match LoadText(len, b, s)
      case Error => Error
      case Undefined => Undefined
      case Done(text, b1, s1) => if text == [] then Error else Done(Sym(text), b1, s1)
    else if ts == CHARSXP then
      match LoadText(len, b, s)
      case Error => Error
      case Undefined => Undefined
      case Done(text, b1, s1) => Done(Char(text), b1, s1)
    else if ts == VECSXP || ts == STRSXP then
      match LoadMany(len, b, s)
      case Error => Error
      case Undefined => Undefined
      case Done(elts, b1, s1) => Done(Vec(ts == STRSXP, elts), b1, s1)
    else if ts == CLOSXP then
      LoadClosure(b, s)
    else if ts == ATTRSXP || ts == LISTSXP || ts == LANGSXP then
      match LoadCells(ts == LANGSXP, len, b, s)
      case Error => Error
      case Undefined => Undefined
      case Done(cells, b1, s1) => Done(if cells == [] then Nil else Pairs(cells), b1, s1)
    else if ts == ENVSXP then
      Done(Env(if len == GLOBAL_ENV then Global else if len == EMPTY_ENV then Empty else Base), b, s)
    else Error
  }

  function LoadClosure(b: seq<byte>, s: Scratch): (o: Outcome<Body>)
    ensures o.Done? ==> |o.rest| <= |b|
    decreases |b|, 2
  {
    match Load(b, s)
    case Error => Error
    case Undefined => Undefined
    case Done(formals, b1, s1) =>
      match Load(b1, s1)
      case Error => Error
      case Undefined => Undefined
      case Done(code, b2, s2) =>
        match Load(b2, s2)
        case Error => Error
        case Undefined => Undefined
        case Done(env, b3, s3) => Done(Clo(formals, code, env), b3, s3)
  }

  function LoadNum(kind: NumKind, n: nat, b: seq<byte>, s: Scratch): (o: Outcome<Body>)
    ensures o.Done? ==> |o.rest| <= |b|
  {
    var size := kind.Width() * n;
    if |b| < size then Error else Done(Num(kind, n, b[..size]), b[size..], s)
  }

  /** A payload shorter than the scratch buffer is read into it and taken as a C string.  A longer
      one is never fetched: the string is built from memory nobody has written. */
  function LoadText(len: nat, b: seq<byte>, s: Scratch): (o: Outcome<seq<byte>>)
    ensures o.Done? ==> |o.rest| <= |b|
  {
    if len >= SCRATCH_SIZE then Undefined
    else if |b| < len then Error
    else
      var s1 := b[..len] + s[len..];
      assert s1[SCRATCH_SIZE - 1] == s[SCRATCH_SIZE - 1];
      Done(CString(s1), b[len..], s1)
  }

  function LoadMany(n: nat, b: seq<byte>, s: Scratch): (o: Outcome<seq<Sexp>>)
    ensures o.Done? ==> |o.rest| <= |b| && |o.value| == n
    decreases |b|, 2
  {
    if n == 0 then Done([], b, s) else
    match Load(b, s)
    case Error => Error
    case Undefined => Undefined
    case Done(v, b1, s1) =>
      match LoadMany(n - 1, b1, s1)
      case Error => Error
      case Undefined => Undefined
      case Done(vs, b2, s2) => Done([v] + vs, b2, s2)
  }

  function LoadCells(lang: bool, n: nat, b: seq<byte>, s: Scratch): (o: Outcome<seq<Cell>>)
    ensures o.Done? ==> |o.rest| <= |b| && |o.value| == n
    decreases |b|, 2
  {
    if n == 0 then Done([], b, s) else
    match Load(b, s)
    case Error => Error
    case Undefined => Undefined
    case Done(tag, b1, s1) =>
      match Load(b1, s1)
      case Error => Error
      case Undefined => Undefined
      case Done(car, b2, s2) =>
        match LoadCells(lang, n - 1, b2, s2)
        case Error => Error
        case Undefined => Undefined
        case Done(cells, b3, s3) => Done([Cell(lang, tag, car)] + cells, b3, s3)
  }
}
