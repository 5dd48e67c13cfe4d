/** The deserialiser, reading through the fetch interface from memory, a file or a socket. */
module SfsLoad {
  import opened Bytes
  import opened Values
  import opened Decoder

  datatype Backend = Memory | File | Socket {
    /** The most one read asks for. */
    function Limit(): nat
      ensures Limit() > 0
    {
      if this == Socket then 1024 * 1024 else 1024 * 1024 * 128
    }
  }

  /** How one read call turns out: nothing yet, a failure, or at most `k` bytes. */
  datatype Event = Again | Fault | Give(k: nat)

  datatype Loaded<+T> = Ok(value: T) | Err | Undef

  class FetchApi {
    const kind: Backend
    var rest: seq<byte>      // what the source still holds
    var script: seq<Event>   // how the next read calls turn out; full reads after that
    var faulted: bool        // a read call has failed
    var scratch: Scratch     // the static decoding buffer

    constructor (kind: Backend, bytes: seq<byte>, script: seq<Event>, scratch: Scratch)
      ensures this.kind == kind && rest == bytes && this.script == script && this.scratch == scratch && !faulted
    {
      this.kind, rest, this.script, this.scratch, faulted := kind, bytes, script, scratch, false;
    }

    /** One `read` or `recv`: negative for an error, zero only at the end of the source. */
    method Read(need: nat) returns (n: int, again: bool, got: seq<byte>)
      requires need > 0 && !faulted
      modifies `rest, `script, `faulted
      ensures -1 <= n <= need && |script| <= |old(script)|
      ensures Fault in script ==> Fault in old(script)
      ensures n < 0 ==> rest == old(rest)
      ensures n < 0 && again ==> !faulted && |script| < |old(script)|
      ensures n < 0 && !again ==> faulted && Fault in old(script)
      ensures n >= 0 ==> !faulted && n <= |old(rest)| && got == old(rest)[..n] && rest == old(rest)[n..]
      ensures n == 0 ==> old(rest) == []
    {
      again, got := false, [];
      var k := need;
      if script != [] {
        var e := script[0];
        script := script[1..];
        match e
        case Again => return -1, true, [];
        case Fault => faulted := true; return -1, false, [];
        case Give(m) => k := if m == 0 then 1 else if m < need then m else need;
      }
      n := if k < |rest| then k else |rest|;
      got, rest := rest[..n], rest[n..];
    }

    /** Exact-bounds copy from memory. */
    method FetchBuf(len: nat) returns (ok: bool, data: seq<byte>)
      modifies `rest
      ensures ok <==> len <= |old(rest)|
      ensures ok ==> data == old(rest)[..len] && rest == old(rest)[len..]
    {
      if |rest| < len { return false, []; }
      ok, data, rest := true, rest[..len], rest[len..];
    }

    /** The short-read loop with retry, for files and sockets. */
    method FetchLoop(len: nat) returns (ok: bool, data: seq<byte>)
      requires !faulted
      modifies `rest, `script, `faulted
      ensures ok ==> !faulted && len <= |old(rest)| && data == old(rest)[..len] && rest == old(rest)[len..]
      ensures !ok && !faulted ==> |old(rest)| < len
      ensures faulted ==> Fault in old(script)
      ensures Fault in script ==> Fault in old(script)
    {
      var i := 0;
      data := [];
      while i < len
        invariant 0 <= i <= len && i <= |old(rest)| && !faulted
        invariant data == old(rest)[..i] && rest == old(rest)[i..]
        invariant Fault in script ==> Fault in old(script)
        decreases len - i, |script|
      {
        var need := if len - i > kind.Limit() then kind.Limit() else len - i;
        var n, again, got := Read(need);
        if n < 0 {
          if again { continue; }
          return false, data;
        }
        if n == 0 { return false, data; }
        data := data + got;
        i := i + n;
      }
      ok := true;
    }

    /** The fetch function pointer: whatever the back end and the schedule, the same bytes. */
    method Fetch(len: nat) returns (ok: bool, data: seq<byte>)
      requires !faulted
      modifies `rest, `script, `faulted
      ensures ok ==> !faulted && len <= |old(rest)| && data == old(rest)[..len] && rest == old(rest)[len..]
      ensures !ok && !faulted ==> |old(rest)| < len
      ensures faulted ==> Fault in old(script)
      ensures Fault in script ==> Fault in old(script)
    {
      if kind == Memory { ok, data := FetchBuf(len); } else { ok, data := FetchLoop(len); }
    }

    /** The method did what the decoder function says, unless a read call failed and it reported an error. */
    ghost predicate Agrees<T>(o: Loaded<T>, spec: Outcome<T>)
      reads this
    {
      if faulted then o == Err else
      match spec
      case Done(v, r, s) => o == Ok(v) && rest == r && scratch == s
      case Error => o == Err
      case Undefined => o == Undef
    }

    /** One value: its optional attributes, then its header and body. */
    method Load() returns (o: Loaded<Sexp>)
      requires !faulted
      modifies this
      ensures Agrees(o, Decoder.Load(old(rest), old(scratch)))
      ensures (faulted ==> Fault in old(script)) && (Fault in script ==> Fault in old(script))
      decreases |rest|, 1
    {
      ghost var b, s := rest, scratch;
      var ok, bytes := Fetch(HEADER_SIZE);
      if !ok { return Err; }
      var hdr := FromLittleEndian(bytes);
      var attr: seq<Cell> := [];
      if hdr % 256 == ATTRSXP {
        var a := LoadCells(false, hdr / 256);
        match a
        case Err => return Err;
        case Undef => return Undef;
        case Ok(cells) => attr := cells;
        b, s := rest, scratch;
        assert Decoder.Load(old(rest), old(scratch)) == Decoder.LoadBody(attr, b, s);
        ok, bytes := Fetch(HEADER_SIZE);
        if !ok { return Err; }
        hdr := FromLittleEndian(bytes);
      }
      assert Decoder.Load(old(rest), old(scratch)) == Decoder.LoadBody(attr, b, s);
      assert hdr == FromLittleEndian(b[..HEADER_SIZE]) && rest == b[HEADER_SIZE..] && scratch == s;
      var d := DecodeOne(hdr % 256, hdr / 256);
      match d
      case Err => return Err;
      case Undef => return Undef;
      case Ok(body) => return Ok(Sexp(attr, body));
    }

    method DecodeOne(ts: byte, len: nat) returns (o: Loaded<Body>)
      requires !faulted
      modifies this
      ensures Agrees(o, Decoder.DecodeOne(ts, len, old(rest), old(scratch)))
      ensures (faulted ==> Fault in old(script)) && (Fault in script ==> Fault in old(script))
      decreases |rest|, 3
    {
      if ts == NILSXP { return Ok(Nil); }
      else if ts == INTSXP { o := LoadNum(Int, len); }
      else if ts == LGLSXP { o := LoadNum(Lgl, len); }
      else if ts == REALSXP { o := LoadNum(Real, len); }
      else if ts == CPLXSXP { o := LoadNum(Cplx, len); }
      else if ts == SYMSXP && len == 0 { return Ok(Sym([])); }
      else if ts == SYMSXP || ts == CHARSXP {
        var t := LoadText(len);
        match t
        case Err => return Err;
        case Undef => return Undef;
        case Ok(text) =>
          if ts == SYMSXP && text == [] { return Err; }
          return Ok(if ts == SYMSXP then Sym(text) else Char(text));
      } else if ts == VECSXP || ts == STRSXP {
        var e := LoadMany(len);
        match e
        case Err => return Err;
        case Undef => return Undef;
        case Ok(elts) => return Ok(Vec(ts == STRSXP, elts));
      } else if ts == CLOSXP { o := LoadClosure(); }
      else if ts == ATTRSXP || ts == LISTSXP || ts == LANGSXP {
        var c := LoadCells(ts == LANGSXP, len);
        match c
        case Err => return Err;
        case Undef => return Undef;
        case Ok(cells) => return Ok(if cells == [] then Nil else Pairs(cells));
      } else if ts == ENVSXP {
        if len == GLOBAL_ENV { return Ok(Env(Global)); }
        if len == EMPTY_ENV { return Ok(Env(Empty)); }
        return Ok(Env(Base));
      } else { return Err; }
    }

    method LoadNum(kind: NumKind, n: nat) returns (o: Loaded<Body>)
      requires !faulted
      modifies this
      ensures Agrees(o, Decoder.LoadNum(kind, n, old(rest), old(scratch)))
      ensures (faulted ==> Fault in old(script)) && (Fault in script ==> Fault in old(script))
    {
      var ok, data := Fetch(kind.Width() * n);
      o := if ok then Ok(Num(kind, n, data)) else Err;
    }

    /** Short text goes through the scratch buffer; for long text nothing is fetched. */
    method LoadText(len: nat) returns (o: Loaded<seq<byte>>)
      requires !faulted
      modifies this
      ensures Agrees(o, Decoder.LoadText(len, old(rest), old(scratch)))
      ensures (faulted ==> Fault in old(script)) && (Fault in script ==> Fault in old(script))
    {
      if len >= SCRATCH_SIZE { return Undef; }
      var ok, data := Fetch(len);
      if !ok { return Err; }
      assert (data + scratch[len..])[SCRATCH_SIZE - 1] == scratch[SCRATCH_SIZE - 1];
      scratch := data + scratch[len..];
      o := Ok(CString(scratch));
    }

    method LoadClosure() returns (o: Loaded<Body>)
      requires !faulted
      modifies this
      ensures Agrees(o, Decoder.LoadClosure(old(rest), old(scratch)))
      ensures (faulted ==> Fault in old(script)) && (Fault in script ==> Fault in old(script))
      decreases |rest|, 2
    {
      var f := Load();
      match f
      case Err => return Err;
      case Undef => return Undef;
      case Ok(formals) =>
        var c := Load();
        match c
        case Err => return Err;
        case Undef => return Undef;
        case Ok(code) =>
          var e := Load();
          match e
          case Err => return Err;
          case Undef => return Undef;
          case Ok(env) => return Ok(Clo(formals, code, env));
    }

    /** The element loop of lists and string vectors. */
    method LoadMany(len: nat) returns (o: Loaded<seq<Sexp>>)
      requires !faulted
      modifies this
      ensures Agrees(o, Decoder.LoadMany(len, old(rest), old(scratch)))
      ensures (faulted ==> Fault in old(script)) && (Fault in script ==> Fault in old(script))
      decreases |rest|, 2
    {
      var i, res := 0, [];
      PrependNothing(Decoder.LoadMany(len, rest, scratch));
      while i < len
        invariant 0 <= i <= len && !faulted && |rest| <= |old(rest)|
        invariant Fault in script ==> Fault in old(script)
        invariant Decoder.LoadMany(len, old(rest), old(scratch)) == Prepend(res, Decoder.LoadMany(len - i, rest, scratch))
      {
        var v := Load();
        match v
        case Err => return Err;
        case Undef => return Undef;
        case Ok(x) =>
          PrependOne(res, x, Decoder.LoadMany(len - i - 1, rest, scratch));
          res := res + [x];
        i := i + 1;
      }
      assert res + [] == res;
      o := Ok(res);
    }

    /** The cell loop of pairlists: a tag, a value, and a new cell linked behind the last. */
    method LoadCells(lang: bool, len: nat) returns (o: Loaded<seq<Cell>>)
      requires !faulted
      modifies this
      ensures Agrees(o, Decoder.LoadCells(lang, len, old(rest), old(scratch)))
      ensures (faulted ==> Fault in old(script)) && (Fault in script ==> Fault in old(script))
      decreases |rest|, 2
    {
      var i, res := 0, [];
      PrependNothing(Decoder.LoadCells(lang, len, rest, scratch));
      while i < len
        invariant 0 <= i <= len && !faulted && |rest| <= |old(rest)|
        invariant Fault in script ==> Fault in old(script)
        invariant Decoder.LoadCells(lang, len, old(rest), old(scratch))
               == Prepend(res, Decoder.LoadCells(lang, len - i, rest, scratch))
      {
        var t := Load();
        match t
        case Err => return Err;
        case Undef => return Undef;
        case Ok(tag) =>
          var v := Load();
          match v
          case Err => return Err;
          case Undef => return Undef;
          case Ok(val) =>
            PrependOne(res, Cell(lang, tag, val), Decoder.LoadCells(lang, len - i - 1, rest, scratch));
            res := res + [Cell(lang, tag, val)];
        i := i + 1;
      }
      assert res + [] == res;
      o := Ok(res);
    }
  }

  function Prepend<T>(front: seq<T>, o: Outcome<seq<T>>): Outcome<seq<T>> {
    match o
    case Done(v, r, s) => Done(front + v, r, s)
    case Error => Error
    case Undefined => Undefined
  }

  lemma PrependNothing<T>(o: Outcome<seq<T>>)
    ensures Prepend([], o) == o
  {
    if o.Done? { assert [] + o.value == o.value; }
  }

  lemma PrependOne<T>(front: seq<T>, x: T, o: Outcome<seq<T>>)
    ensures Prepend(front + [x], o) == Prepend(front, Prepend([x], o))
  {
    if o.Done? { Assoc(front, [x], o.value); }
  }
}
