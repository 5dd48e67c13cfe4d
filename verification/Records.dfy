/** Single records as the reader takes them, those among them that no writer produces. */
module Records {
  import opened Bytes
  import opened Values
  import opened Decoder
  import opened Layout

  lemma RecordTaken(code: byte, n: nat, r: seq<byte>, s: Scratch)
    requires n < COUNT_LIMIT && code != ATTRSXP
    ensures Load(Word(code, n) + r, s) ==
            match DecodeOne(code, n, r, s)
            case Error => Error
            case Undefined => Undefined
            case Done(body, b1, s1) => Done(Sexp([], body), b1, s1)
  {
    hide Word, Header, DecodeOne, FromLittleEndian;
    var b := Word(code, n) + r;
    HeaderIsWord(code, n);
    HeaderRoundTrip(code, n);
    assert b[..HEADER_SIZE] == Word(code, n) && b[HEADER_SIZE..] == r;
  }

  /** A type code without a reader is an error: raw vectors, promises, builtins, byte code and the rest. */
  lemma UnknownCode(code: byte, n: nat, r: seq<byte>, s: Scratch)
    requires n < COUNT_LIMIT && code !in {0, 1, 2, 3, 4, 6, 9, 10, 13, 14, 15, 16, 19, 255}
    ensures Load(Word(code, n) + r, s) == Error
  {
    RecordTaken(code, n, r, s);
  }

  /** A text of 8192 bytes or more, its terminator counted, is built from memory nobody has written. */
  lemma LongText(code: byte, n: nat, r: seq<byte>, s: Scratch)
    requires code in {1, 9} && 8192 <= n < COUNT_LIMIT
    ensures Load(Word(code, n) + r, s) == Undefined
  {
    RecordTaken(code, n, r, s);
  }

  /** A text runs to its first NUL; without one it goes on with what an earlier, longer text left in the buffer. */
  lemma TextRecord(text: seq<byte>, r: seq<byte>, s: Scratch)
    requires |text| < 8192
    ensures var all := text + s[|text|..];
            ScratchOk(all) && Load(Word(9, |text|) + (text + r), s) == Done(Sexp([], Char(CString(all))), r, all)
  {
    RecordTaken(9, |text|, text + r, s);
    assert (text + r)[..|text|] == text && (text + r)[|text|..] == r;
  }

  /** A string of no bytes at all is the text that was read before it. */
  lemma StaleText(text: seq<byte>, more: seq<byte>, r: seq<byte>, s: Scratch)
    requires 0 !in text && |text| < 8191
    ensures var first := Load(Word(9, |text| + 1) + (text + [0] + (Word(9, 0) + r)), s);
            && first.Done? && first.value == Sexp([], Char(text)) && first.rest == Word(9, 0) + r
            && Load(first.rest, first.scratch).Done? && Load(first.rest, first.scratch).value == Sexp([], Char(text))
            && Load(first.rest, first.scratch).rest == r
  {
    hide Word, Load;
    var t := text + [0];
    TextRecord(t, Word(9, 0) + r, s);
    var all := t + s[|t|..];
    CStringOfTerminated(text, s[|t|..]);
    TextRecord([], r, all);
    assert [] + r == r && [] + all[0..] == all;
  }

  /** A name that begins with its terminator cannot be installed. */
  lemma EmptyName(n: nat, r: seq<byte>, s: Scratch)
    requires 0 < n < 8192 && n <= |r| && r[0] == 0
    ensures Load(Word(1, n) + r, s) == Error
  {
    RecordTaken(1, n, r, s);
    assert (r[..n] + s[n..])[0] == 0;
  }

  /** A list without cells is the null value, a vector without elements is not. */
  lemma EmptyRecords(r: seq<byte>, s: Scratch)
    ensures Load(Word(2, 0) + r, s) == Load(Word(6, 0) + r, s) == Load(Word(0, 0) + r, s) == Done(NIL_VALUE, r, s)
    ensures Load(Word(19, 0) + r, s) == Done(Sexp([], Vec(false, [])), r, s)
    ensures Load(Word(16, 0) + r, s) == Done(Sexp([], Vec(true, [])), r, s)
    ensures Load(Word(1, 0) + r, s) == Done(Sexp([], Sym([])), r, s)
  {
    hide Load, Word, LoadText, LoadClosure;
    RecordTaken(0, 0, r, s);
    RecordTaken(2, 0, r, s);
    RecordTaken(6, 0, r, s);
    RecordTaken(19, 0, r, s);
    RecordTaken(16, 0, r, s);
    RecordTaken(1, 0, r, s);
  }

  /** Any number but those of the global and the empty environment stands for the base environment. */
  lemma EnvironmentRecord(n: nat, r: seq<byte>, s: Scratch)
    requires n < COUNT_LIMIT
    ensures Load(Word(4, n) + r, s) ==
            Done(Sexp([], Env(if n == 0xf0000000000001 then Global else if n == 0xf0000000000000 then Empty else Base)), r, s)
  {
    RecordTaken(4, n, r, s);
  }

  /** Vectors of numbers take their bytes as they are, and too few are an error. */
  lemma NumberRecord(kind: NumKind, code: byte, width: nat, n: nat, r: seq<byte>, s: Scratch)
    requires n < COUNT_LIMIT
    requires (kind, code, width) in {(Lgl, 10, 4), (Int, 13, 4), (Real, 14, 8), (Cplx, 15, 16)}
    ensures Load(Word(code, n) + r, s) ==
            if |r| < width * n then Error else Done(Sexp([], Num(kind, n, r[..width * n])), r[width * n..], s)
  {
    RecordTaken(code, n, r, s);
  }
}
