/** The encoding frames itself: reading is stable under more input, truncation is always noticed. */
module Framing {
  import opened Bytes
  import opened Values
  import opened Decoder
  import opened Recovery

  /** With `x` appended to the input the reader does the same and leaves `x` after its old remainder. */
  ghost predicate Extends<T>(o: Outcome<T>, p: Outcome<T>, x: seq<byte>) {
    match o
    case Done(v, rest, s) => p == Done(v, rest + x, s)
    case Undefined => p == Undefined
    case Error => true
  }

  lemma {:induction false} LoadExtends(b: seq<byte>, x: seq<byte>, s: Scratch)
    ensures Extends(Load(b, s), Load(b + x, s), x)
    decreases |b|, 1
  {
    if |b| >= HEADER_SIZE {
      SplitHeader(b, x);
      var hdr := FromLittleEndian(b[..HEADER_SIZE]);
      if hdr % 256 != ATTRSXP {
        LoadBodyExtends([], b, x, s);
      } else {
        LoadCellsExtends(false, hdr / 256, b[HEADER_SIZE..], x, s);
        var o := LoadCells(false, hdr / 256, b[HEADER_SIZE..], s);
        if o.Done? { LoadBodyExtends(o.value, o.rest, x, o.scratch); }
      }
    }
  }

  lemma SplitHeader(b: seq<byte>, x: seq<byte>)
    requires |b| >= HEADER_SIZE
    ensures (b + x)[..HEADER_SIZE] == b[..HEADER_SIZE]
    ensures (b + x)[HEADER_SIZE..] == b[HEADER_SIZE..] + x
  {}

  lemma {:induction false} LoadBodyExtends(attr: seq<Cell>, b: seq<byte>, x: seq<byte>, s: Scratch)
    ensures Extends(LoadBody(attr, b, s), LoadBody(attr, b + x, s), x)
    decreases |b|, 0
  {
    if |b| >= HEADER_SIZE {
      SplitHeader(b, x);
      var hdr := FromLittleEndian(b[..HEADER_SIZE]);
      DecodeOneExtends(hdr % 256, hdr / 256, b[HEADER_SIZE..], x, s);
    }
  }

  lemma {:induction false} DecodeOneExtends(ts: byte, len: nat, b: seq<byte>, x: seq<byte>, s: Scratch)
    ensures Extends(DecodeOne(ts, len, b, s), DecodeOne(ts, len, b + x, s), x)
    decreases |b|, 3
  {
    if ts in {INTSXP, LGLSXP, REALSXP, CPLXSXP} {
      LoadNumExtends(if ts == INTSXP then Int else if ts == LGLSXP then Lgl else if ts == REALSXP then Real else Cplx,
                     len, b, x, s);
    } else if ts == SYMSXP || ts == CHARSXP {
      LoadTextExtends(len, b, x, s);
    } else if ts == VECSXP || ts == STRSXP {
      LoadManyExtends(len, b, x, s);
    } else if ts == CLOSXP {
      LoadClosureExtends(b, x, s);
    } else if ts in {ATTRSXP, LISTSXP, LANGSXP} {
      LoadCellsExtends(ts == LANGSXP, len, b, x, s);
    }
  }

  lemma LoadNumExtends(kind: NumKind, n: nat, b: seq<byte>, x: seq<byte>, s: Scratch)
    ensures Extends(LoadNum(kind, n, b, s), LoadNum(kind, n, b + x, s), x)
  {
    var size := kind.Width() * n;
    if |b| >= size { assert (b + x)[..size] == b[..size] && (b + x)[size..] == b[size..] + x; }
  }

  lemma LoadTextExtends(len: nat, b: seq<byte>, x: seq<byte>, s: Scratch)
    ensures Extends(LoadText(len, b, s), LoadText(len, b + x, s), x)
  {
    if |b| >= len { assert (b + x)[..len] == b[..len] && (b + x)[len..] == b[len..] + x; }
  }

  lemma {:induction false} LoadClosureExtends(b: seq<byte>, x: seq<byte>, s: Scratch)
    ensures Extends(LoadClosure(b, s), LoadClosure(b + x, s), x)
    decreases |b|, 2
  {
    LoadExtends(b, x, s);
    var o := Load(b, s);
    if o.Done? {
      LoadExtends(o.rest, x, o.scratch);
      var o1 := Load(o.rest, o.scratch);
      if o1.Done? { LoadExtends(o1.rest, x, o1.scratch); }
    }
  }

  lemma {:induction false} LoadManyExtends(n: nat, b: seq<byte>, x: seq<byte>, s: Scratch)
    ensures Extends(LoadMany(n, b, s), LoadMany(n, b + x, s), x)
    decreases |b|, 2
  {
    if n > 0 {
      LoadExtends(b, x, s);
      var o := Load(b, s);
      if o.Done? { LoadManyExtends(n - 1, o.rest, x, o.scratch); }
    }
  }

  lemma {:induction false} LoadCellsExtends(lang: bool, n: nat, b: seq<byte>, x: seq<byte>, s: Scratch)
    ensures Extends(LoadCells(lang, n, b, s), LoadCells(lang, n, b + x, s), x)
    decreases |b|, 2
  {
    if n > 0 {
      LoadExtends(b, x, s);
      var o := Load(b, s);
      if o.Done? {
        LoadExtends(o.rest, x, o.scratch);
        var o1 := Load(o.rest, o.scratch);
        if o1.Done? { LoadCellsExtends(lang, n - 1, o1.rest, x, o1.scratch); }
      }
    }
  }

  /** Every proper prefix of a supported value's encoding is rejected with an error. */
  lemma TruncationIsAnError(v: Sexp, n: nat, s: Scratch)
    requires WellFormed(v) && Supported(v) && n < |Encode(v)|
    ensures Load(Encode(v)[..n], s) == Error
  {
    var e := Encode(v);
    assert e[..n] + e[n..] == e == e + [];
    RoundTrip(v, [], s);
    LoadExtends(e[..n], e[n..], s);
  }

  /** No encoding of a supported value is a proper prefix of any other encoding. */
  lemma PrefixFree(v: Sexp, w: Sexp)
    requires WellFormed(v) && WellFormed(w) && Supported(v)
    requires Encode(v) <= Encode(w)
    ensures Encode(v) == Encode(w) && Supported(w) && Norm(v) == Norm(w)
  {
    var s: Scratch := seq(SCRATCH_SIZE, i => 0);
    var x := Encode(w)[|Encode(v)|..];
    assert Encode(v) + x == Encode(w) == Encode(w) + [];
    RoundTrip(v, x, s);
    RoundTrip(w, [], s);
  }

  /** Reading a concatenation of encodings gives the values in order: the format is a stream. */
  lemma {:induction false} StreamRoundTrip(vs: seq<Sexp>, s: Scratch)
    requires forall i | 0 <= i < |vs| :: WellFormed(vs[i])
    ensures Reads(LoadMany(|vs|, Flat(ManyCalls(vs)), s), SupportedMany(vs), NormMany(vs), [])
  {
    ManyRoundTrip(vs, [], s);
    assert Flat(ManyCalls(vs)) + [] == Flat(ManyCalls(vs));
  }

  /** A text read through the scratch buffer always ends inside it, whatever the input was. */
  lemma {:induction false} TextEndsInsideScratch(s: Scratch)
    ensures |CString(s)| < SCRATCH_SIZE && s[|CString(s)|] == 0
  {
    CStringEnds(s);
  }

  /** Values the serialiser writes and nobody can read back: a raw vector, a value of a type without a
      reader, and a list that holds a string of 8191 bytes or more. */
  lemma UnreadableExamples(v: Sexp, t: seq<byte>, s: Scratch)
    requires 0 !in t && SCRATCH_SIZE - 1 <= |t| < COUNT_LIMIT - 1
    requires v.attr == []
    requires v.body == Num(Raw, 1, [7]) || v.body == Other(S4SXP) || v.body == Vec(false, [Sexp([], StringVector(t))])
    ensures WellFormed(v) && !Load(Encode(v), s).Done?
  {
    if v.body.Vec? {
      NoNul(t);
      var texts := v.body.elts[0].body.elts;
      assert texts[0].body.Char? && !TextFits(texts[0].body.text);
      assert !SupportedTexts(texts);
      assert !SupportedBody(v.body.elts[0].body);
      assert !Supported(v.body.elts[0]);
    }
    LoneValue(v, s);
  }

  function StringVector(t: seq<byte>): Body {
    Vec(true, [Sexp([], Char(t))])
  }

  /** Nothing after the value: reading succeeds exactly for the supported values. */
  lemma LoneValue(v: Sexp, s: Scratch)
    requires WellFormed(v)
    ensures Reads(Load(Encode(v), s), Supported(v), Norm(v), [])
  {
    RoundTrip(v, [], s);
    assert Encode(v) + [] == Encode(v);
  }

  lemma {:induction false} NoNul(t: seq<byte>)
    requires 0 !in t
    ensures CString(t) == t
  {
    if t != [] { NoNul(t[1..]); }
  }
}
