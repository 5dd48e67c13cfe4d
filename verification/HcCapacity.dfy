/** How much the buffer of the HTTP back end must hold: exactly which lengths are safe for every value. */
module HcCapacity {
  import opened Bytes
  import opened Values
  import opened HcStore

  // A buffer that is not flushed grows by every input.

  /** While the inputs fit the declared length, or its difference to the position has wrapped round to a huge room,
      nothing is flushed; so the copies stay inside exactly if there is memory for all of them. */
  lemma {:induction false} Accumulates(min: nat, len: nat, cap: nat, h: Hc, inputs: seq<seq<byte>>)
    requires h.buf != [] && len < WORD
    requires |h.buf| + |Concat(inputs)| <= len
             || (len < |h.buf| && forall i | 0 <= i < |inputs| :: cap + |inputs[i]| < WORD)
    ensures Stays(min, len, cap, h, inputs) <==> |h.buf| + |Concat(inputs)| <= cap
    decreases |inputs|
  {
    if inputs != [] && |h.buf| <= cap {
      var g := Step(min, len, h, inputs[0]);
      assert g.buf == h.buf + inputs[0];
      Accumulates(min, len, cap, g, inputs[1..]);
    }
  }

  lemma StaysCons(min: nat, len: nat, cap: nat, h: Hc, what: seq<byte>, more: seq<seq<byte>>)
    ensures Stays(min, len, cap, h, [what] + more) <==>
              |h.buf| <= cap && Stays(min, len, cap, Step(min, len, h, what), more)
  {
    assert ([what] + more)[1..] == more;
  }

  // Values whose store calls reach where they should.

  /** A raw vector of `n` bytes, and `k` lists of one element around a value. */
  function RawOf(n: nat): Sexp {
    Sexp([], Num(Raw, n, seq(n, i => 0)))
  }

  function Deep(k: nat, inner: Sexp): Sexp {
    if k == 0 then inner else Sexp([], Vec(false, [Deep(k - 1, inner)]))
  }

  lemma RawOfInputs(n: nat)
    ensures n < COUNT_LIMIT ==> WellFormed(RawOf(n))
    ensures Inputs(Calls(RawOf(n))) == [Header(RAWSXP, n), seq(n, i => 0)]
  {
    hide Header;
    var c := Call(RAWSXP, 1, n, Some(seq(n, i => 0)));
    assert Calls(RawOf(n)) == [] + [c];
    InputsSnoc([], c);
  }

  lemma ManyInputs(v: Sexp, more: seq<Sexp>)
    ensures Inputs(ManyCalls([v] + more)) == Inputs(Calls(v)) + Inputs(ManyCalls(more))
  {
    assert ([v] + more)[1..] == more;
    InputsAppend(Calls(v), ManyCalls(more));
  }

  lemma ListCalls(elts: seq<Sexp>)
    ensures Calls(Sexp([], Vec(false, elts))) == [Call(VECSXP, 0, |elts|, None)] + ManyCalls(elts)
  {}

  lemma ListInputs(elts: seq<Sexp>)
    ensures Inputs(Calls(Sexp([], Vec(false, elts)))) == [Header(VECSXP, |elts|)] + Inputs(ManyCalls(elts))
  {
    hide *;
    var c := Call(VECSXP, 0, |elts|, None);
    ListCalls(elts);
    InputsAppend([c], ManyCalls(elts));
    OneInput(c);
  }

  lemma OneInput(c: Call)
    requires c.buf.None?
    ensures Inputs([c]) == [Header(c.ts, c.len)]
  {
    hide Header;
    InputsSnoc([], c);
  }

  lemma OneElement(u: Sexp)
    ensures Inputs(Calls(Sexp([], Vec(false, [u])))) == [Header(VECSXP, 1)] + Inputs(Calls(u))
  {
    hide *;
    ListInputs([u]);
    assert [u] + [] == [u];
    ManyInputs(u, []);
    NoInputs();
  }

  lemma NoInputs()
    ensures Inputs(ManyCalls([])) == []
  {}

  predicate AtMost(inputs: seq<seq<byte>>, m: nat) {
    forall i | 0 <= i < |inputs| :: |inputs[i]| <= m
  }

  /** Nesting adds a header for each list. */
  lemma {:induction false} DeepInputs(k: nat, inner: Sexp)
    requires WellFormed(inner) && AtMost(Inputs(Calls(inner)), HEADER_SIZE)
    ensures var v := Deep(k, inner);
            && WellFormed(v) && AtMost(Inputs(Calls(v)), HEADER_SIZE)
            && |Encode(v)| == HEADER_SIZE * k + |Encode(inner)|
  {
    if k > 0 {
      hide Inputs, Calls, AtMost, Encode, WellFormed;
      DeepInputs(k - 1, inner);
      AroundOne(Deep(k - 1, inner));
      OneIsWell(Deep(k - 1, inner));
    }
  }

  lemma OneIsWell(u: Sexp)
    requires WellFormed(u)
    ensures WellFormed(Sexp([], Vec(false, [u])))
  {}

  lemma AroundOne(u: Sexp)
    requires AtMost(Inputs(Calls(u)), HEADER_SIZE)
    ensures var v := Sexp([], Vec(false, [u]));
            AtMost(Inputs(Calls(v)), HEADER_SIZE) && |Encode(v)| == HEADER_SIZE + |Encode(u)|
  {
    hide Inputs, Calls, Header;
    var v := Sexp([], Vec(false, [u]));
    OneElement(u);
    InputsAreFlat(Calls(u));
    InputsAreFlat(Calls(v));
    assert ([Header(VECSXP, 1)] + Inputs(Calls(u)))[1..] == Inputs(Calls(u));
  }

  lemma NullInputs()
    ensures WellFormed(NIL_VALUE) && AtMost(Inputs(Calls(NIL_VALUE)), HEADER_SIZE) && |Encode(NIL_VALUE)| == HEADER_SIZE
  {
    var c := Call(NILSXP, 0, 0, None);
    assert Calls(NIL_VALUE) == [] + [c];
    InputsSnoc([], c);
    InputsAreFlat(Calls(NIL_VALUE));
  }

  // A length that no position fits, such as the zero that fresh memory holds.

  lemma {:induction false} PartOfConcat(inputs: seq<seq<byte>>, i: nat)
    requires i < |inputs|
    ensures |inputs[i]| <= |Concat(inputs)|
  {
    if i > 0 { PartOfConcat(inputs[1..], i - 1); }
  }

  lemma HeaderFirst(v: Sexp)
    ensures |Calls(v)| > 0 && |Inputs(Calls(v))| > 0 && |Inputs(Calls(v))[0]| == HEADER_SIZE
  {
    hide Header;
    assert BodyCalls(v.body) != [];
    var c := Calls(v)[0];
    assert Inputs(Calls(v))[0] == InputsOf(c)[0] == Header(c.ts, c.len);
  }

  /** If not even a header fits behind the starting position, nothing is ever flushed: the buffer collects the whole
      encoding, whatever its size, and it stays inside exactly if there is memory for all of it. */
  lemma NothingFitsExact(min: nat, len: nat, cap: nat, unset: seq<byte>, v: Sexp)
    requires len < |unset| || (unset == [] && len < HEADER_SIZE < min)
    requires len < WORD && cap + |Encode(v)| < WORD
    ensures Stays(min, len, cap, Hc([], unset), Inputs(Calls(v))) <==> |unset| + |Encode(v)| <= cap
  {
    var inputs, h := Inputs(Calls(v)), Hc([], unset);
    InputsAreFlat(Calls(v));
    forall i | 0 <= i < |inputs| ensures cap + |inputs[i]| < WORD {
      PartOfConcat(inputs, i);
    }
    if unset == [] {
      HeaderFirst(v);
      var g := Step(min, len, h, inputs[0]);
      assert g.buf == inputs[0];
      hide Inputs, Calls, Step;
      assert |Concat(inputs)| == HEADER_SIZE + |Concat(inputs[1..])|;
      Accumulates(min, len, cap, g, inputs[1..]);
    } else {
      hide Inputs, Calls, Step;
      Accumulates(min, len, cap, h, inputs);
    }
  }

  /** With both fields zero, null values alone overrun once there are more of them than the memory holds headers. */
  lemma NestedNullsExact(min: nat, cap: nat, k: nat)
    requires HEADER_SIZE < min && cap + HEADER_SIZE * (k + 1) < WORD
    ensures WellFormed(Deep(k, NIL_VALUE))
    ensures Stays(min, 0, cap, Hc([], []), Inputs(Calls(Deep(k, NIL_VALUE)))) <==> k + 1 <= cap / HEADER_SIZE
  {
    hide Stays, Inputs, Calls, Encode, Deep;
    NullInputs();
    DeepInputs(k, NIL_VALUE);
    NothingFitsExact(min, 0, cap, [], Deep(k, NIL_VALUE));
  }

  // The other wrong lengths.

  /** The encoding of this value ends one byte behind `cap`, and every input fits a length above `cap`. */
  lemma LongLengthOverruns(min: nat, len: nat, cap: nat, unset: seq<byte>) returns (v: Sexp)
    requires HEADER_SIZE < min && cap + HEADER_SIZE < WORD && |unset| <= cap < len < WORD
    ensures WellFormed(v) && !Stays(min, len, cap, Hc([], unset), Inputs(Calls(v)))
  {
    var h := Hc([], unset);
    var p := |Step(min, len, h, Header(VECSXP, 0)).buf|;
    var d := if p <= cap then cap + 1 - p else 1;
    var k := (d - 1) / HEADER_SIZE;
    v := Deep(k, RawOf(d - HEADER_SIZE * k));
    LongLengthValue(k, d - HEADER_SIZE * k);
    HeaderFirst(v);
    var inputs := Inputs(Calls(v));
    var g := Step(min, len, h, inputs[0]);
    assert |g.buf| == p;
    InputsAreFlat(Calls(v));
    hide Inputs, Calls, Encode, Deep, Header, Step, WellFormed;
    assert |Concat(inputs)| == HEADER_SIZE + |Concat(inputs[1..])|;
    if p <= cap {
      assert |g.buf| + |Concat(inputs[1..])| == cap + 1;
      Accumulates(min, len, cap, g, inputs[1..]);
    }
  }

  lemma LongLengthValue(k: nat, m: nat)
    requires m <= HEADER_SIZE
    ensures var v := Deep(k, RawOf(m)); WellFormed(v) && |Encode(v)| == HEADER_SIZE * (k + 1) + m
  {
    var c := Call(RAWSXP, 1, m, Some(seq(m, i => 0)));
    RawOfInputs(m);
    InputsAreFlat(Calls(RawOf(m)));
    InputsOfAreFlat(c);
    hide Header;
    assert Inputs(Calls(RawOf(m))) == InputsOf(c);
    DeepInputs(k, RawOf(m));
  }

  /** A list of three raw vectors: the first is sent in place and leaves the buffer empty, the other two fill it to two
      bytes short of twice the threshold without a flush; then the room has wrapped round, and headers follow. */
  function Filler(min: nat, cap: nat): Sexp
    requires 17 <= min
  {
    Sexp([], Vec(false, [RawOf(2 * min), RawOf(min - 17), RawOf(min - 1), Deep(cap, NIL_VALUE)]))
  }

  lemma FillerInputs(min: nat, cap: nat)
    requires 17 <= min
    ensures Inputs(Calls(Filler(min, cap))) ==
            [Header(VECSXP, 4)] + (Inputs(Calls(RawOf(2 * min))) + (Inputs(Calls(RawOf(min - 17)))
            + (Inputs(Calls(RawOf(min - 1))) + Inputs(Calls(Deep(cap, NIL_VALUE))))))
  {
    hide Calls, Inputs, Header, RawOf, Deep;
    FourInputs(RawOf(2 * min), RawOf(min - 17), RawOf(min - 1), Deep(cap, NIL_VALUE));
  }

  lemma FourInputs(a: Sexp, b: Sexp, c: Sexp, d: Sexp)
    ensures Inputs(Calls(Sexp([], Vec(false, [a, b, c, d])))) ==
            [Header(VECSXP, 4)] + (Inputs(Calls(a)) + (Inputs(Calls(b)) + (Inputs(Calls(c)) + Inputs(Calls(d)))))
  {
    hide *;
    ListInputs([a, b, c, d]);
    assert [a] + [b, c, d] == [a, b, c, d];
    ManyInputs(a, [b, c, d]);
    ThreeInputs(b, c, d);
  }

  lemma ThreeInputs(b: Sexp, c: Sexp, d: Sexp)
    ensures Inputs(ManyCalls([b, c, d])) == Inputs(Calls(b)) + (Inputs(Calls(c)) + Inputs(Calls(d)))
  {
    hide *;
    assert [b] + [c, d] == [b, c, d] && [c] + [d] == [c, d] && [d] + [] == [d];
    ManyInputs(b, [c, d]);
    ManyInputs(c, [d]);
    ManyInputs(d, []);
    NoInputs();
  }

  lemma FillerWell(min: nat, cap: nat)
    requires 17 <= min && 2 * min < COUNT_LIMIT
    ensures WellFormed(Filler(min, cap))
  {
    hide Deep, Calls, Inputs, RawOf, Encode, AtMost;
    NullInputs();
    DeepInputs(cap, NIL_VALUE);
    RawOfInputs(2 * min);
    RawOfInputs(min - 17);
    RawOfInputs(min - 1);
  }

  /** The two copies of a raw vector. */
  lemma StaysRaw(min: nat, len: nat, cap: nat, h: Hc, n: nat, more: seq<seq<byte>>)
    ensures Stays(min, len, cap, h, Inputs(Calls(RawOf(n))) + more) ==>
              Stays(min, len, cap, Step(min, len, Step(min, len, h, Header(RAWSXP, n)), seq(n, i => 0)), more)
  {
    RawOfInputs(n);
    hide Inputs, Calls, RawOf, Step, Stays, Header;
    var hdr, data := Header(RAWSXP, n), seq(n, i => 0);
    StaysCons(min, len, cap, h, hdr, [data] + more);
    StaysCons(min, len, cap, Step(min, len, h, hdr), data, more);
    assert Inputs(Calls(RawOf(n))) + more == [hdr] + ([data] + more);
  }

  /** Inputs of moderate size that a buffer without a flush cannot hold. */
  predicate Floods(min: nat, cap: nat, inputs: seq<seq<byte>>) {
    AtMost(inputs, 2 * min) && |Concat(inputs)| > cap
  }

  lemma FloodsAppend(min: nat, cap: nat, a: seq<seq<byte>>, b: seq<seq<byte>>)
    requires AtMost(a, 2 * min) && Floods(min, cap, b)
    ensures Floods(min, cap, a + b)
  {
    hide Concat;
    ConcatAppend(a, b);
  }

  lemma RawFloods(min: nat, cap: nat, n: nat, more: seq<seq<byte>>)
    requires HEADER_SIZE <= 2 * min && n <= 2 * min && Floods(min, cap, more)
    ensures Floods(min, cap, Inputs(Calls(RawOf(n))) + more)
  {
    hide Floods, Inputs, Calls, RawOf;
    RawOfInputs(n);
    FloodsAppend(min, cap, Inputs(Calls(RawOf(n))), more);
  }

  lemma WrappedFlood(min: nat, len: nat, cap: nat, h: Hc, inputs: seq<seq<byte>>)
    requires len < |h.buf| && cap + 2 * min < WORD && len < WORD && Floods(min, cap, inputs)
    ensures !Stays(min, len, cap, h, inputs)
  {
    Accumulates(min, len, cap, h, inputs);
  }

  /** From an empty buffer, the last two vectors take the position past a short length. */
  lemma FillUp(min: nat, len: nat, cap: nat, h: Hc, more: seq<seq<byte>>)
    requires 17 <= min && cap + 2 * min < WORD && len < 2 * min - 2 && len < WORD && Floods(min, cap, more)
    requires h.buf == []
    ensures !Stays(min, len, cap, h, Inputs(Calls(RawOf(min - 17))) + (Inputs(Calls(RawOf(min - 1))) + more))
  {
    StaysRaw(min, len, cap, h, min - 17, Inputs(Calls(RawOf(min - 1))) + more);
    var g := Step(min, len, Step(min, len, h, Header(RAWSXP, min - 17)), seq(min - 17, i => 0));
    assert |g.buf| == min - 9;
    StaysRaw(min, len, cap, g, min - 1, more);
    var w := Step(min, len, Step(min, len, g, Header(RAWSXP, min - 1)), seq(min - 1, i => 0));
    assert |w.buf| == 2 * min - 2;
    WrappedFlood(min, len, cap, w, more);
  }

  /** A vector larger than the length goes in place and leaves the buffer empty, unless the room has wrapped round. */
  lemma FlushFirst(min: nat, len: nat, cap: nat, h: Hc, more: seq<seq<byte>>)
    requires 17 <= min && cap + 2 * min < WORD && len < 2 * min - 2 && len < WORD && Floods(min, cap, more)
    requires h.buf != []
    requires forall g: Hc | g.buf == [] :: !Stays(min, len, cap, g, more)
    ensures !Stays(min, len, cap, h, Inputs(Calls(RawOf(2 * min))) + more)
  {
    StaysRaw(min, len, cap, h, 2 * min, more);
    var g := Step(min, len, h, Header(RAWSXP, 2 * min));
    assert g.buf != [];
    var w := Step(min, len, g, seq(2 * min, i => 0));
    if |g.buf| <= cap {
      assert len < |w.buf| || w.buf == [];
      if w.buf != [] { WrappedFlood(min, len, cap, w, more); }
    }
  }

  lemma ShortLengthOverruns(min: nat, len: nat, cap: nat, unset: seq<byte>) returns (v: Sexp)
    requires 17 <= min && 2 * min < COUNT_LIMIT && cap + 2 * min < WORD && |unset| <= len <= cap && len < 2 * min - 2
    ensures WellFormed(v) && !Stays(min, len, cap, Hc([], unset), Inputs(Calls(v)))
  {
    hide Inputs, Calls, RawOf, Deep, Filler, Floods, Stays, WellFormed, Header;
    v := Filler(min, cap);
    FillerWell(min, cap);
    FillerInputs(min, cap);
    var tail := Inputs(Calls(Deep(cap, NIL_VALUE)));
    TailFloods(min, cap);
    RawFloods(min, cap, min - 1, tail);
    var last := Inputs(Calls(RawOf(min - 1))) + tail;
    RawFloods(min, cap, min - 17, last);
    var h, hdr := Hc([], unset), Header(VECSXP, 4);
    var more := Inputs(Calls(RawOf(min - 17))) + last;
    forall g: Hc | g.buf == [] ensures !Stays(min, len, cap, g, more) {
      FillUp(min, len, cap, g, tail);
    }
    assert Step(min, len, h, hdr).buf != [];
    FlushFirst(min, len, cap, Step(min, len, h, hdr), more);
    StaysCons(min, len, cap, h, hdr, Inputs(Calls(RawOf(2 * min))) + more);
  }

  lemma TailFloods(min: nat, cap: nat)
    requires HEADER_SIZE <= 2 * min
    ensures Floods(min, cap, Inputs(Calls(Deep(cap, NIL_VALUE))))
  {
    hide Calls, Inputs, Deep;
    NullInputs();
    DeepInputs(cap, NIL_VALUE);
    InputsAreFlat(Calls(Deep(cap, NIL_VALUE)));
  }

  // The exact bounds.

  /** The buffer is safe for every value exactly when the position it starts at is within the declared length, and that
      is no more than what was allocated and no less than two bytes short of twice the in-place threshold. */
  lemma CapacityExact(min: nat, len: nat, cap: nat, unset: seq<byte>)
    requires 17 <= min && 2 * min < COUNT_LIMIT && len < WORD && cap + 2 * min < WORD
    ensures (forall v | WellFormed(v) :: Stays(min, len, cap, Hc([], unset), Inputs(Calls(v)))) <==>
            |unset| <= len <= cap && 2 * min - 2 <= len
  {
    hide Inputs, Calls, WellFormed, Deep;
    var h := Hc([], unset);
    if |unset| <= len <= cap && 2 * min - 2 <= len {
      forall v | WellFormed(v) ensures Stays(min, len, cap, h, Inputs(Calls(v))) {
        RunStays(min, len, cap, h, Inputs(Calls(v)));
      }
    } else {
      var v := WrongLengthOverruns(min, len, cap, unset);
    }
  }

  lemma WrongLengthOverruns(min: nat, len: nat, cap: nat, unset: seq<byte>) returns (v: Sexp)
    requires 17 <= min && 2 * min < COUNT_LIMIT && len < WORD && cap + 2 * min < WORD
    requires !(|unset| <= len <= cap && 2 * min - 2 <= len)
    ensures WellFormed(v) && !Stays(min, len, cap, Hc([], unset), Inputs(Calls(v)))
  {
    hide Inputs, Calls, Deep, Encode;
    if |unset| > cap {
      NullInputs();
      v := NIL_VALUE;
    } else if cap < len {
      v := LongLengthOverruns(min, len, cap, unset);
    } else if len < |unset| {
      NullInputs();
      DeepInputs(cap, NIL_VALUE);
      v := Deep(cap, NIL_VALUE);
      TailFloods(min, cap);
      WrappedFlood(min, len, cap, Hc([], unset), Inputs(Calls(v)));
    } else {
      v := ShortLengthOverruns(min, len, cap, unset);
    }
  }

  /** With the length and position the source evidently means, no copy overruns. */
  lemma IntendedValuesAreSafe(inputs: seq<seq<byte>>)
    ensures Stays(MIN_INPLACE_SIZE, MAX_CHUNK_SIZE, MAX_CHUNK_SIZE, Hc([], []), inputs)
  {
    hide Stays;
    RunStays(MIN_INPLACE_SIZE, MAX_CHUNK_SIZE, MAX_CHUNK_SIZE, Hc([], []), inputs);
  }
}
