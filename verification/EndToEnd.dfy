/** Writer and reader joined: what arrives when a value crosses a descriptor, memory or a response. */
module EndToEnd {
  import opened Bytes
  import opened Values
  import opened Decoder
  import opened Recovery
  import Framing
  import FdStore
  import MemStore
  import Chunked
  import HcStore
  import HcCapacity
  import opened SfsStore
  import opened SfsLoad

  /** What a reader of a complete encoding must report. */
  ghost predicate Arrived(o: Loaded<Sexp>, v: Sexp) {
    if Supported(v) then o == Ok(Norm(v)) else !o.Ok?
  }

  /** Read one value from a source that never fails a read, under any schedule of short reads. */
  method Restore(kind: Backend, bytes: seq<byte>, script: seq<Event>, s: Scratch) returns (o: Loaded<Sexp>, rest: seq<byte>)
    requires Fault !in script
    ensures match Load(bytes, s)
            case Done(v, r, _) => o == Ok(v) && rest == r
            case Error => o == Err
            case Undefined => o == Undef
  {
    var api := new FetchApi(kind, bytes, script, s);
    o := api.Load();
    rest := api.rest;
  }

  /** Whatever the schedule of partial writes and short reads: if no write returned -1, a complete write arrives as
      the value or not at all, and one that broke off anywhere is reported as an error.  A write of a header that
      returns -1 is not noticed by the writer; such a store is not the encoding, though it counts as complete. */
  method ThroughDescriptor(v: Sexp, kind: Backend, writes: seq<int>, script: seq<Event>, s: Scratch)
    returns (ok: bool, out: seq<byte>, failed: nat, o: Loaded<Sexp>)
    requires WellFormed(v) && Fault !in script
    ensures ok <==> FdStore.Rest(writes, Calls(v)).Some?
    ensures var lost := FdStore.Losses(FdStore.LostOf(writes, Calls(v)));
            && lost <= failed <= FdStore.Failures(writes) && (ok ==> lost == failed)
            && (Supported(v) && lost == 0 ==> o == Ok(Norm(v)) || (!ok && o == Err))
    ensures ok ==> |out| == |Encode(v)| - HEADER_SIZE * failed && (out == Encode(v) <==> failed == 0)
    ensures ok && failed == 0 ==> Arrived(o, v)
    ensures FdStore.Good(writes) ==> ok && failed == 0
  {
    hide FdStore.Sent, FdStore.Losses, FdStore.LostOf, FdStore.Rest, FdStore.Failures, Calls, Flat, Supported, Norm, Load;
    if FdStore.Good(writes) { FdStore.GoodSchedule(writes, Calls(v)); }
    var fd := new FdStore.Descriptor(writes);
    ok := StoreToFd(fd, v);
    out, failed := fd.out, fd.failed;
    assert [] + Encode(v) == Encode(v);
    Framing.LoneValue(v, s);
    if out <= Encode(v) && out != Encode(v) && Supported(v) {
      Framing.TruncationIsAnError(v, |out|, s);
      assert out == Encode(v)[..|out|];
    }
    var r;
    o, r := Restore(kind, out, script, s);
  }

  /** The loss is real, for every value: when the first header write returns -1 and no other, the store carries on and
      ends without an error, and what has been written is the encoding without its first eight bytes. */
  method LostHeaderIsUnnoticed(fd: FdStore.Descriptor, v: Sexp) returns (ok: bool)
    requires WellFormed(v) && fd.script == [-1]
    modifies fd
    ensures ok && fd.failed == old(fd.failed) + 1
    ensures |Encode(v)| >= HEADER_SIZE && fd.out == old(fd.out) + Encode(v)[HEADER_SIZE..]
  {
    hide FdStore.Sent, FdStore.Losses, FdStore.LostOf, FdStore.Rest, FdStore.Failures, Calls, Flat;
    SomeCall(v);
    FdStore.FirstHeaderLost(Calls(v));
    ok := StoreToFd(fd, v);
  }

  lemma SomeCall(v: Sexp)
    ensures Calls(v) != []
  {
    assert BodyCalls(v.body) != [];
  }

  /** The list that holds one null: without its first header it is read as the null. */
  const LIST_OF_NULL := Sexp([], Vec(false, [NIL_VALUE]))

  /** So what a finished store of this list has written is read as a value that was never stored, and no error is seen
      on either side. */
  lemma ListArrivesAsNull(s: Scratch)
    ensures WellFormed(LIST_OF_NULL) && Supported(LIST_OF_NULL) && Norm(LIST_OF_NULL) != NIL_VALUE
    ensures var calls := Calls(LIST_OF_NULL); var out := FdStore.Sent(calls, FdStore.LostOf([-1], calls));
            && FdStore.Rest([-1], calls) == Some([])
            && Load(out, s).Done? && Load(out, s).value == NIL_VALUE && Load(out, s).rest == []
  {
    hide *;
    ListOfNullFacts(s);
    FdStore.FirstHeaderLost(Calls(LIST_OF_NULL));
    EncodeIsFlat(LIST_OF_NULL);
  }

  lemma EncodeIsFlat(v: Sexp)
    ensures Encode(v) == Flat(Calls(v))
  {}

  lemma ListOfNullFacts(s: Scratch)
    ensures WellFormed(LIST_OF_NULL) && Supported(LIST_OF_NULL) && Norm(LIST_OF_NULL) == LIST_OF_NULL != NIL_VALUE
    ensures Calls(LIST_OF_NULL) != [] && |Encode(LIST_OF_NULL)| >= HEADER_SIZE
    ensures Encode(LIST_OF_NULL)[HEADER_SIZE..] == Encode(NIL_VALUE)
    ensures var o := Load(Encode(NIL_VALUE), s); o.Done? && o.value == NIL_VALUE && o.rest == []
  {
    hide *;
    SomeCall(LIST_OF_NULL);
    ListOfNullBytes();
    ListOfNullNorm();
    Framing.LoneValue(NIL_VALUE, s);
  }

  lemma ListOfNullBytes()
    ensures |Encode(LIST_OF_NULL)| >= HEADER_SIZE && Encode(LIST_OF_NULL)[HEADER_SIZE..] == Encode(NIL_VALUE)
  {
    hide Header;
    var list, nil := Call(VECSXP, 0, 1, None), Call(NILSXP, 0, 0, None);
    assert Calls(NIL_VALUE) == [] + [nil] == [nil];
    assert ManyCalls([NIL_VALUE]) == Calls(NIL_VALUE) + ManyCalls([]) == [nil];
    assert Calls(LIST_OF_NULL) == [] + ([list] + [nil]) == [list] + [nil];
    FlatAppend([list], [nil]);
    FlatSnoc([], list);
    assert [] + [list] == [list];
    assert Flat([list]) == [] + CallBytes(list) == Header(VECSXP, 1);
  }

  lemma ListOfNullNorm()
    ensures WellFormed(NIL_VALUE) && Supported(NIL_VALUE) && Norm(NIL_VALUE) == NIL_VALUE
    ensures WellFormed(LIST_OF_NULL) && Supported(LIST_OF_NULL) && Norm(LIST_OF_NULL) == LIST_OF_NULL != NIL_VALUE
  {
    assert NormMany([NIL_VALUE]) == [Norm(NIL_VALUE)] + NormMany([]) == [NIL_VALUE];
    assert SupportedMany([NIL_VALUE]) == (Supported(NIL_VALUE) && SupportedMany([]));
  }

  /** Through a raw vector: faithful for every encoding that fits in the first buffer. */
  method ThroughMemory(v: Sexp, s: Scratch) returns (o: Loaded<Sexp>)
    requires WellFormed(v) && |Encode(v)| <= MemStore.DEF_BUF_SIZE
    ensures Arrived(o, v)
  {
    var res, _, _ := StoreToMemory(v);
    Framing.LoneValue(v, s);
    var r;
    o, r := Restore(Memory, res[..], [], s);
  }

  /** Through a chunked response whose buffer happened to start empty, read back by a receiver: faithful unless a copy
      ran past the end of the buffer, which a sound length rules out; with a length of zero the buffer must hold the
      whole encoding.  A connection that takes something at each send delivers it. */
  method ThroughHttp(v: Sexp, buf: array<byte>, len: nat, sends: seq<int>, s: Scratch)
    returns (r: int, overrun: bool, o: Loaded<Sexp>)
    requires WellFormed(v) && buf.Length < WORD
    modifies buf
    ensures HcStore.Sound(HcStore.MIN_INPLACE_SIZE, len, buf.Length) ==> !overrun
    ensures !overrun && (forall i | 0 <= i < |sends| :: sends[i] >= 1) ==> r == 0
    ensures r == 0 && len == 0 && buf.Length + |Encode(v)| < WORD ==> (overrun <==> |Encode(v)| > buf.Length)
    ensures r == 0 && !overrun ==> Arrived(o, v)
  {
    hide HcStore.Stays, HcStore.Inputs, Calls, WellFormed, Flat;
    if len == 0 && buf.Length + |Encode(v)| < WORD {
      HcCapacity.NothingFitsExact(HcStore.MIN_INPLACE_SIZE, 0, buf.Length, [], v);
      assert buf[..0] == [];
    }
    var conn := new Chunked.Connection(sends);
    r, overrun := StoreToHttp(conn, v, buf, len, 0);
    o := Err;
    if r == 0 && !overrun {
      assert conn.sent[0..] == conn.sent;
      assert [] + Encode(v) == Encode(v);
      Framing.LoneValue(v, s);
      var body := Chunked.ReadChunks(conn.sent).value.0;
      var rest;
      o, rest := Restore(Memory, body, [], s);
    }
  }
}
