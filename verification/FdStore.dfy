/** The file-descriptor back end: one write for the header, a loop of partial writes for the payload. */
module FdStore {
  import opened Bytes
  import opened Values
  import opened Schedules

  const MAX_SEND_SIZE: nat := 1024 * 1024 * 128

  /** How many writes of a schedule fail. */
  function Failures(script: seq<int>): nat {
    if script == [] then 0 else (if script[0] < 0 then 1 else 0) + Failures(script[1..])
  }

  /** An open descriptor: what has been written to it so far, and how the next writes turn out; once the
      schedule is used up, every write takes all. */
  class Descriptor {
    var out: seq<byte>
    var script: seq<int>
    var failed: nat         // how many writes have returned -1

    constructor (script: seq<int>)
      ensures out == [] && this.script == script && failed == 0
    {
      out, this.script, failed := [], script, 0;
    }

    method Write(buf: seq<byte>) returns (n: int)
      modifies this
      ensures n == Taken(old(script), |buf|) && script == After(old(script))
      ensures out == old(out) + if n > 0 then buf[..n] else []
      ensures failed == old(failed) + if n < 0 then 1 else 0
      ensures failed + Failures(script) == old(failed + Failures(script))
    {
      n := Taken(script, |buf|);
      script := After(script);
      if n > 0 { out := out + buf[..n]; }
      if n < 0 { failed := failed + 1; }
    }
  }

  // What arrives when the header writes of some calls fail and the store goes on.

  /** The bytes of the calls without the headers that are lost. */
  function Sent(calls: seq<Call>, lost: seq<bool>): seq<byte>
    requires |calls| == |lost|
  {
    if calls == [] then [] else
      var n := |calls| - 1;
      Sent(calls[..n], lost[..n]) + (if lost[n] then Payload(calls[n]) else CallBytes(calls[n]))
  }

  function Losses(lost: seq<bool>): nat {
    if lost == [] then 0 else Losses(lost[..|lost| - 1]) + if lost[|lost| - 1] then 1 else 0
  }

  lemma SentSnoc(calls: seq<Call>, lost: seq<bool>, c: Call, l: bool)
    requires |calls| == |lost|
    ensures Sent(calls + [c], lost + [l]) == Sent(calls, lost) + if l then Payload(c) else CallBytes(c)
    ensures Losses(lost + [l]) == Losses(lost) + if l then 1 else 0
  {
    assert (calls + [c])[..|calls|] == calls && (lost + [l])[..|lost|] == lost;
  }

  lemma SentNext(base: seq<byte>, calls: seq<Call>, lost: seq<bool>, c: Call, l: bool)
    requires |calls| == |lost|
    ensures var was, hdr := base + Sent(calls, lost), Header(c.ts, c.len);
            base + Sent(calls + [c], lost + [l]) == was + (if l then [] else hdr) + Payload(c)
  {
    var s := Sent(calls, lost);
    SentSnoc(calls, lost, c, l);
    hide Sent, Header;
    var hdr := Header(c.ts, c.len);
    Assoc(s, hdr, Payload(c));
    Assoc(base, s + hdr, Payload(c));
    Assoc(base, s, hdr);
    Assoc(base, s, Payload(c));
    assert base + s + [] == base + s;
  }

  /** Eight bytes are missing for each lost header; so the bytes are complete exactly if none is lost. */
  lemma {:induction false} SentExact(calls: seq<Call>, lost: seq<bool>)
    requires |calls| == |lost|
    ensures |Sent(calls, lost)| == |Flat(calls)| - HEADER_SIZE * Losses(lost)
    ensures Sent(calls, lost) == Flat(calls) <==> Losses(lost) == 0
  {
    if calls != [] {
      var n := |calls| - 1;
      assert calls == calls[..n] + [calls[n]];
      FlatSnoc(calls[..n], calls[n]);
      SentExact(calls[..n], lost[..n]);
    }
  }

  // How the writes of a schedule turn out for the calls of a store: `None` once it has been abandoned.

  /** The payload loop: what is left of the schedule when `n` bytes have been written. */
  function Drained(script: seq<int>, n: nat): Option<seq<int>> {
    var r := SendOf(script, n, MAX_SEND_SIZE);
    if r.code == 0 then Some(r.script) else None
  }

  /** The count of bytes written is compared with an unsigned size, so -1 passes for more than enough. */
  function CallRest(script: seq<int>, c: Call): Option<seq<int>> {
    if Taken(script, HEADER_SIZE) % WORD < HEADER_SIZE then None
    else if c.buf.Some? then Drained(After(script), |c.buf.value|) else Some(After(script))
  }

  function Rest(script: seq<int>, calls: seq<Call>): Option<seq<int>> {
    if calls == [] then Some(script) else
      var was := Rest(script, calls[..|calls| - 1]);
      if was.Some? then CallRest(was.value, calls[|calls| - 1]) else None
  }

  /** For each call, whether its header write returns -1. */
  function LostOf(script: seq<int>, calls: seq<Call>): (lost: seq<bool>)
    ensures |lost| == |calls|
  {
    if calls == [] then [] else
      var front := calls[..|calls| - 1];
      var was := Rest(script, front);
      LostOf(script, front) + [was.Some? && Taken(was.value, HEADER_SIZE) < 0]
  }

  lemma RestSnoc(script: seq<int>, calls: seq<Call>, c: Call)
    ensures var was := Rest(script, calls);
            && Rest(script, calls + [c]) == (if was.Some? then CallRest(was.value, c) else None)
            && LostOf(script, calls + [c]) == LostOf(script, calls) + [was.Some? && Taken(was.value, HEADER_SIZE) < 0]
  {
    assert (calls + [c])[..|calls|] == calls;
  }

  /** A store that breaks off has sent a prefix of what it would have sent, had it gone on without losses. */
  lemma {:induction false} SentPrefix(script: seq<int>, calls: seq<Call>, more: seq<Call>)
    requires Rest(script, calls).None?
    ensures Rest(script, calls + more).None?
    ensures var lost, all := LostOf(script, calls), LostOf(script, calls + more);
            Losses(all) == Losses(lost) && Sent(calls, lost) <= Sent(calls + more, all)
    decreases |more|
  {
    hide Sent, Losses, Rest, LostOf;
    if more == [] {
      assert calls + more == calls;
    } else {
      RestSnoc(script, calls, more[0]);
      SentSnoc(calls, LostOf(script, calls), more[0], false);
      assert calls + more == calls + [more[0]] + more[1..];
      SentPrefix(script, calls + [more[0]], more[1..]);
    }
  }

  lemma DrainedAtOnce(n: nat)
    ensures Drained([], n) == Some([])
  {
    var k := SendOfExact([], n, MAX_SEND_SIZE);
  }

  /** Each write takes at least as much as a header. */
  predicate Good(script: seq<int>) {
    forall i | 0 <= i < |script| :: script[i] >= HEADER_SIZE
  }

  lemma GoodCall(script: seq<int>, c: Call)
    requires Good(script)
    ensures Taken(script, HEADER_SIZE) == HEADER_SIZE && CallRest(script, c).Some? && Good(CallRest(script, c).value)
  {
    hide SendOf;
    var left := After(script);
    assert Good(left);
    var k := SendOfExact(left, |Payload(c)|, MAX_SEND_SIZE);
  }

  /** A good schedule carries every store to its end without losses. */
  lemma {:induction false} GoodSchedule(script: seq<int>, calls: seq<Call>)
    requires Good(script)
    ensures Rest(script, calls).Some? && Good(Rest(script, calls).value) && Losses(LostOf(script, calls)) == 0
  {
    hide Good, CallRest, Taken;
    if calls != [] {
      var front, c := calls[..|calls| - 1], calls[|calls| - 1];
      GoodSchedule(script, front);
      assert calls == front + [c];
      RestSnoc(script, front, c);
      GoodCall(Rest(script, front).value, c);
      assert LostOf(script, calls)[..|front|] == LostOf(script, front);
    }
  }

  /** If only the first write fails, the store ends without an error, and everything but the first header arrives. */
  lemma {:induction false} FirstHeaderLost(calls: seq<Call>)
    requires calls != []
    ensures var lost := LostOf([-1], calls);
            && Rest([-1], calls) == Some([]) && Losses(lost) == 1
            && |Flat(calls)| >= HEADER_SIZE && Sent(calls, lost) == Flat(calls)[HEADER_SIZE..]
  {
    hide Sent, Losses, Header, Flat, Rest, LostOf;
    var front, c := calls[..|calls| - 1], calls[|calls| - 1];
    var lost := LostOf([-1], front);
    assert calls == front + [c];
    RestSnoc([-1], front, c);
    FlatSnoc(front, c);
    DrainedAtOnce(|Payload(c)|);
    SentSnoc(front, lost, c, front == []);
    if front == [] {
      NothingYet();
    } else {
      FirstHeaderLost(front);
      assert (Flat(front) + CallBytes(c))[HEADER_SIZE..] == Flat(front)[HEADER_SIZE..] + CallBytes(c);
    }
  }

  lemma NothingYet()
    ensures Rest([-1], []) == Some([-1]) && LostOf([-1], []) == [] && Sent([], []) == Flat([]) == [] && Losses([]) == 0
  {}

  class Store {
    const fd: Descriptor
    var open: bool
    ghost var log: seq<Call>
    ghost const base: seq<byte>
    ghost const script: seq<int> // of the descriptor before the store began
    ghost const failed: nat      // likewise
    ghost const total: nat       // with all that is still to fail

    /** While the descriptor is open it holds the bytes of all calls but for the lost headers, and only header
        writes have failed; afterwards, a prefix of that.  It is open as long as the schedule has it so. */
    ghost predicate Valid()
      reads this, fd
    {
      var lost := LostOf(script, log);
      && fd.failed + Failures(fd.script) == total
      && Rest(script, log) == (if open then Some(fd.script) else None)
      && (if open then fd.out == base + Sent(log, lost) && fd.failed == failed + Losses(lost)
          else fd.out <= base + Sent(log, lost) && fd.failed >= failed + Losses(lost))
    }

    constructor (fd: Descriptor)
      ensures Valid() && open && log == [] && this.fd == fd
      ensures base == fd.out && script == fd.script && failed == fd.failed
      ensures total == fd.failed + Failures(fd.script)
    {
      this.fd, base, script, failed, total := fd, fd.out, fd.script, fd.failed, fd.failed + Failures(fd.script);
      open, log := true, [];
    }

    /** The payload loop: each round offers at most `MAX_SEND_SIZE` bytes and advances by what was taken. */
    method WriteAll(buf: seq<byte>, len: nat) returns (ok: bool)
      requires len == |buf|
      modifies fd
      ensures Drained(old(fd.script), len) == (if ok then Some(fd.script) else None)
      ensures ok ==> fd.out == old(fd.out) + buf && fd.failed == old(fd.failed)
      ensures fd.failed + Failures(fd.script) == old(fd.failed + Failures(fd.script))
      ensures fd.out <= old(fd.out) + buf && fd.failed >= old(fd.failed)
    {
      var i := 0;
      while i < len
        invariant 0 <= i <= len
        invariant var r := SendOf(fd.script, len - i, MAX_SEND_SIZE);
                  SendOf(old(fd.script), len, MAX_SEND_SIZE) == r.(took := i + r.took)
        invariant fd.out == old(fd.out) + buf[..i] && fd.failed == old(fd.failed)
        invariant fd.failed + Failures(fd.script) == old(fd.failed + Failures(fd.script))
      {
        var need := if len - i > MAX_SEND_SIZE then MAX_SEND_SIZE else len - i;
        var n := fd.Write(buf[i..i + need]);
        if n < 1 {
          return false;
        }
        NextPart(buf, i, need, n);
        Assoc(old(fd.out), buf[..i], buf[i..i + need][..n]);
        i := i + n;
      }
      assert buf[..i] == buf;
      return true;
    }

    /** A header that failed to be written is not noticed, and the payload follows. */
    method Add(c: Call) returns (ok: bool)
      requires Valid() && open && WellCall(c)
      modifies this, fd
      ensures Valid() && open == ok && log == old(log) + [c]
    {
      hide Sent, Losses, Header, Rest, LostOf;
      ghost var lost, l := LostOf(script, log), Taken(fd.script, HEADER_SIZE) < 0;
      RestSnoc(script, log, c);
      SentNext(base, log, lost, c, l);
      SentSnoc(log, lost, c, l);
      log := log + [c];
      var hdr := Header(c.ts, c.len);
      var n := fd.Write(hdr);
      if n % WORD < HEADER_SIZE {
        open := false;
        return false;
      }
      assert l || hdr[..n] == hdr;
      if c.buf.Some? {
        ok := WriteAll(c.buf.value, if c.el > 1 then PayloadSize(c) else c.len);
        open := ok;
      } else {
        ok := true;
      }
    }
  }
}
