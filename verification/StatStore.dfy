/** The counting back end: how many calls and how many payload bytes per type code. */
module StatStore {
  import opened Bytes
  import opened Counting
  import opened Values

  const TYPES: nat := 256

  function Count(calls: seq<Call>, ts: nat): nat {
    if calls == [] then 0 else (if calls[0].ts == ts then 1 else 0) + Count(calls[1..], ts)
  }

  function Size(calls: seq<Call>, ts: nat): nat {
    if calls == [] then 0 else (if calls[0].ts == ts then PayloadSize(calls[0]) else 0) + Size(calls[1..], ts)
  }

  function Itself(n: nat): nat {
    n
  }

  lemma {:induction false} CountAppend(calls: seq<Call>, c: Call, ts: nat)
    ensures Count(calls + [c], ts) == Count(calls, ts) + if c.ts == ts then 1 else 0
    ensures Size(calls + [c], ts) == Size(calls, ts) + if c.ts == ts then PayloadSize(c) else 0
  {
    if calls == [] {
      assert [c][1..] == [];
    } else {
      CountAppend(calls[1..], c, ts);
      assert (calls + [c])[1..] == calls[1..] + [c];
    }
  }

  /** The calls with one type code. */
  function OfType(calls: seq<Call>, ts: nat): (r: seq<Call>)
    ensures forall c | c in r :: c.ts == ts
  {
    if calls == [] then [] else (if calls[0].ts == ts then [calls[0]] else []) + OfType(calls[1..], ts)
  }

  lemma {:induction false} OfTypeIsAll(calls: seq<Call>, ts: nat, c: Call)
    ensures multiset(OfType(calls, ts))[c] == if c.ts == ts then multiset(calls)[c] else 0
  {
    if calls != [] {
      assert calls == [calls[0]] + calls[1..];
      OfTypeIsAll(calls[1..], ts, c);
    }
  }

  /** The two numbers of a type are how many of its calls there are, and how many payload bytes they have. */
  lemma {:induction false} CountExact(calls: seq<Call>, ts: nat)
    requires WellCalls(calls)
    ensures Count(calls, ts) == |OfType(calls, ts)|
    ensures Size(calls, ts) + HEADER_SIZE * Count(calls, ts) == |Flat(OfType(calls, ts))|
  {
    if calls != [] {
      hide Header, WellCall;
      var more := OfType(calls[1..], ts);
      CountExact(calls[1..], ts);
      PayloadCounts(calls[0]);
      assert ([calls[0]] + more)[1..] == more && [] + more == more;
    }
  }

  lemma PayloadCounts(c: Call)
    requires WellCall(c)
    ensures PayloadSize(c) == |Payload(c)|
  {}

  /** The counters predict the length of the stream: eight bytes a call, and the payloads. */
  ghost predicate Predicts(cs: seq<nat>, ls: seq<nat>, calls: seq<Call>) {
    HEADER_SIZE * Sum(cs, Itself) + Sum(ls, Itself) == |Flat(calls)|
  }

  lemma OneMore(cs: seq<nat>, ls: seq<nat>, calls: seq<Call>, c: Call)
    requires Predicts(cs, ls, calls) && WellCall(c) && |cs| == |ls| == TYPES
    ensures Predicts(cs[c.ts := cs[c.ts] + 1], ls[c.ts := ls[c.ts] + PayloadSize(c)], calls + [c])
  {
    hide Sum;
    CallAppends(calls, c);
    SumUpdate<nat>(cs, c.ts, cs[c.ts] + 1, Itself);
    SumUpdate<nat>(ls, c.ts, ls[c.ts] + PayloadSize(c), Itself);
  }

  class Store {
    const cs: array<nat>
    const ls: array<nat>
    ghost var log: seq<Call>

    ghost predicate Valid()
      reads this, cs, ls
    {
      && cs != ls && cs.Length == ls.Length == TYPES
      && (forall t | 0 <= t < TYPES :: cs[t] == Count(log, t) && ls[t] == Size(log, t))
      && Predicts(cs[..], ls[..], log)
    }

    constructor ()
      ensures Valid() && log == [] && fresh(cs) && fresh(ls)
    {
      cs := new nat[TYPES](_ => 0);
      ls := new nat[TYPES](_ => 0);
      log := [];
      new;
      SumZero<nat>(cs[..], Itself);
      SumZero<nat>(ls[..], Itself);
    }

    method Add(c: Call)
      requires Valid() && WellCall(c)
      modifies this, cs, ls
      ensures Valid() && log == old(log) + [c]
    {
      hide Count, Size, Predicts;
      forall t: nat | t < TYPES
        ensures Count(log + [c], t) == Count(log, t) + if c.ts == t then 1 else 0
        ensures Size(log + [c], t) == Size(log, t) + if c.ts == t then PayloadSize(c) else 0
      { CountAppend(log, c, t); }
      OneMore(cs[..], ls[..], log, c);
      ghost var cs0, ls0 := cs[..], ls[..];
      var len := PayloadSize(c);
      cs[c.ts] := cs[c.ts] + 1;
      ls[c.ts] := ls[c.ts] + len;
      assert cs[..] == cs0[c.ts := cs0[c.ts] + 1] && ls[..] == ls0[c.ts := ls0[c.ts] + len];
      log := log + [c];
    }
  }
}
