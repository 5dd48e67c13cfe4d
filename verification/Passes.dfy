/** A completion pass that runs among other threads does what the same pass does alone. */
module Passes {
  import opened Bytes
  import opened Protocol
  import opened Locks
  import opened Dependencies
  import D = Deps

  /** What a pass would do to the entries it has not reached. */
  function Rest(es: seq<Entry>, key: Option<D.Key>): (seq<Entry>, seq<Entry>) {
    if es == [] then ([], []) else
      var (kept, done) := Rest(es[1..], key);
      var e := Marked(es[0], key);
      if D.Satisfied(e.dep) then (kept, [e] + done) else ([e] + kept, done)
  }

  /** The entry taken out of the list and not yet posted. */
  function InHand(s: State): seq<Entry> {
    if s.locks.dep.Some? && s.locks.dep.value < |s.pcs| && s.pcs[s.locks.dep.value].PushWant?
    then [s.pcs[s.locks.dep.value].entry] else []
  }

  /** What a pass leads to if nothing interferes: the list, the posts, and whether `tail` is on the list. */
  function OutcomeOf(d: Pending, posted: seq<Entry>, turn: Option<Turn>): (seq<Entry>, seq<Entry>, bool) {
    if turn.None? || |d.list| < turn.value.at then (d.list, posted, d.tailIn) else
      var at := turn.value.at;
      var (kept, done) := Rest(d.list[at..], turn.value.key);
      (d.list[..at] + kept, posted + done,
       d.tailIn && (at == |d.list| || !Finished(d.list[|d.list| - 1], turn.value.key)))
  }

  function Outcome(s: State): (seq<Entry>, seq<Entry>, bool) {
    OutcomeOf(s.deps, s.events.posted + InHand(s), Scanning(s))
  }

  ghost predicate TurnOk(s: State) {
    Scanning(s).Some? ==> Scanning(s).value.at <= |s.deps.list|
  }

  lemma TurnTaken(d: Pending, key: Option<D.Key>, at: nat)
    requires at < |d.list|
    ensures var (kept, done) := Rest(d.list[at..], key);
            var e := Marked(d.list[at], key);
            if Finished(d.list[at], key) then
              var l := d.list[..at] + d.list[at + 1..];
              d.list[..at] + kept == l[..at] + Rest(l[at..], key).0 && done == [e] + Rest(l[at..], key).1
            else
              var l := d.list[at := e];
              d.list[..at] + kept == l[..at + 1] + Rest(l[at + 1..], key).0 && done == Rest(l[at + 1..], key).1
  {
    var e := Marked(d.list[at], key);
    assert d.list[at..][1..] == d.list[at + 1..];
    if Finished(d.list[at], key) {
      var l := d.list[..at] + d.list[at + 1..];
      assert l[..at] == d.list[..at] && l[at..] == d.list[at + 1..];
    } else {
      var l := d.list[at := e];
      assert l[at + 1..] == d.list[at + 1..] && l[..at + 1] == d.list[..at] + [e];
      Assoc(d.list[..at], [e], Rest(l[at + 1..], key).0);
    }
  }

  function HandAfter(d: Pending, hand: seq<Entry>, p: Pc): seq<Entry> {
    match p
    case ScanAt(key, _, at) => if at < |d.list| && Finished(d.list[at], key) then [Marked(d.list[at], key)] else []
    case PushWant(_, _, _, _) => []
    case _ => hand
  }

  lemma HandStep(s: State, t: Tid, wake: Option<Tid>)
    requires Exclusive(s.pcs, s.locks) && Runnable(s, t, wake) && Scanning(s).Some?
    ensures InHand(Next(s, t, wake)) == HandAfter(s.deps, InHand(s), s.pcs[t])
    ensures s.pcs[t].ScanAt? ==> InHand(s) == []
    ensures s.pcs[t].PushWant? ==> InHand(s) == [s.pcs[t].entry]
  {}

  lemma OutcomeOutside(s: State, t: Tid, p: Pc, r: State)
    requires Exclusive(s.pcs, s.locks) && t < |s.pcs| && !InFlight(s.pcs[t]) && TurnOk(s)
    requires r.pcs == s.pcs[t := p] && r.locks == s.locks && r.events == s.events && r.deps.list == s.deps.list && r.deps.tailIn == s.deps.tailIn
    requires Scanning(s).Some?
    ensures Outcome(r) == Outcome(s) && TurnOk(r)
  {
    assert Scanning(r) == Scanning(s) && InHand(r) == InHand(s);
  }

  /** One turn, on the list and the posts alone. */
  lemma TurnOutcome(d: Pending, posted: seq<Entry>, key: Option<D.Key>, inner: bool, at: nat, now: nat)
    requires at <= |d.list|
    ensures var p, turn := ScanAt(key, inner, at), Some(Turn(key, at));
            OutcomeOf(DepsAfter(d, p, now), posted + HandAfter(d, [], p), TurnAfter(d, turn, p)) ==
            OutcomeOf(d, posted, turn)
  {
    if at < |d.list| {
      TurnTaken(d, key, at);
      if Finished(d.list[at], key) {
        Assoc(posted, [Marked(d.list[at], key)], Rest((d.list[..at] + d.list[at + 1..])[at..], key).1);
      } else {
        assert posted + [] == posted;
      }
    } else {
      assert d.list[..at] + [] == d.list && posted + [] == posted;
    }
  }

  /** No step of any thread changes what the running pass leads to. */
  lemma Undisturbed(s: State, a: Action)
    requires Exclusive(s.pcs, s.locks) && Enabled(s, a) && Scanning(s).Some? && TurnOk(s)
    ensures Outcome(Apply(s, a)) == Outcome(s) && TurnOk(Apply(s, a))
  {
    if !a.Step? {
      OutcomeOutside(s, a.t, Apply(s, a).pcs[a.t], Apply(s, a));
    } else if s.pcs[a.t].ScanAt? {
      var p := s.pcs[a.t];
      TurnStep(s, a.t, a.wake);
      HandStep(s, a.t, a.wake);
      TurnOutcome(s.deps, s.events.posted, p.key, p.inner, p.at, Now(s));
      assert s.events.posted + [] == s.events.posted;
    } else {
      TurnStep(s, a.t, a.wake);
      HandStep(s, a.t, a.wake);
      var v, w := s.events, EventsAfter(s.events, s.pcs[a.t]);
      assert v.posted + InHand(s) == w.posted + HandAfter(s.deps, InHand(s), s.pcs[a.t]);
    }
  }

  /** The same pass goes on up to the end of the run. */
  predicate PassLasts(s: State, acts: seq<Action>)
    decreases |acts|
  {
    acts != [] ==> Scanning(s).Some? && Enabled(s, acts[0]) && PassLasts(Apply(s, acts[0]), acts[1..])
  }

  lemma {:induction false} OutcomeLasts(s: State, acts: seq<Action>, end: State)
    requires Exclusive(s.pcs, s.locks) && TurnOk(s) && PassLasts(s, acts) && Reaches(s, acts, end)
    ensures Outcome(end) == Outcome(s)
    decreases |acts|
  {
    if acts != [] {
      Undisturbed(s, acts[0]);
      KeepsExclusive(s, acts[0]);
      OutcomeLasts(Apply(s, acts[0]), acts[1..], end);
    }
  }

  // The same pass over plain entries.

  function Views(es: seq<Entry>): (r: seq<D.Dep>)
    ensures |r| == |es| && forall i | 0 <= i < |es| :: r[i] == es[i].dep
  {
    if es == [] then [] else [es[0].dep] + Views(es[1..])
  }

  lemma {:induction false} ScanFront(ds: seq<D.Dep>, key: Option<D.Key>, m: nat)
    requires 0 < m <= |ds| && D.AllSized(ds)
    ensures D.AllSized(ds[1..])
    ensures var (kept, done) := D.Scan(ds[1..], key, m - 1);
            var d := D.Mark(ds[0], key);
            D.Scan(ds, key, m) == if D.Satisfied(d) then (kept, [d] + done) else ([d] + kept, done)
  {
    if m == 1 {
      var d := D.Mark(ds[0], key);
      D.ScanStep(ds, key, 0, [], []);
      assert [] + [d] == [d] == [d] + [];
    } else {
      ScanFront(ds, key, m - 1);
      var (kept, done) := D.Scan(ds[1..], key, m - 2);
      var d, e := D.Mark(ds[0], key), D.Mark(ds[m - 1], key);
      assert ds[1..][m - 2] == ds[m - 1];
      D.ScanStep(ds[1..], key, m - 2, kept, done);
      Assoc([d], done, [e]);
      Assoc([d], kept, [e]);
    }
  }

  lemma {:induction false} RestIsScan(es: seq<Entry>, key: Option<D.Key>)
    requires D.AllSized(Views(es))
    ensures (Views(Rest(es, key).0), Views(Rest(es, key).1)) == D.Scan(Views(es), key, |es|)
  {
    if es != [] {
      assert Views(es)[1..] == Views(es[1..]);
      ScanFront(Views(es), key, |es|);
      RestIsScan(es[1..], key);
    }
  }

  /** A whole pass, whatever else runs meanwhile, leaves and posts what `Deps.Scan` says, and `tail` stays on the list
      exactly if it was and the last entry stays. */
  lemma PassIsScan(s: State, turn: Turn, acts: seq<Action>, end: State)
    requires Exclusive(s.pcs, s.locks) && D.AllSized(Views(s.deps.list))
    requires Scanning(s) == Some(turn) && turn.at == 0 && InHand(s) == []
    requires PassLasts(s, acts) && Reaches(s, acts, end) && Scanning(end) == None
    ensures s.events.posted <= end.events.posted
    ensures (Views(end.deps.list), Views(end.events.posted[|s.events.posted|..])) ==
            D.Scan(Views(s.deps.list), turn.key, |s.deps.list|)
    ensures end.deps.tailIn <==>
            s.deps.tailIn && (s.deps.list == [] || !D.Satisfied(D.Mark(s.deps.list[|s.deps.list| - 1].dep, turn.key)))
  {
    OutcomeLasts(s, acts, end);
    RestIsScan(s.deps.list, turn.key);
    assert s.deps.list != [] ==> Views(s.deps.list)[|s.deps.list| - 1] == s.deps.list[|s.deps.list| - 1].dep;
    WholeOutcome(s.deps, s.events.posted, turn, end.deps, end.events.posted);
  }

  lemma WholeOutcome(d: Pending, posted: seq<Entry>, turn: Turn, d': Pending, posted': seq<Entry>)
    requires turn.at == 0 && OutcomeOf(d', posted' + [], None) == OutcomeOf(d, posted + [], Some(turn))
    ensures d'.list == Rest(d.list, turn.key).0 && posted <= posted'
    ensures posted'[|posted|..] == Rest(d.list, turn.key).1
    ensures d'.tailIn <==> d.tailIn && (d.list == [] || !Finished(d.list[|d.list| - 1], turn.key))
  {
    assert d.list[0..] == d.list && posted + [] == posted && posted' + [] == posted';
  }
}
