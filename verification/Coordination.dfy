/** Whole runs of the store, the tracker and the queue: the main guarantees, and exactly where they end. */
module Coordination {
  import opened Bytes
  import opened Counting
  import opened Protocol
  import opened Locks
  import opened Dependencies
  import D = Deps

  // What each thread carries.

  ghost predicate PcOk(p: Pc, o: Objects) {
    match p
    case LookWant(d) => DraftOk(d, o) && |d.found| < |d.dep.keys|
    case LookOut(d) => DraftOk(d, o)
    case LinkWant(d) => DraftOk(d, o) && |d.found| == |d.dep.keys|
    case ScanWant(key, inner) => inner <==> key.Some?
    case PushWant(_, _, _, e) => Earned(e, o)
    case _ => true
  }

  ghost predicate PcsOk(pcs: seq<Pc>, o: Objects) {
    forall t | 0 <= t < |pcs| :: PcOk(pcs[t], o)
  }

  ghost predicate AllEarned(es: seq<Entry>, o: Objects) {
    forall i | 0 <= i < |es| :: Earned(es[i], o)
  }

  lemma PcLater(p: Pc, o: Objects, r: Objects)
    requires PcOk(p, o) && Extends(o, r)
    ensures PcOk(p, r)
  {
    if p.PushWant? { EarnedLater(p.entry, o, r); }
  }

  lemma PcsLater(pcs: seq<Pc>, t: Tid, p: Pc, o: Objects, r: Objects)
    requires PcsOk(pcs, o) && Extends(o, r) && t < |pcs| && PcOk(p, r)
    ensures PcsOk(pcs[t := p], r)
  {
    forall u | 0 <= u < |pcs| ensures PcOk(pcs[u], r) { PcLater(pcs[u], o, r); }
  }

  lemma NextPcOk(s: State, p: Pc)
    requires ObjectsOk(s.objects) && PcOk(p, s.objects) && ListOk(s.deps, Scanning(s), s.objects)
    requires PassesOk(s.objects, s.deps.passes, Announced(s))
    requires p.ScanAt? ==> Scanning(s) == TurnOf(p)
    ensures PcOk(PcAfter(s, p), ObjectsAfter(s.objects, p))
  {
    match p
    case LookWant(d) => DraftLooks(s, d);
    case ScanAt(key, inner, at) =>
      if at < |s.deps.list| && Finished(s.deps.list[at], key) {
        MarkedExact(s.deps.list[at], s.deps.passes, key);
        SatisfiedIsEarned(Marked(s.deps.list[at], key), s.objects, s.deps.passes, Announced(s));
      }
    case _ =>
  }

  lemma PostedStep(v: Events, p: Pc, o: Objects, r: Objects)
    requires AllEarned(v.posted, o) && PcOk(p, o) && Extends(o, r)
    ensures AllEarned(EventsAfter(v, p).posted, r)
  {
    var w := EventsAfter(v, p);
    forall i | 0 <= i < |w.posted| ensures Earned(w.posted[i], r) {
      EarnedLater(w.posted[i], o, r);
    }
  }

  // No entry behind the pass is left satisfied.

  /** A `deps_add` that has linked its entry and has not begun its own pass. */
  predicate Linker(p: Pc) {
    p.LinkOut? || p == ScanWant(None, false)
  }

  predicate LinkerPending(pcs: seq<Pc>) {
    exists t | 0 <= t < |pcs| :: Linker(pcs[t])
  }

  predicate Behind(turn: Option<Turn>, j: nat) {
    turn.Some? ==> j < turn.value.at
  }

  ghost predicate NoneSatisfied(list: seq<Entry>, turn: Option<Turn>) {
    forall j | 0 <= j < |list| && Behind(turn, j) :: !D.Satisfied(list[j].dep)
  }

  lemma NoneSatisfiedStep(d: Pending, turn: Option<Turn>, p: Pc, now: nat)
    requires NoneSatisfied(d.list, turn) && !p.LinkWant?
    requires p.ScanAt? ==> turn == TurnOf(p)
    ensures NoneSatisfied(DepsAfter(d, p, now).list, TurnAfter(d, turn, p))
  {}

  lemma LinkerStep(s: State, t: Tid, wake: Option<Tid>)
    requires Runnable(s, t, wake)
    ensures s.pcs[t].LinkWant? ==> LinkerPending(Next(s, t, wake).pcs)
    ensures LinkerPending(s.pcs) && !s.pcs[t].ScanWant? ==> LinkerPending(Next(s, t, wake).pcs)
  {
    var r := Next(s, t, wake).pcs;
    if s.pcs[t].LinkWant? { assert Linker(r[t]); }
    if LinkerPending(s.pcs) && !s.pcs[t].ScanWant? {
      var u :| 0 <= u < |s.pcs| && Linker(s.pcs[u]);
      assert Linker(r[u]);
    }
  }

  // Where every registered dependency is.

  function Ticket(e: Entry): D.Dep {
    D.Dep(e.dep.name, e.dep.msg, e.dep.keys, [])
  }

  function Count(es: seq<Entry>, x: D.Dep): nat {
    if es == [] then 0 else (if Ticket(es[0]) == x then 1 else 0) + Count(es[1..], x)
  }

  function CarriedBy(x: D.Dep): Pc -> nat {
    (p: Pc) =>
      if (p.LookWant? || p.LookOut? || p.LinkWant?) && Ticket(p.draft) == x then 1
      else if p.PushWant? && Ticket(p.entry) == x then 1
      else 0
  }

  lemma {:induction false} CountWithout(es: seq<Entry>, at: nat, x: D.Dep)
    requires at < |es|
    ensures Count(es, x) == Count(es[..at] + es[at + 1..], x) + if Ticket(es[at]) == x then 1 else 0
  {
    var r := es[..at] + es[at + 1..];
    if at == 0 {
      assert r == es[1..];
    } else {
      CountWithout(es[1..], at - 1, x);
      assert r[1..] == es[1..][..at - 1] + es[1..][at..];
    }
  }

  lemma {:induction false} CountUpdate(es: seq<Entry>, at: nat, e: Entry, x: D.Dep)
    requires at < |es| && Ticket(e) == Ticket(es[at])
    ensures Count(es[at := e], x) == Count(es, x)
  {
    if at > 0 {
      CountUpdate(es[1..], at - 1, e, x);
      assert es[at := e][1..] == es[1..][at - 1 := e];
    }
  }

  lemma {:induction false} CountSnoc(es: seq<Entry>, e: Entry, x: D.Dep)
    ensures Count(es + [e], x) == Count(es, x) + if Ticket(e) == x then 1 else 0
  {
    if es == [] {
      assert (es + [e])[1..] == [];
    } else {
      CountSnoc(es[1..], e, x);
      assert (es + [e])[1..] == es[1..] + [e];
    }
  }

  /** How often a registration is carried by a thread, pending, posted, or lost. */
  function Whereabouts(s: State, x: D.Dep): nat {
    Sum(s.pcs, CarriedBy(x)) + Count(s.deps.list, x) + Count(s.events.posted, x) + Count(s.deps.lost, x)
  }

  /** Every registration is in exactly one place, as often as it was made. */
  ghost predicate Conserved(s: State) {
    forall x :: Whereabouts(s, x) == multiset(s.deps.registered)[x]
  }

  lemma TicketLinked(d: Pending, e: Entry, x: D.Dep)
    ensures var r := Linked(d, e);
            Count(r.list, x) + Count(r.lost, x) ==
            Count(d.list, x) + Count(d.lost, x) + if Ticket(e) == x then 1 else 0
  {
    CountSnoc(d.list, e, x);
    CountSnoc(d.lost, e, x);
  }

  lemma TicketScanned(s: State, key: Option<D.Key>, inner: bool, at: nat, x: D.Dep)
    ensures var p := ScanAt(key, inner, at);
            var d := DepsAfter(s.deps, p, Now(s));
            d.lost == s.deps.lost && CarriedBy(x)(PcAfter(s, p)) + Count(d.list, x) == Count(s.deps.list, x)
  {
    if at < |s.deps.list| {
      CountWithout(s.deps.list, at, x);
      CountUpdate(s.deps.list, at, Marked(s.deps.list[at], key), x);
    }
  }

  /** One step moves one ticket at most. */
  lemma TicketStep(s: State, p: Pc, x: D.Dep)
    ensures var d, v := DepsAfter(s.deps, p, Now(s)), EventsAfter(s.events, p);
            CarriedBy(x)(PcAfter(s, p)) + Count(d.list, x) + Count(v.posted, x) + Count(d.lost, x) ==
            CarriedBy(x)(p) + Count(s.deps.list, x) + Count(s.events.posted, x) + Count(s.deps.lost, x)
  {
    hide Count, Finished, Linked, Marked;
    match p
    case LinkWant(draft) => TicketLinked(s.deps, Numbered(s.deps, draft), x);
    case ScanAt(key, inner, at) => TicketScanned(s, key, inner, at, x);
    case PushWant(_, _, _, e) => CountSnoc(s.events.posted, e, x);
    case _ =>
  }

  lemma ConservedStep(s: State, t: Tid, wake: Option<Tid>)
    requires Conserved(s) && Runnable(s, t, wake)
    ensures Conserved(Next(s, t, wake))
  {
    var w, r := Woke(s, t, wake), Next(s, t, wake);
    assert r.deps.registered == s.deps.registered;
    forall x ensures Whereabouts(r, x) == Whereabouts(s, x) {
      if s.pcs[t].PushWant? && wake.Some? { SumUpdate(s.pcs, wake.value, Woken(false), CarriedBy(x)); }
      SumUpdate(w, t, PcAfter(s, s.pcs[t]), CarriedBy(x));
      TicketStep(s, s.pcs[t], x);
    }
  }

  // What the tail pointer still reaches.

  /** The list is in the order of linking, and `tail` is on it exactly if the entry linked last is, at its end. */
  predicate InLinkOrder(d: Pending) {
    && (forall i, j | 0 <= i < j < |d.list| :: d.list[i].order < d.list[j].order)
    && (forall i | 0 <= i < |d.list| :: d.list[i].order < d.links)
    && (d.tailIn <==> d.list != [] && d.list[|d.list| - 1].order + 1 == d.links)
  }

  lemma LinkOrderStep(d: Pending, p: Pc, now: nat)
    requires InLinkOrder(d)
    ensures InLinkOrder(DepsAfter(d, p, now))
  {
    hide Finished, Marked, Linked;
    match p
    case LinkWant(draft) => LinkOrderLinks(d, Numbered(d, draft));
    case ScanAt(key, inner, at) => if at < |d.list| { MarkedKeepsOrder(d.list[at], key); }
    case _ =>
  }

  lemma MarkedKeepsOrder(e: Entry, key: Option<D.Key>)
    ensures Marked(e, key).order == e.order
  {}

  lemma LinkOrderLinks(d: Pending, e: Entry)
    requires InLinkOrder(d) && e.order == d.links
    ensures InLinkOrder(Linked(d, e))
  {}

  // The queue and its sleepers.

  /** Posted events leave in the order they were posted. */
  predicate InOrder(v: Events) {
    v.posted == v.popped + v.queue
  }

  function Awake(p: Pc): nat {
    if p.Woken? then 1 else 0
  }

  /** While a caller sleeps, every queued event is covered by a woken caller that has not rechecked the queue. */
  predicate Covered(s: State) {
    SomeAsleep(s.pcs) ==> |s.events.queue| <= Sum(s.pcs, Awake)
  }

  lemma InOrderStep(v: Events, p: Pc)
    requires InOrder(v)
    ensures InOrder(EventsAfter(v, p))
  {
    if v.queue != [] { assert v.queue == [v.queue[0]] + v.queue[1..]; }
  }

  lemma CoveredStep(s: State, t: Tid, wake: Option<Tid>)
    requires Covered(s) && Runnable(s, t, wake)
    ensures Covered(Next(s, t, wake))
  {
    var w, r := Woke(s, t, wake), Next(s, t, wake);
    SumUpdate(w, t, PcAfter(s, s.pcs[t]), Awake);
    if s.pcs[t].PushWant? && wake.Some? { SumUpdate(s.pcs, wake.value, Woken(false), Awake); }
    if SomeAsleep(r.pcs) {
      var u :| 0 <= u < |r.pcs| && r.pcs[u].Asleep?;
      assert u != t ==> s.pcs[u].Asleep?;
    }
  }

  // The invariant of every run.

  ghost predicate Inv(s: State) {
    && Exclusive(s.pcs, s.locks) && LooksOk(s.pcs)
    && ObjectsOk(s.objects) && PcsOk(s.pcs, s.objects)
    && PassesOk(s.objects, s.deps.passes, Announced(s))
    && ListOk(s.deps, Scanning(s), s.objects)
    && AllEarned(s.events.posted, s.objects)
    && (LinkerPending(s.pcs) || NoneSatisfied(s.deps.list, Scanning(s)))
    && Conserved(s) && InLinkOrder(s.deps) && InOrder(s.events) && Covered(s)
  }

  lemma StartsInv(n: nat)
    ensures Inv(Init(n))
  {
    forall x ensures Whereabouts(Init(n), x) == 0 { SumZero(Init(n).pcs, CarriedBy(x)); }
  }

  lemma StepInv(s: State, t: Tid, wake: Option<Tid>)
    requires Inv(s) && Runnable(s, t, wake)
    ensures Inv(Next(s, t, wake))
  {
    var p, o, r := s.pcs[t], ObjectsAfter(s.objects, s.pcs[t]), Next(s, t, wake);
    KeepsExclusive(s, Step(t, wake));
    KeepsLooks(s, Step(t, wake));
    TurnStep(s, t, wake);
    AnnouncedStep(s, t, wake);
    ObjectsStep(s.objects, p);
    PassesStep(s.objects, s.deps, Announced(s), p);
    ListStep(s.deps, Scanning(s), s.objects, p);
    NextPcOk(s, p);
    PostedStep(s.events, p, s.objects, o);
    LinkOrderStep(s.deps, p, Now(s));
    InOrderStep(s.events, p);
    ConservedStep(s, t, wake);
    CoveredStep(s, t, wake);
    LinkerStep(s, t, wake);
    WokeOk(s, t, wake);
    PcsLater(Woke(s, t, wake), t, PcAfter(s, p), s.objects, o);
    if NoneSatisfied(s.deps.list, Scanning(s)) && !p.LinkWant? {
      NoneSatisfiedStep(s.deps, Scanning(s), p, Now(s));
    }
  }

  lemma WokeOk(s: State, t: Tid, wake: Option<Tid>)
    requires PcsOk(s.pcs, s.objects) && Runnable(s, t, wake)
    ensures PcsOk(Woke(s, t, wake), s.objects)
  {}
}
