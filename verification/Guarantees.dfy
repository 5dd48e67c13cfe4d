/** The guarantees of the store, the tracker and the queue in every reachable state, for any number of threads. */
module Guarantees {
  import opened Bytes
  import opened Counting
  import opened Protocol
  import opened Locks
  import opened Dependencies
  import opened Coordination
  import Passes
  import opened Histories
  import D = Deps

  // Calls and wake-ups keep the invariant as well.

  predicate EntersFrom(o: Pc, p: Pc) {
    !InFlight(o) && (p.ObjWant? || p.LookWant? || p.LinkWant? || p.PopWant? || p.Woken?)
  }

  function Outside(s: State, t: Tid, p: Pc, reg: seq<D.Dep>, begun: map<Tid, Call>): State
    requires t < |s.pcs|
  {
    s.(pcs := s.pcs[t := p], deps := s.deps.(registered := s.deps.registered + reg), begun := begun)
  }

  lemma OutsidePcs(s: State, t: Tid, p: Pc)
    requires t < |s.pcs| && EntersFrom(s.pcs[t], p)
    ensures LinkerPending(s.pcs) ==> LinkerPending(s.pcs[t := p])
    ensures SomeAsleep(s.pcs[t := p]) ==> SomeAsleep(s.pcs)
  {
    var r := s.pcs[t := p];
    if LinkerPending(s.pcs) {
      var u :| 0 <= u < |s.pcs| && Linker(s.pcs[u]);
      assert Linker(r[u]);
    }
    if SomeAsleep(r) {
      var u :| 0 <= u < |r| && r[u].Asleep?;
      assert s.pcs[u].Asleep?;
    }
  }

  lemma OutsideSights(s: State, t: Tid, p: Pc, reg: seq<D.Dep>, begun: map<Tid, Call>)
    requires Exclusive(s.pcs, s.locks) && t < |s.pcs| && EntersFrom(s.pcs[t], p)
    ensures var r := Outside(s, t, p, reg, begun);
            Exclusive(r.pcs, r.locks) && Announced(r) == Announced(s) && Scanning(r) == Scanning(s)
  {
    MovedOutside(s.locks, s.pcs, t, p);
  }

  lemma OutsideTickets(s: State, t: Tid, p: Pc, reg: seq<D.Dep>, begun: map<Tid, Call>)
    requires Conserved(s) && t < |s.pcs| && EntersFrom(s.pcs[t], p)
    requires forall x :: CarriedBy(x)(p) == multiset(reg)[x]
    ensures Conserved(Outside(s, t, p, reg, begun))
  {
    hide Sum, Count;
    var r := Outside(s, t, p, reg, begun);
    forall x ensures Whereabouts(r, x) == multiset(r.deps.registered)[x] {
      SumUpdate(s.pcs, t, p, CarriedBy(x));
    }
  }

  lemma OutsideCovered(s: State, t: Tid, p: Pc, reg: seq<D.Dep>, begun: map<Tid, Call>)
    requires Covered(s) && t < |s.pcs| && EntersFrom(s.pcs[t], p)
    ensures Covered(Outside(s, t, p, reg, begun))
  {
    hide Sum, SomeAsleep;
    OutsidePcs(s, t, p);
    SumUpdate(s.pcs, t, p, Awake);
  }

  /** A thread outside every critical section moves on, perhaps with a new registration. */
  lemma OutsideInv(s: State, t: Tid, p: Pc, reg: seq<D.Dep>, begun: map<Tid, Call>)
    requires Inv(s) && t < |s.pcs| && EntersFrom(s.pcs[t], p)
    requires PcOk(p, s.objects) && (p.LookWant? ==> |p.draft.found| < |p.draft.dep.keys|)
    requires forall x :: CarriedBy(x)(p) == multiset(reg)[x]
    ensures Inv(Outside(s, t, p, reg, begun))
  {
    hide Exclusive, ObjectsOk, PcOk, PassesOk, Announced, Scanning, Conserved, Covered, CarriedBy, InLinkOrder, InOrder;
    hide ListOk, AllEarned, NoneSatisfied, LinkerPending, EntersFrom;
    OutsideSights(s, t, p, reg, begun);
    OutsideTickets(s, t, p, reg, begun);
    OutsideCovered(s, t, p, reg, begun);
    OutsideList(s.deps, Scanning(s), s.objects, reg);
    OutsidePcs(s, t, p);
  }

  lemma OutsideList(d: Pending, turn: Option<Turn>, o: Objects, reg: seq<D.Dep>)
    requires ListOk(d, turn, o) && InLinkOrder(d)
    ensures var r := d.(registered := d.registered + reg); ListOk(r, turn, o) && InLinkOrder(r)
  {
    hide EntryOk, Exact;
  }

  lemma BeginInv(s: State, t: Tid, call: Call)
    requires Inv(s) && t < |s.pcs| && s.pcs[t].Idle?
    ensures Inv(Apply(s, Begin(t, call)))
  {
    var p, reg := Entered(s, call), Registers(call);
    assert PcOk(p, s.objects) && forall x :: CarriedBy(x)(p) == multiset(reg)[x] by { EntersRightly(s, call); }
    hide Inv;
    OutsideInv(s, t, p, reg, s.begun[t := call]);
  }

  lemma EntersRightly(s: State, call: Call)
    requires Inv(s)
    ensures var p := Entered(s, call);
            && EntersFrom(Idle, p) && PcOk(p, s.objects) && (p.LookWant? ==> |p.draft.found| < |p.draft.dep.keys|)
            && forall x :: CarriedBy(x)(p) == multiset(Registers(call))[x]
  {}

  lemma WakeInv(s: State, t: Tid, timedOut: bool)
    requires Inv(s) && t < |s.pcs| && s.pcs[t].Asleep?
    ensures Inv(Apply(s, Wake(t, timedOut)))
  {
    hide Inv;
    OutsideInv(s, t, Woken(timedOut), [], s.begun);
    assert s.deps.registered + [] == s.deps.registered;
  }

  lemma ActionInv(s: State, a: Action)
    requires Inv(s) && Enabled(s, a)
    ensures Inv(Apply(s, a))
  {
    hide Inv, Next, Entered, Registers;
    match a
    case Begin(t, call) => BeginInv(s, t, call);
    case Wake(t, timedOut) => WakeInv(s, t, timedOut);
    case Step(t, wake) => StepInv(s, t, wake);
  }

  lemma {:induction false} RunInv(s: State, acts: seq<Action>, end: State)
    requires Inv(s) && Reaches(s, acts, end)
    ensures Inv(end)
    decreases |acts|
  {
    if acts != [] {
      ActionInv(s, acts[0]);
      RunInv(Apply(s, acts[0]), acts[1..], end);
    }
  }

  lemma Always(s: State)
    requires Reachable(s)
    ensures Inv(s)
  {
    var n: nat, acts :| Reaches(Init(n), acts, s);
    StartsInv(n);
    RunInv(Init(n), acts, s);
  }

  // Locks.

  /** No deadlock: while an operation is in flight, some thread can step; and each mutex has at most one owner. */
  lemma NoDeadlock(s: State)
    requires Reachable(s) && !Quiet(s)
    ensures exists t, wake :: Runnable(s, t, wake)
    ensures forall t, u | 0 <= t < |s.pcs| && 0 <= u < |s.pcs| && t != u ::
              !(HoldsObj(s.pcs[t]) && HoldsObj(s.pcs[u])) && !(HoldsDep(s.pcs[t]) && HoldsDep(s.pcs[u])) &&
              !(HoldsQ(s.pcs[t]) && HoldsQ(s.pcs[u]))
  {
    Always(s);
    DeadlockFree(s);
  }

  /** Mutexes are taken in one order: a thread that waits for one owns no mutex at that place or later.  So whenever it
      waits for a thread that waits itself, the second wait is for a later mutex, and no circle of waits can close. */
  lemma LockOrder(s: State, t: Tid, u: Tid)
    requires Reachable(s) && t < |s.pcs| && u < |s.pcs| && Wants(s.pcs[t]) > 0
    ensures forall place | Wants(s.pcs[t]) <= place :: At(s.locks, place) != Some(t)
    ensures At(s.locks, Wants(s.pcs[t])) == Some(u) && Wants(s.pcs[u]) > 0 ==> Wants(s.pcs[t]) < Wants(s.pcs[u])
  {
    hide Inv, Wants, At;
    Always(s);
    PartsOfInv(s);
    WaitsForLater(s.pcs, s.locks, t, u);
  }

  /** With no further calls, every schedule comes to rest: each step descends, and rest can be reached. */
  lemma EverythingEnds(s: State) returns (acts: seq<Action>, end: State)
    requires Reachable(s)
    ensures OnlySteps(acts) && Reaches(s, acts, end) && Quiet(end)
    ensures forall t, wake | Runnable(s, t, wake) :: Nearer(Next(s, t, wake), s)
  {
    Always(s);
    forall t, wake | Runnable(s, t, wake) ensures Nearer(Next(s, t, wake), s) { StepDescends(s, t, wake); }
    acts, end := Settles(s);
  }

  // Dependencies.

  /** A registration is posted, pending, or lost, or still on its way, as often as it was made and never twice. */
  lemma ExactlyOnce(s: State, x: D.Dep)
    requires Reachable(s)
    ensures Sum(s.pcs, CarriedBy(x)) + Count(s.deps.list, x) + Count(s.events.posted, x) + Count(s.deps.lost, x) ==
            multiset(s.deps.registered)[x]
    ensures Quiet(s) && s.deps.lost == [] ==>
              Count(s.deps.list, x) + Count(s.events.popped + s.events.queue, x) == multiset(s.deps.registered)[x]
  {
    Always(s);
    assert Whereabouts(s, x) == multiset(s.deps.registered)[x];
    if Quiet(s) && s.deps.lost == [] { SumZero(s.pcs, CarriedBy(x)); }
  }

  /** A registration is lost exactly if it is linked while an older one is pending and the one that was linked just
      before it is not ... */
  lemma LostExactly(s: State, t: Tid, wake: Option<Tid>)
    requires Reachable(s) && Runnable(s, t, wake)
    ensures Next(s, t, wake).deps.lost != s.deps.lost <==>
            s.pcs[t].LinkWant? && s.deps.list != [] && !JustLinkedIsPending(s.deps)
  {
    hide Inv, InLinkOrder, DepsAfter, JustLinkedIsPending;
    Always(s);
    PartsOfInv(s);
    LostStep(s.deps, s.pcs[t], Now(s));
  }

  lemma PartsOfInv(s: State)
    requires Inv(s)
    ensures InLinkOrder(s.deps) && Exclusive(s.pcs, s.locks) && ListOk(s.deps, Scanning(s), s.objects)
  {
    hide InLinkOrder, Exclusive, ListOk, Scanning;
  }

  lemma LostStep(d: Pending, p: Pc, now: nat)
    requires InLinkOrder(d)
    ensures DepsAfter(d, p, now).lost != d.lost <==> p.LinkWant? && d.list != [] && !JustLinkedIsPending(d)
  {
    hide Finished, Marked;
    assert d.tailIn ==> d.list[|d.list| - 1].order + 1 == d.links;
  }

  predicate JustLinkedIsPending(d: Pending) {
    exists j | 0 <= j < |d.list| :: d.list[j].order + 1 == d.links
  }

  /** ... and then for good, whatever runs afterwards; nor is a post ever taken back. */
  lemma {:induction false} LostForGood(s: State, acts: seq<Action>, end: State)
    requires Reaches(s, acts, end)
    ensures s.deps.lost <= end.deps.lost && s.events.posted <= end.events.posted
    decreases |acts|
  {
    if acts != [] { LostForGood(Apply(s, acts[0]), acts[1..], end); }
  }

  /** A message is posted only if each of its keys had been added more often than removed at some moment since that
      `deps_add` began. */
  lemma PostsAreEarned(s: State, e: Entry, i: nat)
    requires Reachable(s) && e in s.events.posted && i < |e.dep.keys|
    ensures HeldSince(s.objects.changes, e.dep.keys[i], e.born)
  {
    hide Recorded, AllBelong, Net;
    Always(s);
    HistoryHolds(s);
    assert Earned(e, s.objects) && PresentSince(s.objects, e.dep.keys[i], e.looks[i]);
    PresentIsHeld(s.objects, e.dep.keys[i], e.looks[i]);
  }

  lemma PresentIsHeld(o: Objects, key: D.Key, h: nat)
    requires Recorded(o)
    ensures PresentSince(o, key, h) <==> HeldSince(o.changes, key, h)
  {
    hide Net;
    if i :| h <= i <= |o.changes| && Net(o.changes[..i], key) > 0 { assert key in o.hist[i]; }
    if i :| h <= i < |o.hist| && key in o.hist[i] { assert Net(o.changes[..i], key) > 0; }
  }

  /** The key was added after its lookup but the pass for it ran before the entry was linked. */
  ghost predicate Missed(passes: seq<Pass>, e: Entry, i: nat)
    requires i < |e.dep.keys| == |e.found| == |e.looks| && e.linkedAt <= |passes|
  {
    !e.found[i] && exists k | 0 <= k < e.linkedAt :: passes[k].key == Some(e.dep.keys[i]) && e.looks[i] < passes[k].time
  }

  /** The status of a key says whether it has been present - added more often than removed - since its lookup, unless its
      addition fell into the window between lookup and linking and it was not added again.  No pass may be running or announced for the key. */
  lemma StatusMeansPresent(s: State, j: nat, i: nat)
    requires Reachable(s) && s.locks.dep == None && j < |s.deps.list| && i < |s.deps.list[j].dep.keys|
    requires Announced(s) != Some(s.deps.list[j].dep.keys[i])
    ensures var e, o, ps := s.deps.list[j], s.objects, s.deps.passes;
            && i < |e.dep.status| && |e.found| == |e.looks| == |e.dep.keys| && e.linkedAt <= |ps|
            && ((e.dep.status[i] <==> HeldSince(o.changes, e.dep.keys[i], e.looks[i])) <==>
                (Missed(ps, e, i) ==> Seen(ps, e.linkedAt, |ps|, e.dep.keys[i])))
  {
    hide Recorded, AllBelong, HeldSince, PresentSince, Missed, Seen;
    Always(s);
    HistoryHolds(s);
    PresentIsHeld(s.objects, s.deps.list[j].dep.keys[i], s.deps.list[j].looks[i]);
    StatusOfEntry(s.deps.list[j], s.objects, s.deps.passes, Announced(s), i);
  }

  lemma StatusOfEntry(e: Entry, o: Objects, ps: seq<Pass>, ann: Option<D.Key>, i: nat)
    requires ObjectsOk(o) && PassesOk(o, ps, ann) && EntryOk(e, o, ps) && Exact(e, ps, |ps|)
    requires i < |e.dep.keys| && ann != Some(e.dep.keys[i])
    ensures (e.dep.status[i] <==> PresentSince(o, e.dep.keys[i], e.looks[i])) <==>
            (Missed(ps, e, i) ==> Seen(ps, e.linkedAt, |ps|, e.dep.keys[i]))
  {
    var key := e.dep.keys[i];
    if e.found[i] {
      assert key in o.hist[e.looks[i]];
    } else if Seen(ps, e.linkedAt, |ps|, key) {
      var k :| e.linkedAt <= k < |ps| && ps[k].key == Some(key);
      assert e.looks[i] <= ps[k].time && key in o.hist[ps[k].time];
    } else {
      if Missed(ps, e, i) {
        var k :| 0 <= k < e.linkedAt && ps[k].key == Some(key) && e.looks[i] < ps[k].time;
        assert key in o.hist[ps[k].time];
      }
      if PresentSince(o, key, e.looks[i]) { AddedUnseen(e, o, ps, ann, i); }
    }
  }

  lemma AddedUnseen(e: Entry, o: Objects, ps: seq<Pass>, ann: Option<D.Key>, i: nat)
    requires ObjectsOk(o) && PassesOk(o, ps, ann) && EntryOk(e, o, ps)
    requires i < |e.dep.keys| && !e.found[i] && ann != Some(e.dep.keys[i])
    requires PresentSince(o, e.dep.keys[i], e.looks[i]) && !Seen(ps, e.linkedAt, |ps|, e.dep.keys[i])
    ensures Missed(ps, e, i)
  {
    var key := e.dep.keys[i];
    var b :| e.looks[i] <= b < |o.hist| && key in o.hist[b];
    var h := AddedBetween(o, key, e.looks[i], b);
    assert Pass(Some(key), h) in ps;
    var k :| 0 <= k < |ps| && ps[k] == Pass(Some(key), h);
    assert k < e.linkedAt;
  }

  /** Outside every pass, and with no `deps_add` still to run its own, each pending entry waits for some key. */
  lemma PendingIsUnsatisfied(s: State, j: nat) returns (i: nat)
    requires Reachable(s) && s.locks.dep == None && !LinkerPending(s.pcs) && j < |s.deps.list|
    ensures i < |s.deps.list[j].dep.keys| == |s.deps.list[j].dep.status| && !s.deps.list[j].dep.status[i]
  {
    Always(s);
    var e := s.deps.list[j];
    assert !D.Satisfied(e.dep) && D.WellSized(e.dep);
    i :| 0 <= i < |e.dep.status| && !e.dep.status[i];
  }

  // The event queue.

  /** While a caller of `ev_pop_wait` sleeps, the queued events do not outnumber the woken callers that have not yet
      looked at the queue again. */
  lemma NoLostWakeup(s: State)
    requires Reachable(s) && SomeAsleep(s.pcs)
    ensures |s.events.queue| <= Sum(s.pcs, Awake)
  {
    Always(s);
  }

  /** Events are popped in the order they were posted, none skipped. */
  lemma PoppedInOrder(s: State)
    requires Reachable(s)
    ensures s.events.popped <= s.events.posted && s.events.popped + s.events.queue == s.events.posted
  {
    Always(s);
  }

  /** In every reachable state, a pass that is about to begin its turns leaves and posts in the end what the sequential
      scan says, whatever else runs meanwhile, and `tail` stays on the list exactly if it was and the last entry stays. */
  lemma EveryPassIsScan(s: State, turn: Turn, acts: seq<Action>, end: State)
    requires Reachable(s) && Scanning(s) == Some(turn) && turn.at == 0 && Passes.InHand(s) == []
    requires Passes.PassLasts(s, acts) && Reaches(s, acts, end) && Scanning(end) == None
    ensures D.AllSized(Passes.Views(s.deps.list)) && s.events.posted <= end.events.posted
    ensures (Passes.Views(end.deps.list), Passes.Views(end.events.posted[|s.events.posted|..])) ==
            D.Scan(Passes.Views(s.deps.list), turn.key, |s.deps.list|)
    ensures end.deps.tailIn <==>
            s.deps.tailIn && (s.deps.list == [] || !D.Satisfied(D.Mark(s.deps.list[|s.deps.list| - 1].dep, turn.key)))
  {
    hide Reachable, Inv, Reaches, Scanning, D.Scan, Passes.PassLasts, Passes.InHand, EntryOk, Exclusive;
    Always(s);
    PartsOfInv(s);
    forall j | 0 <= j < |s.deps.list| ensures D.WellSized(Passes.Views(s.deps.list)[j]) {
      assert Exact(s.deps.list[j], s.deps.passes, UpTo(s.deps, Scanning(s), j));
    }
    Passes.PassIsScan(s, turn, acts, end);
  }
}
