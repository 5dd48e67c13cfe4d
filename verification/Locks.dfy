/** The three mutexes: mutual exclusion, the lock order, deadlock freedom, and an end to every operation. */
module Locks {
  import opened Bytes
  import opened Counting
  import opened Protocol

  predicate HoldsObj(p: Pc) {
    p.ObjOut? || p.LookOut? || ((p.ScanWant? || p.ScanAt? || p.PushWant? || p.PushOut?) && p.inner)
  }

  predicate HoldsDep(p: Pc) {
    p.LinkOut? || p.ScanAt? || p.PushWant? || p.PushOut?
  }

  predicate HoldsQ(p: Pc) {
    p.PushOut? || p.PopOut?
  }

  predicate Owns(m: Option<Tid>, pcs: seq<Pc>, holds: Pc -> bool) {
    && (m.Some? ==> m.value < |pcs|)
    && forall t | 0 <= t < |pcs| :: m == Some(t) <==> holds(pcs[t])
  }

  /** Each mutex is owned by exactly the thread that is inside its critical section. */
  predicate Exclusive(pcs: seq<Pc>, locks: Mutexes) {
    && Owns(locks.obj, pcs, HoldsObj)
    && Owns(locks.dep, pcs, HoldsDep)
    && Owns(locks.q, pcs, HoldsQ)
  }

  /** The owner of a mutex after a thread has gone from `o` to `p`. */
  function Owner(m: Option<Tid>, t: Tid, o: Pc, p: Pc, holds: Pc -> bool): Option<Tid> {
    if holds(p) then Some(t) else if holds(o) then None else m
  }

  lemma Moved(m: Option<Tid>, pcs: seq<Pc>, t: Tid, p: Pc, holds: Pc -> bool)
    requires Owns(m, pcs, holds) && t < |pcs| && (holds(p) ==> m == Some(t) || m == None)
    ensures Owns(Owner(m, t, pcs[t], p, holds), pcs[t := p], holds)
  {}

  function Owners(m: Mutexes, t: Tid, o: Pc, p: Pc): Mutexes {
    Mutexes(Owner(m.obj, t, o, p, HoldsObj), Owner(m.dep, t, o, p, HoldsDep), Owner(m.q, t, o, p, HoldsQ))
  }

  predicate MayHold(m: Mutexes, t: Tid, p: Pc) {
    && (HoldsObj(p) ==> m.obj == Some(t) || m.obj == None)
    && (HoldsDep(p) ==> m.dep == Some(t) || m.dep == None)
    && (HoldsQ(p) ==> m.q == Some(t) || m.q == None)
  }

  lemma NextOwners(s: State, t: Tid, wake: Option<Tid>)
    requires Exclusive(s.pcs, s.locks) && t < |s.pcs| && CanStep(s, t, wake)
    ensures LocksAfter(s, t) == Owners(s.locks, t, s.pcs[t], PcAfter(s, s.pcs[t]))
    ensures MayHold(s.locks, t, PcAfter(s, s.pcs[t]))
  {}

  lemma MovedAll(m: Mutexes, pcs: seq<Pc>, t: Tid, p: Pc)
    requires Exclusive(pcs, m) && t < |pcs| && MayHold(m, t, p)
    ensures Exclusive(pcs[t := p], Owners(m, t, pcs[t], p))
  {
    Moved(m.obj, pcs, t, p, HoldsObj);
    Moved(m.dep, pcs, t, p, HoldsDep);
    Moved(m.q, pcs, t, p, HoldsQ);
  }

  /** A thread that holds nothing, before and after, moves on. */
  lemma MovedOutside(m: Mutexes, pcs: seq<Pc>, t: Tid, p: Pc)
    requires Exclusive(pcs, m) && t < |pcs| && MayHold(m, t, p)
    requires Owners(m, t, pcs[t], p) == m
    ensures Exclusive(pcs[t := p], m)
  {
    MovedAll(m, pcs, t, p);
  }

  lemma KeepsExclusive(s: State, a: Action)
    requires Exclusive(s.pcs, s.locks) && Enabled(s, a)
    ensures Exclusive(Apply(s, a).pcs, Apply(s, a).locks)
  {
    match a
    case Begin(t, call) => MovedOutside(s.locks, s.pcs, t, Entered(s, call));
    case Wake(t, timedOut) => MovedOutside(s.locks, s.pcs, t, Woken(timedOut));
    case Step(t, wake) =>
      NextOwners(s, t, wake);
      WokeExclusive(s, t, wake);
      hide PcAfter, LocksAfter, ObjectsAfter, DepsAfter, EventsAfter, Exclusive, Owners, MayHold;
      MovedAll(s.locks, Woke(s, t, wake), t, PcAfter(s, s.pcs[t]));
  }

  lemma WokeExclusive(s: State, t: Tid, wake: Option<Tid>)
    requires Exclusive(s.pcs, s.locks) && t < |s.pcs| && CanStep(s, t, wake)
    ensures Exclusive(Woke(s, t, wake), s.locks) && Woke(s, t, wake)[t] == s.pcs[t]
  {
    if s.pcs[t].PushWant? && wake.Some? { MovedOutside(s.locks, s.pcs, wake.value, Woken(false)); }
  }

  // Deadlock freedom.

  predicate InFlight(p: Pc) {
    !p.Idle? && !p.Asleep?
  }

  predicate Quiet(s: State) {
    forall t | 0 <= t < |s.pcs| :: !InFlight(s.pcs[t])
  }

  predicate Runnable(s: State, t: Tid, wake: Option<Tid>) {
    t < |s.pcs| && CanStep(s, t, wake)
  }

  /** The place in the order objects, list, queue of the mutex a thread is waiting for; 0 if for none. */
  function Wants(p: Pc): nat {
    if p.ObjWant? || p.LookWant? then 1
    else if p.LinkWant? || p.ScanWant? then 2
    else if p.PushWant? || p.PopWant? || p.Woken? then 3
    else 0
  }

  /** The mutex at that place. */
  function At(m: Mutexes, place: nat): Option<Tid> {
    if place == 1 then m.obj else if place == 2 then m.dep else if place == 3 then m.q else None
  }

  lemma WaitsForLater(pcs: seq<Pc>, m: Mutexes, t: Tid, u: Tid)
    requires Exclusive(pcs, m) && t < |pcs| && u < |pcs| && Wants(pcs[t]) > 0
    ensures forall place | Wants(pcs[t]) <= place :: At(m, place) != Some(t)
    ensures At(m, Wants(pcs[t])) == Some(u) && Wants(pcs[u]) > 0 ==> Wants(pcs[t]) < Wants(pcs[u])
  {
    var p, q := pcs[t], pcs[u];
    assert !HoldsQ(p) && (Wants(p) <= 2 ==> !HoldsDep(p)) && (Wants(p) <= 1 ==> !HoldsObj(p));
    assert Wants(q) > 0 ==> !HoldsQ(q) && (Wants(q) <= 2 ==> !HoldsDep(q)) && (Wants(q) <= 1 ==> !HoldsObj(q));
  }

  /** Whatever is in flight, some thread can go on. */
  lemma DeadlockFree(s: State)
    requires Exclusive(s.pcs, s.locks) && !Quiet(s)
    ensures exists t, wake :: Runnable(s, t, wake)
  {
    var u :| 0 <= u < |s.pcs| && InFlight(s.pcs[u]);
    var wake := if SomeAsleep(s.pcs) then (var w :| 0 <= w < |s.pcs| && s.pcs[w].Asleep?; Some(w)) else None;
    // The owner of the last mutex in the order that is taken can go on, or else the thread in flight can.
    var t := if s.locks.q.Some? then s.locks.q.value
             else if s.locks.dep.Some? then s.locks.dep.value
             else if NeedsLater(s.pcs[u]) then u
             else if s.locks.obj.Some? then s.locks.obj.value
             else u;
    assert Runnable(s, t, wake);
  }

  predicate NeedsLater(p: Pc) {
    p.LinkWant? || p.ScanWant? || p.PopWant? || p.Woken?
  }

  // Every operation comes to an end.

  /** A thread that will still link or post an entry. */
  function Carries(p: Pc): nat {
    if p.LookWant? || p.LookOut? || p.LinkWant? || p.PushWant? then 1 else 0
  }

  function LooksLeft(d: Entry): nat {
    if |d.found| <= |d.dep.keys| then |d.dep.keys| - |d.found| else 0
  }

  /** How far a thread is from the end of its operation, loops over the list apart. */
  function Phase(p: Pc): nat {
    match p
    case LookOut(d) => 10 + 2 * LooksLeft(d)
    case LookWant(d) => 9 + 2 * LooksLeft(d)
    case LinkWant(_) => 8
    case LinkOut => 7
    case ObjWant(_) => 7
    case ScanWant(_, _) => 6
    case PushOut(_, _, _) => 6
    case ScanAt(_, _, _) => 5
    case PushWant(_, _, _, _) => 4
    case PopWant(_) => 3
    case Woken(_) => 2
    case ObjOut => 1
    case PopOut(_) => 1
    case _ => 0
  }

  /** Events that can still be posted. */
  function ToPost(s: State): nat {
    |s.deps.list| + Sum(s.pcs, Carries)
  }

  function Phases(s: State): nat {
    Sum(s.pcs, Phase)
  }

  /** Entries the current pass has not reached. */
  function ToScan(s: State): nat {
    if s.locks.dep.Some? && s.locks.dep.value < |s.pcs| then Ahead(s.pcs[s.locks.dep.value], |s.deps.list|) else 0
  }

  function Ahead(p: Pc, n: nat): nat {
    if p.ScanAt? && p.at < n then n - p.at else 0
  }

  predicate Nearer(r: State, s: State) {
    || ToPost(r) < ToPost(s)
    || (ToPost(r) == ToPost(s) && Phases(r) < Phases(s))
    || (ToPost(r) == ToPost(s) && Phases(r) == Phases(s) && ToScan(r) < ToScan(s))
  }

  /** A lookup is pending only while there are keys to look up. */
  predicate LooksOk(pcs: seq<Pc>) {
    forall t | 0 <= t < |pcs| :: pcs[t].LookWant? ==> |pcs[t].draft.found| < |pcs[t].draft.dep.keys|
  }

  lemma KeepsLooks(s: State, a: Action)
    requires LooksOk(s.pcs) && Enabled(s, a)
    ensures LooksOk(Apply(s, a).pcs)
  {}

  lemma StepWeights(s: State, p: Pc)
    requires p.LookWant? ==> |p.draft.found| < |p.draft.dep.keys|
    requires InFlight(p) && !p.PushWant?
    ensures var q, n := PcAfter(s, p), |DepsAfter(s.deps, p, Now(s)).list|;
            && n + Carries(q) <= |s.deps.list| + Carries(p)
            && (Phase(q) < Phase(p) || (Phase(q) == Phase(p) && q.ScanAt? && Ahead(q, n) < Ahead(p, |s.deps.list|)))
  {}

  /** Every step brings the system nearer to rest. */
  lemma StepDescends(s: State, t: Tid, wake: Option<Tid>)
    requires Exclusive(s.pcs, s.locks) && LooksOk(s.pcs) && Runnable(s, t, wake)
    ensures Nearer(Next(s, t, wake), s)
  {
    var p, r, w := s.pcs[t], Next(s, t, wake), Woke(s, t, wake);
    SumUpdate(w, t, PcAfter(s, p), Carries);
    SumUpdate(w, t, PcAfter(s, p), Phase);
    if p.PushWant? {
      if wake.Some? { SumUpdate(s.pcs, wake.value, Woken(false), Carries); }
      assert ToPost(r) < ToPost(s);
    } else {
      StepWeights(s, p);
      if Phase(PcAfter(s, p)) == Phase(p) { ScanStays(s, t, wake); }
    }
  }

  lemma ScanStays(s: State, t: Tid, wake: Option<Tid>)
    requires Exclusive(s.pcs, s.locks) && Runnable(s, t, wake) && s.pcs[t].ScanAt? && PcAfter(s, s.pcs[t]).ScanAt?
    ensures ToScan(s) == Ahead(s.pcs[t], |s.deps.list|)
    ensures ToScan(Next(s, t, wake)) == Ahead(PcAfter(s, s.pcs[t]), |Next(s, t, wake).deps.list|)
  {}

  predicate OnlySteps(acts: seq<Action>) {
    forall i | 0 <= i < |acts| :: acts[i].Step?
  }

  /** With no new calls and no wake-ups but those by signals, everything in flight finishes or goes to sleep. */
  lemma {:induction false} Settles(s: State) returns (acts: seq<Action>, end: State)
    requires Exclusive(s.pcs, s.locks) && LooksOk(s.pcs)
    ensures OnlySteps(acts) && Reaches(s, acts, end) && Quiet(end)
    decreases ToPost(s), Phases(s), ToScan(s)
  {
    if Quiet(s) {
      return [], s;
    }
    DeadlockFree(s);
    var t, wake :| Runnable(s, t, wake);
    var a := Step(t, wake);
    StepDescends(s, t, wake);
    KeepsExclusive(s, a);
    KeepsLooks(s, a);
    var rest;
    rest, end := Settles(Next(s, t, wake));
    acts := [a] + rest;
    assert acts[1..] == rest;
  }
}
