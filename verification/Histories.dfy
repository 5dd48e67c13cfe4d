/** What the history of a run says: what the store holds, and which call every thread is in. */
module Histories {
  import opened Bytes
  import opened Protocol
  import D = Deps

  // The store is what was added and not removed.

  /** What one change does to the number of copies under a key. */
  function Weight(c: Change, key: D.Key): int {
    if c == Added(key) then 1 else if c == Removed(key) then -1 else 0
  }

  /** How often a key was added, less how often it was removed. */
  function Net(changes: seq<Change>, key: D.Key): int {
    if changes == [] then 0 else
      var n := |changes| - 1;
      Net(changes[..n], key) + Weight(changes[n], key)
  }

  /** How many copies of the key are stored. */
  function Copies(keys: seq<D.Key>, key: D.Key): int {
    multiset(keys)[key]
  }

  /** Some copy of the key was in the store after `h` changes, or after a later one. */
  ghost predicate HeldSince(changes: seq<Change>, key: D.Key, h: nat) {
    exists i | h <= i <= |changes| :: Net(changes[..i], key) > 0
  }

  /** The keys are those added and not removed, now and at every earlier time. */
  ghost predicate Recorded(o: Objects) {
    && (forall k: D.Key :: Copies(o.keys, k) == Net(o.changes, k))
    && |o.hist| == |o.changes| + 1
    && (forall h, k: D.Key | 0 <= h <= |o.changes| :: k in o.hist[h] <==> Net(o.changes[..h], k) > 0)
  }

  lemma {:induction false} WithoutOne(keys: seq<D.Key>, key: D.Key)
    ensures multiset(Without(keys, key)) == multiset(keys) - multiset{key}
  {
    if keys != [] {
      assert keys == [keys[0]] + keys[1..];
      if keys[0] != key { WithoutOne(keys[1..], key); }
    }
  }

  lemma NetSnoc(changes: seq<Change>, c: Change, key: D.Key)
    ensures Net(changes + [c], key) == Net(changes, key) + Weight(c, key)
  {
    assert (changes + [c])[..|changes|] == changes;
  }

  lemma ChangeRecorded(o: Objects, keys: seq<D.Key>, c: Change)
    requires Recorded(o)
    requires forall k: D.Key :: Copies(keys, k) == Copies(o.keys, k) + Weight(c, k)
    ensures Recorded(Changed(o, keys, c))
  {
    var r := Changed(o, keys, c);
    forall k: D.Key ensures Net(r.changes, k) == Copies(keys, k) { NetSnoc(o.changes, c, k); }
    forall h, k: D.Key | 0 <= h <= |r.changes| ensures k in r.hist[h] <==> Net(r.changes[..h], k) > 0 {
      if h <= |o.changes| {
        assert r.changes[..h] == o.changes[..h] && r.hist[h] == o.hist[h];
      } else {
        assert r.changes[..h] == r.changes;
        assert k in Live(keys) <==> Copies(keys, k) > 0;
      }
    }
  }

  lemma StepRecorded(o: Objects, p: Pc)
    requires Recorded(o)
    ensures Recorded(ObjectsAfter(o, p))
  {
    hide Recorded, Net, Changed;
    match p
    case ObjWant(Add(key)) => ChangeRecorded(o, [key] + o.keys, Added(key));
    case ObjWant(Remove(key)) =>
      if key in o.keys {
        WithoutOne(o.keys, key);
        ChangeRecorded(o, Without(o.keys, key), Removed(key));
      }
    case _ =>
  }

  // Every thread is where its call has brought it.

  predicate Belongs(p: Pc, c: Call) {
    match p
    case Idle => true
    case ObjWant(op) => c == StoreCall(op)
    case ObjOut => c.StoreCall?
    case LookWant(d) => Drafts(d, c)
    case LookOut(d) => Drafts(d, c)
    case LinkWant(d) => Drafts(d, c)
    case LinkOut => c.AddDependency?
    case ScanWant(key, inner) => Passes(key, inner, c)
    case ScanAt(key, inner, _) => Passes(key, inner, c)
    case PushWant(key, inner, _, _) => Passes(key, inner, c)
    case PushOut(key, inner, _) => Passes(key, inner, c)
    case PopWant(wait) => c == PopCall(wait)
    case Asleep => c == PopCall(true)
    case Woken(_) => c == PopCall(true)
    case PopOut(_) => c.PopCall?
  }

  predicate Drafts(d: Entry, c: Call) {
    c.AddDependency? && d.dep.name == c.name && d.dep.msg == c.msg && d.dep.keys == c.keys
  }

  /** A pass is run for the key an `obj_add` stores, or for no key by a `deps_add`. */
  predicate Passes(key: Option<D.Key>, inner: bool, c: Call) {
    if inner then c.StoreCall? && c.op.Add? && key == Some(c.op.key) else c.AddDependency? && key == None
  }

  ghost predicate AllBelong(s: State) {
    forall t | 0 <= t < |s.pcs| && !s.pcs[t].Idle? :: t in s.begun && Belongs(s.pcs[t], s.begun[t])
  }

  lemma ActionBelongs(s: State, a: Action)
    requires AllBelong(s) && Enabled(s, a)
    ensures AllBelong(Apply(s, a))
  {}

  lemma ActionRecorded(s: State, a: Action)
    requires Recorded(s.objects) && Enabled(s, a)
    ensures Recorded(Apply(s, a).objects)
  {
    hide Recorded;
    if a.Step? { StepRecorded(s.objects, s.pcs[a.t]); }
  }

  lemma {:induction false} RunKeeps(s: State, acts: seq<Action>, end: State)
    requires Recorded(s.objects) && AllBelong(s) && Reaches(s, acts, end)
    ensures Recorded(end.objects) && AllBelong(end)
    decreases |acts|
  {
    hide Recorded, AllBelong;
    if acts != [] {
      ActionRecorded(s, acts[0]);
      ActionBelongs(s, acts[0]);
      RunKeeps(Apply(s, acts[0]), acts[1..], end);
    }
  }

  lemma HistoryHolds(s: State)
    requires Reachable(s)
    ensures Recorded(s.objects) && AllBelong(s)
  {
    var n: nat, acts :| Reaches(Init(n), acts, s);
    RunKeeps(Init(n), acts, s);
  }

  // What follows for every reachable state.

  /** The store holds each key as often as it was added and not removed. */
  lemma StoreIsNet(s: State, key: D.Key)
    requires Reachable(s)
    ensures Copies(s.objects.keys, key) == Net(s.objects.changes, key)
  {
    hide Reachable;
    HistoryHolds(s);
  }

  /** What a step of a store operation records: an addition always, a removal exactly if the key is stored; and no other
      step changes the store. */
  lemma StoreChanges(s: State, t: Tid, wake: Option<Tid>)
    requires Reachable(s) && t < |s.pcs| && CanStep(s, t, wake)
    ensures Next(s, t, wake).objects.changes == s.objects.changes +
            match s.pcs[t]
            case ObjWant(Add(key)) => [Added(key)]
            case ObjWant(Remove(key)) => if Net(s.objects.changes, key) > 0 then [Removed(key)] else []
            case _ => []
  {
    hide Reachable, Net;
    HistoryHolds(s);
    assert forall k :: k in s.objects.keys <==> Copies(s.objects.keys, k) > 0;
    assert s.objects.changes + [] == s.objects.changes;
  }

  /** A lookup finds a key exactly if it was added and not removed, and goes on with the next key or to the list. */
  lemma LookupFinds(s: State, t: Tid, wake: Option<Tid>)
    requires Reachable(s) && t < |s.pcs| && CanStep(s, t, wake) && s.pcs[t].LookWant?
    ensures var d, p := s.pcs[t].draft, Next(s, t, wake).pcs[t];
            && p.LookOut? && p.draft.dep.keys == d.dep.keys
            && (|d.found| < |d.dep.keys| ==>
                  p.draft.dep.status == d.dep.status + [Net(s.objects.changes, d.dep.keys[|d.found|]) > 0])
  {
    hide Reachable, Net;
    HistoryHolds(s);
    assert forall k :: k in s.objects.keys <==> Copies(s.objects.keys, k) > 0;
  }

  /** Only a caller of `ev_pop_wait` ever sleeps, and it knows whose call it is in. */
  lemma SleepersWait(s: State, t: Tid)
    requires Reachable(s) && t < |s.pcs| && (s.pcs[t].Asleep? || s.pcs[t].Woken?)
    ensures t in s.begun && s.begun[t] == PopCall(true)
  {
    hide Reachable, Recorded;
    HistoryHolds(s);
  }

  /** What a pop does when it has the mutex: it goes to sleep exactly if the queue is empty and it waits and its time is
      not out; otherwise it takes the first event and returns that, or nothing from an empty queue. */
  lemma PopExact(s: State, t: Tid, wake: Option<Tid>)
    requires Reachable(s) && t < |s.pcs| && CanStep(s, t, wake) && (s.pcs[t].PopWant? || s.pcs[t].Woken?)
    ensures t in s.begun && s.begun[t].PopCall?
    ensures var r, q := Next(s, t, wake), s.events.queue;
            if q == [] && s.begun[t].wait && s.pcs[t] != Woken(true) then r.pcs[t] == Asleep && r.events == s.events
            else if q == [] then r.pcs[t] == PopOut(None) && r.events == s.events
            else r.pcs[t] == PopOut(Some(q[0])) && r.events.queue == q[1..] && r.events.popped == s.events.popped + [q[0]]
  {
    HistoryHolds(s);
  }

  predicate Others(acts: seq<Action>, t: Tid) {
    forall i | 0 <= i < |acts| :: acts[i].t != t
  }

  /** Other threads leave a caller that does not sleep where it is. */
  lemma {:induction false} StaysPut(s: State, t: Tid, acts: seq<Action>, end: State)
    requires Reachable(s) && t < |s.pcs| && !s.pcs[t].Asleep? && Others(acts, t) && Reaches(s, acts, end)
    ensures Reachable(end) && t < |end.pcs| && end.pcs[t] == s.pcs[t]
    ensures t in s.begun ==> t in end.begun && end.begun[t] == s.begun[t]
    decreases |acts|
  {
    hide Reachable;
    if acts != [] {
      StepReachable(s, acts[0]);
      StaysPut(Apply(s, acts[0]), t, acts[1..], end);
    }
  }

  /** What a pop is given by a queue. */
  function Front(queue: seq<Entry>): Option<Entry> {
    if |queue| == 0 then None else Some(queue[0])
  }

  /** `ev_pop` enters, takes what there is or nothing, and is done after two steps of its own, whatever other threads do
      before and between; it never sleeps. */
  lemma PopReturns(s: State, t: Tid, acts: seq<Action>, mid: State, wake: Option<Tid>,
                   more: seq<Action>, late: State, wake': Option<Tid>)
    requires Reachable(s) && Enabled(s, Begin(t, PopCall(false)))
    requires Others(acts, t) && Reaches(Apply(s, Begin(t, PopCall(false))), acts, mid)
    requires t < |mid.pcs| && CanStep(mid, t, wake) && Others(more, t) && Reaches(Next(mid, t, wake), more, late)
    requires t < |late.pcs| && CanStep(late, t, wake')
    ensures late.pcs[t] == PopOut(Front(mid.events.queue)) && Next(late, t, wake').pcs[t].Idle?
    ensures Next(mid, t, wake).events.queue == if mid.events.queue == [] then [] else mid.events.queue[1..]
  {
    hide Reachable;
    StepReachable(s, Begin(t, PopCall(false)));
    StaysPut(Apply(s, Begin(t, PopCall(false))), t, acts, mid);
    PopExact(mid, t, wake);
    StepReachable(mid, Step(t, wake));
    StaysPut(Next(mid, t, wake), t, more, late);
  }

  /** A waiting caller whose time is out returns at its next step, with an event if there is one. */
  lemma TimeoutReturns(s: State, t: Tid, acts: seq<Action>, mid: State, wake: Option<Tid>)
    requires Reachable(s) && Enabled(s, Wake(t, true)) && Others(acts, t) && Reaches(Apply(s, Wake(t, true)), acts, mid)
    requires t < |mid.pcs| && CanStep(mid, t, wake)
    ensures Next(mid, t, wake).pcs[t] == PopOut(Front(mid.events.queue))
  {
    hide Reachable;
    StepReachable(s, Wake(t, true));
    StaysPut(Apply(s, Wake(t, true)), t, acts, mid);
    PopExact(mid, t, wake);
  }
}
