/** The linked lists on the heap carry out the steps of the concurrent program. */
module Realisation {
  import opened Bytes
  import opened Protocol
  import opened Locks
  import opened Dependencies
  import Passes
  import Guarantees
  import Histories
  import D = Deps
  import O = ObjStore
  import Q = EvQueue
  import T = TaskRing
  import W = WorkerPool

  // The object store.

  /** `obj_add` on the heap and in the program. */
  method AddStep(store: O.Store, s: State, t: Tid, wake: Option<Tid>, data: int, len: nat)
    requires store.Valid() && O.Keys(store.live) == s.objects.keys
    requires t < |s.pcs| && CanStep(s, t, wake) && s.pcs[t].ObjWant? && s.pcs[t].op.Add?
    modifies store
    ensures store.Valid() && O.Keys(store.live) == Next(s, t, wake).objects.keys
    ensures store.live != [] && store.live[0].data == data && store.live[0].len == len
  {
    ghost var e := store.Add(s.pcs[t].op.key, data, len);
  }

  /** `obj_get`, with or without removal: an entry is found exactly if the key was added more often than removed. */
  method GetStep(store: O.Store, s: State, t: Tid, wake: Option<Tid>) returns (e: O.Entry?)
    requires store.Valid() && O.Keys(store.live) == s.objects.keys && Reachable(s)
    requires t < |s.pcs| && CanStep(s, t, wake) && s.pcs[t].ObjWant? && (s.pcs[t].op.Get? || s.pcs[t].op.Remove?)
    modifies store, store.live
    ensures store.Valid() && O.Keys(store.live) == Next(s, t, wake).objects.keys
    ensures e != null <==> Histories.Net(s.objects.changes, s.pcs[t].op.key) > 0
    ensures e != null && s.pcs[t].op.Remove? ==>
              Next(s, t, wake).objects.changes == s.objects.changes + [Removed(s.pcs[t].op.key)]
  {
    hide Reachable, Histories.Net;
    Histories.StoreIsNet(s, s.pcs[t].op.key);
    Histories.StoreChanges(s, t, wake);
    e := store.Get(s.pcs[t].op.key, s.pcs[t].op.Remove?);
  }

  /** The lookup of one key by `deps_add`: the status is whether an entry was found. */
  method LookStep(store: O.Store, s: State, t: Tid, wake: Option<Tid>) returns (e: O.Entry?)
    requires store.Valid() && O.Keys(store.live) == s.objects.keys
    requires t < |s.pcs| && CanStep(s, t, wake) && s.pcs[t].LookWant? && |s.pcs[t].draft.found| < |s.pcs[t].draft.dep.keys|
    modifies store, store.live
    ensures store.Valid() && O.Keys(store.live) == Next(s, t, wake).objects.keys == s.objects.keys
    ensures Next(s, t, wake).pcs[t].LookOut?
    ensures Next(s, t, wake).pcs[t].draft.dep.status == s.pcs[t].draft.dep.status + [e != null]
  {
    e := store.Get(s.pcs[t].draft.dep.keys[|s.pcs[t].draft.found|], false);
  }

  /** `obj_gc` changes no key. */
  method CollectStep(store: O.Store, s: State, t: Tid, wake: Option<Tid>)
    requires store.Valid() && O.Keys(store.live) == s.objects.keys
    requires t < |s.pcs| && CanStep(s, t, wake) && s.pcs[t] == ObjWant(Collect)
    modifies store
    ensures store.Valid() && O.Keys(store.live) == Next(s, t, wake).objects.keys && store.dead == []
  {
    store.Gc();
  }

  // The list of pending entries.

  /** `tail` is on the list in the program exactly if it is so on the heap; of an empty list it does not matter. */
  ghost predicate ShowsDeps(d: D.Tracker, all: set<D.Entry>, p: Pending)
    reads d, all, d.items
  {
    d.Valid(all) && d.views == Passes.Views(p.list) && (p.list != [] ==> (d.TailLinked() <==> p.tailIn))
  }

  lemma {:induction false} ViewsSnoc(es: seq<Entry>, e: Entry)
    ensures Passes.Views(es + [e]) == Passes.Views(es) + [e.dep]
  {
    if es == [] {
      assert (es + [e])[1..] == [];
    } else {
      assert (es + [e])[1..] == es[1..] + [e];
      ViewsSnoc(es[1..], e);
    }
  }

  /** The end of `deps_add` links the entry, or loses it, as in the program. */
  method LinkStep(d: D.Tracker, e: D.Entry, s: State, t: Tid, wake: Option<Tid>, ghost all: set<D.Entry>)
    requires ShowsDeps(d, all, s.deps) && e.next == null && e !in all
    requires t < |s.pcs| && CanStep(s, t, wake) && s.pcs[t].LinkWant? && s.pcs[t].draft.dep == e.View()
    requires D.WellSized(e.View())
    modifies d, d.tail
    ensures ShowsDeps(d, all + {e}, Next(s, t, wake).deps)
  {
    ViewsSnoc(s.deps.list, Numbered(s.deps, s.pcs[t].draft));
    d.Link(e, all);
  }

  /** A whole `deps_complete` leaves and posts on the heap what the interleaved pass of the program does. */
  method PassRun(d: D.Tracker, s: State, turn: Turn, acts: seq<Action>, end: State, ghost all: set<D.Entry>)
    requires ShowsDeps(d, all, s.deps)
    requires Reachable(s) && Scanning(s) == Some(turn) && turn.at == 0 && Passes.InHand(s) == []
    requires Passes.PassLasts(s, acts) && Reaches(s, acts, end) && Scanning(end) == None
    modifies d, all
    ensures ShowsDeps(d, all, end.deps) && s.events.posted <= end.events.posted
    ensures d.finished == old(d.finished) + Passes.Views(end.events.posted[|s.events.posted|..])
    ensures d.posted == D.Messages(d.finished)
  {
    hide Reachable, Scanning, D.Scan, Passes.PassLasts, Reaches, Passes.InHand;
    Guarantees.EveryPassIsScan(s, turn, acts, end);
    ghost var was := s.deps.list;
    NothingToScan(turn.key);
    SameLength(d, all, s.deps);
    d.Complete(turn.key, all);
    assert |d.items| == |d.views| == |end.deps.list|;
    assert was != [] ==> Passes.Views(was)[|was| - 1] == was[|was| - 1].dep;
  }

  lemma NothingToScan(key: Option<D.Key>)
    ensures D.Scan([], key, 0) == ([], [])
  {}

  lemma SameLength(d: D.Tracker, all: set<D.Entry>, p: Pending)
    requires ShowsDeps(d, all, p)
    ensures |d.items| == |d.views| == |p.list|
  {}

  // The event queue.

  /** The entries on the heap stand for the events, in order. */
  ghost predicate ShowsQueue(items: seq<Q.Entry>, queue: seq<Entry>, what: map<Q.Entry, Entry>) {
    |items| == |queue| && forall i | 0 <= i < |items| :: items[i] in what && what[items[i]] == queue[i]
  }

  /** The push of a finished entry. */
  method PushStep(q: Q.Queue, e: Q.Entry, s: State, t: Tid, wake: Option<Tid>, ghost what: map<Q.Entry, Entry>)
    returns (ghost now: map<Q.Entry, Entry>)
    requires q.Valid() && e.Detached() && ShowsQueue(q.items, s.events.queue, what)
    requires t < |s.pcs| && CanStep(s, t, wake) && s.pcs[t].PushWant?
    modifies q, q.items, e
    ensures q.Valid() && ShowsQueue(q.items, Next(s, t, wake).events.queue, now) && now == what[e := s.pcs[t].entry]
  {
    ghost var was := q.items;
    assert e !in was;
    q.Push(e, false);
    now := what[e := s.pcs[t].entry];
  }

  /** A pop that does not go to sleep returns the event it takes off the heap, or nothing when that is empty. */
  method PopStep(q: Q.Queue, s: State, t: Tid, wake: Option<Tid>, ghost what: map<Q.Entry, Entry>) returns (e: Q.Entry?)
    requires q.Valid() && ShowsQueue(q.items, s.events.queue, what) && Reachable(s)
    requires t < |s.pcs| && CanStep(s, t, wake) && (s.pcs[t].PopWant? || s.pcs[t].Woken?)
    requires !Next(s, t, wake).pcs[t].Asleep?
    modifies q, q.items
    ensures q.Valid() && ShowsQueue(q.items, Next(s, t, wake).events.queue, what)
    ensures e != null ==> e in what
    ensures Next(s, t, wake).pcs[t] == PopOut(if e == null then None else Some(what[e]))
  {
    hide Reachable;
    Histories.PopExact(s, t, wake);
    e := q.Pop();
  }

  // The task ring of the worker pool.

  ghost predicate ShowsRing(items: seq<T.Node>, ring: seq<W.Conn>) {
    |items| == |ring| && forall i | 0 <= i < |items| :: items[i].conn == ring[i]
  }

  /** An acceptor adds the connection it has accepted, and every sleeper is woken. */
  method AddTask(r: T.Ring, me: T.Node, s: W.State, t: W.Tid)
    requires r.Valid() && ShowsRing(r.items, s.ring) && me != r.root && me !in r.items
    requires t < |s.pcs| && W.CanStep(s, t) && s.pcs[t].AddWant? && me.conn == s.pcs[t].conn
    modifies r`items, r.root, r.items, me
    ensures r.Valid() && ShowsRing(r.items, W.Next(s, t).ring)
    ensures forall u | 0 <= u < |s.pcs| :: !W.Next(s, t).pcs[u].Asleep?
  {
    r.Add(me);
  }

  /** A worker with the mutex serves the connection at the front, if there is one and the pool is active. */
  method TakeTask(r: T.Ring, s: W.State, t: W.Tid) returns (me: T.Node?)
    requires r.Valid() && ShowsRing(r.items, s.ring) && s.active
    requires t < |s.pcs| && W.CanStep(s, t) && (s.pcs[t].LockWant? || s.pcs[t].Woken?)
    modifies r`items, r.root, r.items
    ensures r.Valid() && ShowsRing(r.items, W.Next(s, t).ring)
    ensures var p := W.Next(s, t).pcs[t]; if me == null then p.Asleep? else p.Taken? && p.conn == me.conn
  {
    me := r.TakeFirst();
  }
}
