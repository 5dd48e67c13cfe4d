/** The object store, the dependency tracker and the event queue as one concurrent program: any number of
    threads, three mutexes, and one step for each critical section or turn of the completion loop. */
module Protocol {
  import opened Bytes
  import opened Deps

  type Tid = nat

  datatype StoreOp = Add(key: Key) | Get(key: Key) | Remove(key: Key) | Collect

  datatype Call = StoreCall(op: StoreOp) | AddDependency(name: string, keys: seq<Key>, msg: int) | PopCall(wait: bool)

  /** A dependency on its way through the system.  Only `dep` is data of the program; the rest records when it
      was `born`, what each lookup `found` and when it `looks`, how many passes had begun when it was linked, and how
      many entries had been linked before it. */
  datatype Entry = Entry(dep: Dep, born: nat, found: seq<bool>, looks: seq<nat>, linkedAt: nat, order: nat)

  /** Where a thread stands.  `...Want` waits for a mutex, `...Out` is about to release one. */
  datatype Pc =
    | Idle
    | ObjWant(op: StoreOp) | ObjOut
    | LookWant(draft: Entry) | LookOut(draft: Entry)
    | LinkWant(draft: Entry) | LinkOut
    | ScanWant(key: Option<Key>, inner: bool) | ScanAt(key: Option<Key>, inner: bool, at: nat)
    | PushWant(key: Option<Key>, inner: bool, at: nat, entry: Entry) | PushOut(key: Option<Key>, inner: bool, at: nat)
    | PopWant(wait: bool) | Asleep | Woken(timedOut: bool) | PopOut(got: Option<Entry>)

  datatype Change = Added(key: Key) | Removed(key: Key)

  datatype Pass = Pass(key: Option<Key>, time: nat)

  /** The three mutexes, each with its owner. */
  datatype Mutexes = Mutexes(obj: Option<Tid>, dep: Option<Tid>, q: Option<Tid>)

  /** The keys of the live objects, newest first; `hist[h]` is the set of stored keys after `h` changes. */
  datatype Objects = Objects(keys: seq<Key>, hist: seq<set<Key>>, changes: seq<Change>)

  /** The pending list; `tailIn` says that `tail` is its last entry.  Entries hung behind a `tail` that has left the
      list are lost.  `links` counts the entries hung behind `tail` so far, lost or not. */
  datatype Pending = Pending(list: seq<Entry>, tailIn: bool, lost: seq<Entry>, registered: seq<Dep>,
                             passes: seq<Pass>, links: nat)

  datatype Events = Events(queue: seq<Entry>, popped: seq<Entry>, posted: seq<Entry>)

  /** `begun` records the last call of each thread. */
  datatype State = State(pcs: seq<Pc>, locks: Mutexes, objects: Objects, deps: Pending, events: Events, begun: map<Tid, Call>)

  datatype Action = Begin(t: Tid, call: Call) | Step(t: Tid, wake: Option<Tid>) | Wake(t: Tid, timedOut: bool)

  function Init(n: nat): State {
    State(seq(n, _ => Idle), Mutexes(None, None, None), Objects([], [{}], []),
          Pending([], false, [], [], [], 0), Events([], [], []), map[])
  }

  // What a thread does next.

  predicate SomeAsleep(pcs: seq<Pc>) {
    exists i | 0 <= i < |pcs| :: pcs[i].Asleep?
  }

  /** A signal wakes a sleeper whenever there is one. */
  predicate WakesRightly(s: State, wake: Option<Tid>) {
    match wake
    case Some(w) => w < |s.pcs| && s.pcs[w].Asleep?
    case None => !SomeAsleep(s.pcs)
  }

  predicate CanStep(s: State, t: Tid, wake: Option<Tid>)
    requires t < |s.pcs|
  {
    match s.pcs[t]
    case Idle => false
    case Asleep => false
    case ObjWant(_) => s.locks.obj == None
    case LookWant(_) => s.locks.obj == None
    case LinkWant(_) => s.locks.dep == None
    case ScanWant(_, _) => s.locks.dep == None
    case PushWant(_, _, _, _) => s.locks.q == None && WakesRightly(s, wake)
    case PopWant(_) => s.locks.q == None
    case Woken(_) => s.locks.q == None
    case _ => true
  }

  predicate Enabled(s: State, a: Action) {
    a.t < |s.pcs| &&
    match a
    case Begin(t, _) => s.pcs[t].Idle?
    case Step(t, wake) => CanStep(s, t, wake)
    case Wake(t, _) => s.pcs[t].Asleep?
  }

  function Apply(s: State, a: Action): State
    requires Enabled(s, a)
  {
    match a
    case Begin(t, call) =>
      s.(pcs := s.pcs[t := Entered(s, call)], deps := s.deps.(registered := s.deps.registered + Registers(call)),
         begun := s.begun[t := call])
    case Step(t, wake) => Next(s, t, wake)
    case Wake(t, timedOut) => s.(pcs := s.pcs[t := Woken(timedOut)])
  }

  // The entry of each call.

  function Entered(s: State, call: Call): Pc {
    match call
    case StoreCall(op) => ObjWant(op)
    case AddDependency(name, keys, msg) => Onward(Entry(Dep(name, msg, keys, []), Now(s), [], [], 0, 0))
    case PopCall(wait) => PopWant(wait)
  }

  function Registers(call: Call): seq<Dep> {
    match call
    case AddDependency(name, keys, msg) => [Dep(name, msg, keys, [])]
    case _ => []
  }

  function Now(s: State): nat {
    |s.objects.changes|
  }

  /** After a lookup: on to the next key, or to the list once every key has been looked up. */
  function Onward(draft: Entry): Pc {
    if |draft.found| < |draft.dep.keys| then LookWant(draft) else LinkWant(draft)
  }

  // One step of a thread, structure by structure.

  function Next(s: State, t: Tid, wake: Option<Tid>): State
    requires t < |s.pcs| && CanStep(s, t, wake)
  {
    var p := s.pcs[t];
    State(Woke(s, t, wake)[t := PcAfter(s, p)], LocksAfter(s, t), ObjectsAfter(s.objects, p),
          DepsAfter(s.deps, p, Now(s)), EventsAfter(s.events, p), s.begun)
  }

  /** A push signals the condition. */
  function Woke(s: State, t: Tid, wake: Option<Tid>): (r: seq<Pc>)
    requires t < |s.pcs| && CanStep(s, t, wake)
    ensures |r| == |s.pcs|
  {
    if s.pcs[t].PushWant? && wake.Some? then s.pcs[wake.value := Woken(false)] else s.pcs
  }

  function PcAfter(s: State, p: Pc): Pc {
    match p
    case ObjWant(op) => if op.Add? then ScanWant(Some(op.key), true) else ObjOut
    case ObjOut => Idle
    case LookWant(draft) => LookOut(Looked(s, draft))
    case LookOut(draft) => Onward(draft)
    case LinkWant(draft) => LinkOut
    case LinkOut => ScanWant(None, false)
    case ScanWant(key, inner) => ScanAt(key, inner, 0)
    case ScanAt(key, inner, at) =>
      if |s.deps.list| <= at then (if inner then ObjOut else Idle)
      else if Finished(s.deps.list[at], key)
      then PushWant(key, inner, at, Marked(s.deps.list[at], key))
      else ScanAt(key, inner, at + 1)
    case PushWant(key, inner, at, e) => PushOut(key, inner, at)
    case PushOut(key, inner, at) => ScanAt(key, inner, at)
    case PopWant(wait) => if s.events.queue == [] && wait then Asleep else PopOut(First(s.events.queue))
    case Woken(timedOut) => if s.events.queue == [] && !timedOut then Asleep else PopOut(First(s.events.queue))
    case PopOut(_) => Idle
    case _ => p
  }

  /** Waiting on the condition gives the mutex up again at once. */
  function LocksAfter(s: State, t: Tid): Mutexes
    requires t < |s.pcs|
  {
    var m := s.locks;
    match s.pcs[t]
    case ObjWant(_) => m.(obj := Some(t))
    case LookWant(_) => m.(obj := Some(t))
    case ObjOut => m.(obj := None)
    case LookOut(_) => m.(obj := None)
    case LinkWant(_) => m.(dep := Some(t))
    case ScanWant(_, _) => m.(dep := Some(t))
    case LinkOut => m.(dep := None)
    case ScanAt(_, _, at) => if |s.deps.list| <= at then m.(dep := None) else m
    case PushWant(_, _, _, _) => m.(q := Some(t))
    case PopWant(wait) => if s.events.queue == [] && wait then m else m.(q := Some(t))
    case Woken(timedOut) => if s.events.queue == [] && !timedOut then m else m.(q := Some(t))
    case PushOut(_, _, _) => m.(q := None)
    case PopOut(_) => m.(q := None)
    case _ => m
  }

  function Live(keys: seq<Key>): set<Key> {
    set k | k in keys
  }

  function Without(keys: seq<Key>, key: Key): seq<Key> {
    if keys == [] then [] else if keys[0] == key then keys[1..] else [keys[0]] + Without(keys[1..], key)
  }

  function Changed(o: Objects, keys: seq<Key>, c: Change): Objects {
    Objects(keys, o.hist + [Live(keys)], o.changes + [c])
  }

  function ObjectsAfter(o: Objects, p: Pc): Objects {
    match p
    case ObjWant(Add(key)) => Changed(o, [key] + o.keys, Added(key))
    case ObjWant(Remove(key)) => if key in o.keys then Changed(o, Without(o.keys, key), Removed(key)) else o
    case _ => o
  }

  /** One lookup in the store; what it finds becomes the first status of that key. */
  function Looked(s: State, d: Entry): Entry {
    if |d.found| < |d.dep.keys| then
      var yes := d.dep.keys[|d.found|] in s.objects.keys;
      d.(dep := d.dep.(status := d.dep.status + [yes]), found := d.found + [yes], looks := d.looks + [Now(s)])
    else d
  }

  function Marked(e: Entry, key: Option<Key>): Entry {
    if WellSized(e.dep) then e.(dep := Mark(e.dep, key)) else e
  }

  predicate Finished(e: Entry, key: Option<Key>) {
    Satisfied(Marked(e, key).dep)
  }

  function DepsAfter(d: Pending, p: Pc, now: nat): Pending {
    match p
    case LinkWant(draft) => Linked(d, Numbered(d, draft))
    case ScanWant(key, _) => d.(passes := d.passes + [Pass(key, now)])
    case ScanAt(key, _, at) =>
      if |d.list| <= at then d
      else if Finished(d.list[at], key) then
        d.(list := d.list[..at] + d.list[at + 1..], tailIn := d.tailIn && at + 1 < |d.list|)
      else d.(list := d.list[at := Marked(d.list[at], key)])
    case _ => d
  }

  /** A new entry is hung behind `tail`, and is on the list only if that is empty or `tail` is its last entry. */
  function Linked(d: Pending, e: Entry): Pending {
    if d.list == [] || d.tailIn then d.(list := d.list + [e], tailIn := true, links := d.links + 1)
    else d.(lost := d.lost + [e], links := d.links + 1)
  }

  function Numbered(d: Pending, draft: Entry): Entry {
    draft.(linkedAt := |d.passes|, order := d.links)
  }

  function EventsAfter(v: Events, p: Pc): Events {
    match p
    case PushWant(_, _, _, e) => v.(queue := v.queue + [e], posted := v.posted + [e])
    case PopWant(_) => Popped(v)
    case Woken(_) => Popped(v)
    case _ => v
  }

  function First(queue: seq<Entry>): Option<Entry> {
    if queue == [] then None else Some(queue[0])
  }

  function Popped(v: Events): Events {
    if v.queue == [] then v else v.(queue := v.queue[1..], popped := v.popped + [v.queue[0]])
  }

  // Runs.

  predicate Reaches(s: State, acts: seq<Action>, end: State)
    decreases |acts|
  {
    if acts == [] then s == end
    else Enabled(s, acts[0]) && Reaches(Apply(s, acts[0]), acts[1..], end)
  }

  ghost predicate Reachable(s: State) {
    exists n: nat, acts :: Reaches(Init(n), acts, s)
  }

  lemma {:induction false} ReachesFurther(s: State, acts: seq<Action>, mid: State, a: Action)
    requires Reaches(s, acts, mid) && Enabled(mid, a)
    ensures Reaches(s, acts + [a], Apply(mid, a))
    decreases |acts|
  {
    if acts == [] {
      assert Reaches(Apply(mid, a), [], Apply(mid, a));
      assert ([a])[1..] == [];
    } else {
      ReachesFurther(Apply(s, acts[0]), acts[1..], mid, a);
      assert (acts + [a])[1..] == acts[1..] + [a];
    }
  }

  lemma StepReachable(s: State, a: Action)
    requires Reachable(s) && Enabled(s, a)
    ensures Reachable(Apply(s, a))
  {
    var n: nat, acts :| Reaches(Init(n), acts, s);
    ReachesFurther(Init(n), acts, s, a);
  }
}
