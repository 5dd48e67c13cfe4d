/** The worker pool: any number of acceptors and workers around one task queue, a mutex and a condition. */
module WorkerPool {
  import opened Bytes
  import opened Counting

  type Tid = nat
  type Conn = nat   // each accepted connection has a number of its own

  /** `Check` and `AcceptCheck` test the `active` flag without the mutex; `Taken`, `Quit` and `AddOut` hold the mutex
      and are about to release it. */
  datatype Pc =
    | Check | LockWant | Asleep | Woken | Taken(conn: Conn) | Serving(conn: Conn) | Quit | Done
    | AcceptCheck | Accepting | AddWant(conn: Conn) | AddOut | Stopped

  datatype State = State(pcs: seq<Pc>, mutex: Option<Tid>, active: bool, ring: seq<Conn>,
                         arrived: nat, queued: seq<Conn>, taken: seq<Conn>, finished: seq<Conn>)

  /** `Accept` and `AcceptFails` are the two ways `accept` returns; `Wake` is a spurious wake-up. */
  datatype Action = Step(t: Tid) | Accept(t: Tid) | AcceptFails(t: Tid) | Wake(t: Tid) | Shutdown

  predicate IsWorker(p: Pc) {
    p.Check? || p.LockWant? || p.Asleep? || p.Woken? || p.Taken? || p.Serving? || p.Quit? || p.Done?
  }

  /** Workers and acceptors at their start. */
  predicate Starting(s: State) {
    && (forall t | 0 <= t < |s.pcs| :: s.pcs[t].Check? || s.pcs[t].AcceptCheck?)
    && s == State(s.pcs, None, true, [], 0, [], [], [])
  }

  predicate CanStep(s: State, t: Tid)
    requires t < |s.pcs|
  {
    match s.pcs[t]
    case LockWant => s.mutex == None
    case Woken => s.mutex == None
    case AddWant(_) => s.mutex == None
    case Asleep => false
    case Accepting => false
    case Done => false
    case Stopped => false
    case _ => true
  }

  predicate Enabled(s: State, a: Action) {
    match a
    case Step(t) => t < |s.pcs| && CanStep(s, t)
    case Accept(t) => t < |s.pcs| && s.pcs[t].Accepting?
    case AcceptFails(t) => t < |s.pcs| && s.pcs[t].Accepting?
    case Wake(t) => t < |s.pcs| && s.pcs[t].Asleep?
    case Shutdown => true
  }

  function Apply(s: State, a: Action): State
    requires Enabled(s, a)
  {
    match a
    case Step(t) => Next(s, t)
    case Accept(t) => s.(pcs := s.pcs[t := AddWant(s.arrived)], arrived := s.arrived + 1)
    case AcceptFails(t) => s.(pcs := s.pcs[t := AcceptCheck])
    case Wake(t) => s.(pcs := s.pcs[t := Woken])
    case Shutdown => s.(active := false)
  }

  /** A broadcast wakes every sleeper. */
  function WakeAll(pcs: seq<Pc>): (r: seq<Pc>)
    ensures |r| == |pcs| && forall i | 0 <= i < |r| :: r[i] == if pcs[i].Asleep? then Woken else pcs[i]
  {
    if pcs == [] then [] else [if pcs[0].Asleep? then Woken else pcs[0]] + WakeAll(pcs[1..])
  }

  function PcAfter(s: State, p: Pc): Pc {
    match p
    case Check => if s.active then LockWant else Done
    case LockWant => Locked(s)
    case Woken => Locked(s)
    case Taken(c) => Serving(c)
    case Serving(_) => Check
    case Quit => Done
    case AcceptCheck => if s.active then Accepting else Stopped
    case AddWant(_) => AddOut
    case AddOut => AcceptCheck
    case _ => p
  }

  /** With the mutex: sleep while active and without work, quit when not active, else take the first task. */
  function Locked(s: State): Pc {
    if !s.active then Quit else if s.ring == [] then Asleep else Taken(s.ring[0])
  }

  predicate Holds(p: Pc) {
    p.Taken? || p.Quit? || p.AddOut?
  }

  function MutexAfter(s: State, t: Tid): Option<Tid>
    requires t < |s.pcs|
  {
    match s.pcs[t]
    case LockWant => if s.active && s.ring == [] then None else Some(t)
    case Woken => if s.active && s.ring == [] then None else Some(t)
    case AddWant(_) => Some(t)
    case Taken(_) => None
    case Quit => None
    case AddOut => None
    case _ => s.mutex
  }

  predicate Takes(s: State, p: Pc) {
    (p.LockWant? || p.Woken?) && s.active && s.ring != []
  }

  function Next(s: State, t: Tid): State
    requires t < |s.pcs| && CanStep(s, t)
  {
    var p := s.pcs[t];
    var pcs := (if p.AddWant? then WakeAll(s.pcs) else s.pcs)[t := PcAfter(s, p)];
    var r := s.(pcs := pcs, mutex := MutexAfter(s, t));
    if p.AddWant? then r.(ring := s.ring + [p.conn], queued := s.queued + [p.conn])
    else if Takes(s, p) then r.(ring := s.ring[1..], taken := s.taken + [s.ring[0]])
    else if p.Serving? then r.(finished := s.finished + [p.conn])
    else r
  }

  // The invariant.

  predicate SomeAsleep(pcs: seq<Pc>) {
    exists t | 0 <= t < |pcs| :: pcs[t].Asleep?
  }

  /** The mutex is owned by exactly the thread inside a critical section. */
  predicate Exclusive(s: State) {
    && (s.mutex.Some? ==> s.mutex.value < |s.pcs|)
    && forall t | 0 <= t < |s.pcs| :: s.mutex == Some(t) <==> Holds(s.pcs[t])
  }

  /** Nobody sleeps while there is work. */
  predicate NobodySleeps(s: State) {
    SomeAsleep(s.pcs) ==> s.ring == []
  }

  /** Only a shutdown makes a thread leave. */
  predicate NobodyLeft(s: State) {
    s.active ==> forall t | 0 <= t < |s.pcs| :: !s.pcs[t].Quit? && !s.pcs[t].Done? && !s.pcs[t].Stopped?
  }

  function Equals(x: Conn): Conn -> nat {
    (c: Conn) => if c == x then 1 else 0
  }

  function Has(x: Conn): Pc -> nat {
    (p: Pc) => if (p.AddWant? || p.Taken? || p.Serving?) && p.conn == x then 1 else 0
  }

  /** How often a connection is on its way to the queue, queued, held by a worker, or finished. */
  function Whereabouts(s: State, x: Conn): nat {
    Sum(s.pcs, Has(x)) + Sum(s.ring, Equals(x)) + Sum(s.finished, Equals(x))
  }

  ghost predicate Conserved(s: State) {
    forall x: Conn :: Whereabouts(s, x) == if x < s.arrived then 1 else 0
  }

  ghost predicate Inv(s: State) {
    Exclusive(s) && NobodySleeps(s) && NobodyLeft(s) && Conserved(s) && s.queued == s.taken + s.ring
  }

  lemma StartsInv(s: State)
    requires Starting(s)
    ensures Inv(s)
  {
    forall x: Conn ensures Whereabouts(s, x) == 0 { SumZero(s.pcs, Has(x)); }
  }

  lemma {:induction false} WakeAllHas(pcs: seq<Pc>, x: Conn)
    ensures Sum(WakeAll(pcs), Has(x)) == Sum(pcs, Has(x))
  {
    if pcs != [] {
      WakeAllHas(pcs[1..], x);
      assert WakeAll(pcs)[1..] == WakeAll(pcs[1..]);
    }
  }

  lemma ConnStep(s: State, t: Tid, x: Conn)
    requires t < |s.pcs| && CanStep(s, t)
    ensures Whereabouts(Next(s, t), x) == Whereabouts(s, x)
  {
    var p := s.pcs[t];
    WakeAllHas(s.pcs, x);
    SumUpdate(if p.AddWant? then WakeAll(s.pcs) else s.pcs, t, PcAfter(s, p), Has(x));
    QueueStep(s, t, x);
    hide Sum;
  }

  lemma QueueStep(s: State, t: Tid, x: Conn)
    requires t < |s.pcs| && CanStep(s, t)
    ensures var p, r := s.pcs[t], Next(s, t);
            Has(x)(PcAfter(s, p)) + Sum(r.ring, Equals(x)) + Sum(r.finished, Equals(x)) ==
            Has(x)(p) + Sum(s.ring, Equals(x)) + Sum(s.finished, Equals(x))
  {
    var p := s.pcs[t];
    if p.AddWant? { SumSnoc(s.ring, p.conn, Equals(x)); }
    if p.Serving? { SumSnoc(s.finished, p.conn, Equals(x)); }
  }

  lemma StepInv(s: State, t: Tid)
    requires Inv(s) && t < |s.pcs| && CanStep(s, t)
    ensures Inv(Next(s, t))
  {
    forall x: Conn ensures Whereabouts(Next(s, t), x) == if x < s.arrived then 1 else 0 { ConnStep(s, t, x); }
    StepSleeps(s, t);
    StepExclusive(s, t);
    StepOrder(s, t);
    hide Whereabouts, NobodySleeps, Exclusive, NobodyLeft;
  }

  lemma StepExclusive(s: State, t: Tid)
    requires Exclusive(s) && t < |s.pcs| && CanStep(s, t)
    ensures Exclusive(Next(s, t))
  {}

  lemma StepOrder(s: State, t: Tid)
    requires NobodyLeft(s) && s.queued == s.taken + s.ring && t < |s.pcs| && CanStep(s, t)
    ensures var r := Next(s, t); NobodyLeft(r) && r.queued == r.taken + r.ring
  {
    if s.ring != [] { assert s.ring == [s.ring[0]] + s.ring[1..]; }
  }

  lemma StepSleeps(s: State, t: Tid)
    requires NobodySleeps(s) && t < |s.pcs| && CanStep(s, t)
    ensures NobodySleeps(Next(s, t))
  {
    var r := Next(s, t);
    if SomeAsleep(r.pcs) {
      var u :| 0 <= u < |r.pcs| && r.pcs[u].Asleep?;
      assert u != t ==> s.pcs[u].Asleep?;
    }
  }

  /** A thread that neither holds nor takes the mutex changes its place. */
  lemma Replaced(s: State, t: Tid, p: Pc, arrived: nat)
    requires Inv(s) && t < |s.pcs| && (s.pcs[t].Accepting? || s.pcs[t].Asleep?)
    requires if p.AddWant? then p.conn == s.arrived && arrived == s.arrived + 1
             else (p.Woken? || p.AcceptCheck?) && arrived == s.arrived
    ensures Inv(s.(pcs := s.pcs[t := p], arrived := arrived))
  {
    var r := s.(pcs := s.pcs[t := p], arrived := arrived);
    forall x: Conn ensures Whereabouts(r, x) == if x < r.arrived then 1 else 0 {
      SumUpdate(s.pcs, t, p, Has(x));
      assert Whereabouts(s, x) == if x < s.arrived then 1 else 0;
    }
    if SomeAsleep(r.pcs) {
      var u :| 0 <= u < |r.pcs| && r.pcs[u].Asleep?;
      assert s.pcs[u].Asleep?;
    }
  }

  lemma ActionInv(s: State, a: Action)
    requires Inv(s) && Enabled(s, a)
    ensures Inv(Apply(s, a))
  {
    match a
    case Step(t) => StepInv(s, t);
    case Accept(t) => Replaced(s, t, AddWant(s.arrived), s.arrived + 1);
    case AcceptFails(t) => Replaced(s, t, AcceptCheck, s.arrived);
    case Wake(t) => Replaced(s, t, Woken, s.arrived);
    case Shutdown => assert forall x: Conn :: Whereabouts(Apply(s, a), x) == Whereabouts(s, x);
  }

  predicate Reaches(s: State, acts: seq<Action>, end: State)
    decreases |acts|
  {
    if acts == [] then s == end
    else Enabled(s, acts[0]) && Reaches(Apply(s, acts[0]), acts[1..], end)
  }

  lemma {:induction false} RunInv(s: State, acts: seq<Action>, end: State)
    requires Inv(s) && Reaches(s, acts, end)
    ensures Inv(end)
    decreases |acts|
  {
    if acts != [] {
      ActionInv(s, acts[0]);
      RunInv(Apply(s, acts[0]), acts[1..], end);
    }
  }

  ghost predicate Reachable(s: State) {
    exists start, acts :: Starting(start) && Reaches(start, acts, s)
  }

  lemma Always(s: State)
    requires Reachable(s)
    ensures Inv(s)
  {
    var start, acts :| Starting(start) && Reaches(start, acts, s);
    StartsInv(start);
    RunInv(start, acts, s);
  }

  // What every run guarantees.

  /** Each accepted connection is on its way to the queue, queued, held by one worker, or finished; none is served
      twice; and connections are taken in the order they were queued. */
  lemma ServedOnceInOrder(s: State, x: Conn)
    requires Reachable(s)
    ensures Sum(s.pcs, Has(x)) + Sum(s.ring, Equals(x)) + Sum(s.finished, Equals(x)) == if x < s.arrived then 1 else 0
    ensures s.taken + s.ring == s.queued
  {
    Always(s);
    assert Whereabouts(s, x) == if x < s.arrived then 1 else 0;
  }

  /** While there is work no worker sleeps, and two threads are never in the critical section together. */
  lemma NoSleepOverWork(s: State, t: Tid, u: Tid)
    requires Reachable(s) && t < |s.pcs| && u < |s.pcs|
    ensures s.ring != [] ==> !s.pcs[t].Asleep?
    ensures Holds(s.pcs[t]) && Holds(s.pcs[u]) ==> t == u
  {
    Always(s);
  }

  function Adds(p: Pc): nat {
    if p.AddWant? then 1 else 0
  }

  function Held(p: Pc): nat {
    if p.Taken? || p.Serving? then 1 else 0
  }

  function Phase(p: Pc): nat {
    match p
    case Check => 3
    case LockWant => 2
    case Woken => 2
    case Taken(_) => 1
    case Quit => 1
    case AddOut => 2
    case AcceptCheck => 1
    case _ => 0
  }

  function Work(s: State): nat {
    |s.ring| + Sum(s.pcs, Held)
  }

  predicate Nearer(r: State, s: State) {
    || Sum(r.pcs, Adds) < Sum(s.pcs, Adds)
    || (Sum(r.pcs, Adds) == Sum(s.pcs, Adds) && Work(r) < Work(s))
    || (Sum(r.pcs, Adds) == Sum(s.pcs, Adds) && Work(r) == Work(s) && Sum(r.pcs, Phase) < Sum(s.pcs, Phase))
  }

  lemma {:induction false} WakeAllAdds(pcs: seq<Pc>)
    ensures Sum(WakeAll(pcs), Adds) == Sum(pcs, Adds)
  {
    if pcs != [] {
      WakeAllAdds(pcs[1..]);
      assert WakeAll(pcs)[1..] == WakeAll(pcs[1..]);
    }
  }

  /** Every step brings the pool nearer to rest. */
  lemma StepDescends(s: State, t: Tid)
    requires t < |s.pcs| && CanStep(s, t)
    ensures Nearer(Next(s, t), s)
  {
    var p := s.pcs[t];
    if p.AddWant? {
      WakeAllAdds(s.pcs);
      SumUpdate(WakeAll(s.pcs), t, PcAfter(s, p), Adds);
    } else {
      SumUpdate(s.pcs, t, PcAfter(s, p), Adds);
      SumUpdate(s.pcs, t, PcAfter(s, p), Held);
      SumUpdate(s.pcs, t, PcAfter(s, p), Phase);
    }
  }

  predicate Resting(s: State) {
    forall t | 0 <= t < |s.pcs| :: !CanStep(s, t)
  }

  predicate OnlySteps(acts: seq<Action>) {
    forall i | 0 <= i < |acts| :: acts[i].Step?
  }

  predicate SameRoles(s: State, r: State) {
    |s.pcs| == |r.pcs| && forall t | 0 <= t < |s.pcs| :: IsWorker(s.pcs[t]) <==> IsWorker(r.pcs[t])
  }

  lemma StepKeeps(s: State, t: Tid)
    requires t < |s.pcs| && CanStep(s, t)
    ensures var r := Next(s, t); SameRoles(s, r) && r.active == s.active && r.arrived == s.arrived
  {}

  lemma {:induction false} Settles(s: State) returns (acts: seq<Action>, end: State)
    requires Inv(s)
    ensures OnlySteps(acts) && Reaches(s, acts, end) && Inv(end) && Resting(end)
    ensures SameRoles(s, end) && end.active == s.active && end.arrived == s.arrived
    decreases Sum(s.pcs, Adds), Work(s), Sum(s.pcs, Phase)
  {
    hide Next, Inv, Work, Sum, CanStep, IsWorker;
    if Resting(s) {
      return [], s;
    }
    var t :| 0 <= t < |s.pcs| && CanStep(s, t);
    StepDescends(s, t);
    StepInv(s, t);
    StepKeeps(s, t);
    var rest;
    rest, end := Settles(Next(s, t));
    acts := [Step(t)] + rest;
    assert acts[1..] == rest;
  }

  lemma {:induction false} RunKeeps(s: State, acts: seq<Action>, end: State)
    requires OnlySteps(acts) && Reaches(s, acts, end)
    ensures SameRoles(s, end) && end.active == s.active && end.arrived == s.arrived
    decreases |acts|
  {
    if acts != [] {
      StepKeeps(s, acts[0].t);
      RunKeeps(Apply(s, acts[0]), acts[1..], end);
    }
  }

  /** At rest nobody is in a critical section, on the way to one, or serving. */
  lemma RestingPcs(s: State)
    requires Inv(s) && Resting(s)
    ensures s.mutex == None
    ensures forall t | 0 <= t < |s.pcs| ::
              s.pcs[t].Asleep? || s.pcs[t].Done? || s.pcs[t].Accepting? || s.pcs[t].Stopped?
  {
    if s.mutex.Some? { assert CanStep(s, s.mutex.value); }
    forall t | 0 <= t < |s.pcs|
      ensures s.pcs[t].Asleep? || s.pcs[t].Done? || s.pcs[t].Accepting? || s.pcs[t].Stopped?
    {
      assert !CanStep(s, t);
    }
  }

  /** An active pool with a worker is at rest only when every accepted connection has been served, once. */
  lemma RestMeansServed(s: State, w: Tid, x: Conn)
    requires Inv(s) && s.active && Resting(s) && w < |s.pcs| && IsWorker(s.pcs[w]) && x < s.arrived
    ensures Sum(s.finished, Equals(x)) == 1
  {
    RestingPcs(s);
    assert s.pcs[w].Asleep?;
    SumZero(s.pcs, Has(x));
    assert Whereabouts(s, x) == 1;
  }

  /** As long as the pool is active and has a worker, every accepted connection gets served: each step descends, a run
      of steps can always be brought to rest, and whichever run gets there has finished all of them, once each. */
  lemma EverythingServed(s: State, w: Tid) returns (acts: seq<Action>, end: State)
    requires Reachable(s) && s.active && w < |s.pcs| && IsWorker(s.pcs[w])
    ensures forall t | 0 <= t < |s.pcs| && CanStep(s, t) :: Nearer(Next(s, t), s)
    ensures OnlySteps(acts) && Reaches(s, acts, end) && Resting(end)
    ensures forall run, r | OnlySteps(run) && Reaches(s, run, r) && Resting(r) ::
              r.arrived == s.arrived && forall x: Conn | x < s.arrived :: Sum(r.finished, Equals(x)) == 1
  {
    Always(s);
    forall t | 0 <= t < |s.pcs| && CanStep(s, t) ensures Nearer(Next(s, t), s) { StepDescends(s, t); }
    acts, end := Settles(s);
    forall run, r | OnlySteps(run) && Reaches(s, run, r) && Resting(r)
      ensures r.arrived == s.arrived && forall x: Conn | x < s.arrived :: Sum(r.finished, Equals(x)) == 1
    {
      RunInv(s, run, r);
      RunKeeps(s, run, r);
      forall x: Conn | x < s.arrived ensures Sum(r.finished, Equals(x)) == 1 { RestMeansServed(r, w, x); }
    }
  }

  // Shutdown.

  /** After a shutdown nothing more is taken from the queue, whatever happens. */
  lemma {:induction false} ShutdownTakesNothing(s: State, acts: seq<Action>, end: State)
    requires !s.active && Reaches(s, acts, end)
    ensures !end.active && end.taken == s.taken && s.ring <= end.ring
    decreases |acts|
  {
    if acts != [] { ShutdownTakesNothing(Apply(s, acts[0]), acts[1..], end); }
  }

  /** How often a thread still acts, or is acted on, once the pool is not active. */
  function Left(p: Pc): nat {
    match p
    case Check => 1
    case LockWant => 2
    case Asleep => 3
    case Woken => 2
    case Taken(_) => 3
    case Serving(_) => 2
    case Quit => 1
    case Done => 0
    case AcceptCheck => 1
    case Accepting => 4
    case AddWant(_) => 3
    case AddOut => 2
    case Stopped => 0
  }

  function ActsOf(acts: seq<Action>, t: Tid): nat {
    if acts == [] then 0 else
      (if acts[0].Step? || acts[0].Accept? || acts[0].AcceptFails? then if acts[0].t == t then 1 else 0 else 0)
      + ActsOf(acts[1..], t)
  }

  function Accepts(acts: seq<Action>, t: Tid): nat {
    if acts == [] then 0 else (if acts[0] == Accept(t) then 1 else 0) + Accepts(acts[1..], t)
  }

  /** After a shutdown every thread soon stops: a worker finishes the connection it serves and leaves, an acceptor that
      is waiting takes at most one more, and in every run neither acts more often than that takes. */
  lemma {:induction false} ShutdownStopsSoon(s: State, acts: seq<Action>, end: State, t: Tid)
    requires !s.active && Reaches(s, acts, end) && t < |s.pcs|
    ensures t < |end.pcs| && ActsOf(acts, t) <= Left(s.pcs[t])
    ensures Accepts(acts, t) <= if s.pcs[t].Accepting? then 1 else 0
    decreases |acts|
  {
    if acts != [] {
      ActionLeaves(s, acts[0], t);
      ShutdownStopsSoon(Apply(s, acts[0]), acts[1..], end, t);
    }
  }

  lemma ActionLeaves(s: State, a: Action, t: Tid)
    requires !s.active && Enabled(s, a) && t < |s.pcs|
    ensures var r := Apply(s, a);
            && !r.active && |r.pcs| == |s.pcs|
            && Left(r.pcs[t]) + (if (a.Step? || a.Accept? || a.AcceptFails?) && a.t == t then 1 else 0) <= Left(s.pcs[t])
            && (r.pcs[t].Accepting? ==> s.pcs[t].Accepting? && a != Accept(t))
            && (a == Accept(t) ==> s.pcs[t].Accepting?)
  {}

  predicate AcceptorsGone(s: State) {
    forall t | 0 <= t < |s.pcs| :: IsWorker(s.pcs[t]) || s.pcs[t].Stopped?
  }

  /** A shutdown does not wake the sleepers: once the acceptors have stopped, no step ever does. */
  lemma {:induction false} SleepersStay(s: State, acts: seq<Action>, end: State, t: Tid)
    requires !s.active && AcceptorsGone(s) && OnlySteps(acts) && Reaches(s, acts, end)
    requires t < |s.pcs| && s.pcs[t].Asleep?
    ensures t < |end.pcs| && end.pcs[t].Asleep?
    decreases |acts|
  {
    if acts != [] {
      var r := Apply(s, acts[0]);
      assert AcceptorsGone(r) && r.pcs[t].Asleep?;
      SleepersStay(r, acts[1..], end, t);
    }
  }

  /** Without a sleeper at the shutdown there is none later. */
  lemma {:induction false} NoneFallsAsleep(s: State, acts: seq<Action>, end: State)
    requires !s.active && AcceptorsGone(s) && OnlySteps(acts) && Reaches(s, acts, end) && !SomeAsleep(s.pcs)
    ensures !SomeAsleep(end.pcs) && AcceptorsGone(end)
    decreases |acts|
  {
    if acts != [] {
      var r := Apply(s, acts[0]);
      assert AcceptorsGone(r) && !SomeAsleep(r.pcs);
      NoneFallsAsleep(r, acts[1..], end);
    }
  }

  predicate WorkersDone(s: State) {
    forall t | 0 <= t < |s.pcs| && IsWorker(s.pcs[t]) :: s.pcs[t].Done?
  }

  /** A shutdown ends every worker exactly if none was asleep when the last acceptor had stopped: each run of steps
      that comes to rest ends with all workers done, or none of them does. */
  lemma ShutdownEndsAllExactly(s: State, acts: seq<Action>, end: State)
    requires Reachable(s) && !s.active && AcceptorsGone(s)
    requires OnlySteps(acts) && Reaches(s, acts, end) && Resting(end)
    ensures WorkersDone(end) <==> !SomeAsleep(s.pcs)
  {
    Always(s);
    RunInv(s, acts, end);
    RunKeeps(s, acts, end);
    RestingPcs(end);
    if SomeAsleep(s.pcs) {
      var t :| 0 <= t < |s.pcs| && s.pcs[t].Asleep?;
      SleepersStay(s, acts, end, t);
    } else {
      NoneFallsAsleep(s, acts, end);
    }
  }

  lemma {:induction false} ReachesFurther(s: State, acts: seq<Action>, mid: State, a: Action)
    requires Reaches(s, acts, mid) && Enabled(mid, a)
    ensures Reaches(s, acts + [a], Apply(mid, a))
    decreases |acts|
  {
    if acts == [] {
      assert Reaches(Apply(mid, a), [], Apply(mid, a));
      assert ([a])[1..] == [];
    } else {
      ReachesFurther(Apply(s, acts[0]), acts[1..], mid, a);
      assert (acts + [a])[1..] == acts[1..] + [a];
    }
  }

  lemma Take(s: State, a: Action) returns (r: State)
    requires Reachable(s) && Enabled(s, a)
    ensures r == Apply(s, a) && Reachable(r)
  {
    var start, acts :| Starting(start) && Reaches(start, acts, s);
    ReachesFurther(start, acts, s, a);
    r := Apply(s, a);
  }

  lemma FindsNoWork() returns (s: State)
    ensures Reachable(s) && s == State([Asleep, AcceptCheck], None, true, [], 0, [], [], [])
  {
    s := State([Check, AcceptCheck], None, true, [], 0, [], [], []);
    assert Reaches(s, [], s);
    s := Take(s, Step(0));
    s := Take(s, Step(0));
    assert s.pcs == [Asleep, AcceptCheck];
  }

  lemma AcceptorStops(s: State) returns (r: State)
    requires Reachable(s) && s == State([Asleep, AcceptCheck], None, true, [], 0, [], [], [])
    ensures Reachable(r) && r == State([Asleep, Stopped], None, false, [], 0, [], [], [])
  {
    r := Take(s, Step(1));
    r := Take(r, Shutdown);
    r := Take(r, AcceptFails(1));
    r := Take(r, Step(1));
    assert r.pcs == [Asleep, Stopped];
  }

  /** It happens: a worker that found no work sleeps on after the shutdown, for good. */
  lemma LeftAsleep() returns (s: State)
    ensures Reachable(s) && !s.active && AcceptorsGone(s) && Resting(s)
    ensures |s.pcs| == 2 && s.pcs[0].Asleep? && !WorkersDone(s)
  {
    s := FindsNoWork();
    s := AcceptorStops(s);
  }
}
