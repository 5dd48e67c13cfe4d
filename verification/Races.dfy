/** Two runs that show where the tracker's guarantees end. */
module Races {
  import opened Bytes
  import opened Protocol
  import opened Locks
  import opened Dependencies
  import opened Guarantees
  import D = Deps

  const K: D.Key := "k"

  function Waiting(found: seq<bool>, looks: seq<nat>): Entry {
    Entry(D.Dep("d", 7, [K], found), 0, found, looks, 0, 0)
  }

  lemma Take(s: State, a: Action) returns (r: State)
    requires Reachable(s) && Enabled(s, a)
    ensures r == Apply(s, a) && Reachable(r)
  {
    StepReachable(s, a);
    r := Apply(s, a);
  }

  lemma Start(n: nat) returns (s: State)
    ensures s == Init(n) && Reachable(s)
  {
    s := Init(n);
    assert Reaches(Init(n), [], s);
  }

  /** Thread 0 looks its key up in the empty store and does not find it. */
  lemma LooksTooEarly(n: nat) returns (s: State)
    requires n > 0
    ensures Reachable(s) && AllFree(s) && |s.pcs| == n && forall t | 0 < t < n :: s.pcs[t] == Idle
    ensures s.pcs[0] == LinkWant(Waiting([false], [0])) && s.objects == Objects([], [{}], [])
    ensures s.deps.list == s.deps.lost == [] && s.events == Events([], [], [])
  {
    s := Start(n);
    s := Take(s, Begin(0, AddDependency("d", [K], 7)));
    assert s.pcs[0] == LookWant(Waiting([], []));
    s := Take(s, Step(0, None));
    assert [] + [false] == [false] && [] + [0 as nat] == [0];
    assert s.pcs[0] == LookOut(Waiting([false], [0]));
    s := Take(s, Step(0, None));
  }

  predicate AllFree(s: State) {
    s.locks == Mutexes(None, None, None)
  }

  lemma PassesNothing(s: State, t: Tid) returns (r: State)
    requires Reachable(s) && t < |s.pcs| && s.pcs[t].ScanWant? && s.locks.dep == None && s.deps.list == []
    ensures Reachable(r) && r.objects == s.objects && r.locks == s.locks && r.events == s.events
    ensures r.pcs == s.pcs[t := if s.pcs[t].inner then ObjOut else Idle]
    ensures r.deps == s.deps.(passes := s.deps.passes + [Pass(s.pcs[t].key, Now(s))])
  {
    r := Take(s, Step(t, None));
    r := Take(r, Step(t, None));
  }

  /** A thread adds an object while no dependency is pending and nobody else moves. */
  lemma AddsAlone(s: State, t: Tid, key: D.Key) returns (r: State)
    requires Reachable(s) && t < |s.pcs| && s.pcs[t].Idle? && AllFree(s) && s.deps.list == []
    ensures Reachable(r) && r.pcs == s.pcs && r.locks == s.locks && r.events == s.events
    ensures r.objects == Changed(s.objects, [key] + s.objects.keys, Added(key))
    ensures r.deps == s.deps.(passes := s.deps.passes + [Pass(Some(key), |r.objects.changes|)])
  {
    r := Take(s, Begin(t, StoreCall(Add(key))));
    r := AddsOn(r, t);
  }

  lemma AddsOn(s: State, t: Tid) returns (r: State)
    requires Reachable(s) && t < |s.pcs| && s.pcs[t].ObjWant? && s.pcs[t].op.Add? && AllFree(s) && s.deps.list == []
    ensures Reachable(r) && r.pcs == s.pcs[t := Idle] && r.locks == s.locks && r.events == s.events
    ensures var key := s.pcs[t].op.key;
            && r.objects == Changed(s.objects, [key] + s.objects.keys, Added(key))
            && r.deps == s.deps.(passes := s.deps.passes + [Pass(Some(key), |r.objects.changes|)])
  {
    r := Take(s, Step(t, None));
    r := PassesNothing(r, t);
    r := Take(r, Step(t, None));
  }

  lemma PassesOne(s: State, t: Tid) returns (r: State)
    requires Reachable(s) && t < |s.pcs| && s.pcs[t] == ScanWant(None, false) && s.locks.dep == None
    requires |s.deps.list| == 1 && D.WellSized(s.deps.list[0].dep) && !D.Satisfied(s.deps.list[0].dep)
    ensures Reachable(r) && r.objects == s.objects && r.locks == s.locks && r.events == s.events
    ensures r.pcs == s.pcs[t := Idle] && r.deps == s.deps.(passes := s.deps.passes + [Pass(None, Now(s))])
  {
    r := Take(s, Step(t, None));
    r := Keeps(r, t);
    r := Take(r, Step(t, None));
  }

  lemma Keeps(s: State, t: Tid) returns (r: State)
    requires Reachable(s) && t < |s.pcs| && s.pcs[t] == ScanAt(None, false, 0)
    requires s.deps.list != [] && D.WellSized(s.deps.list[0].dep) && !D.Satisfied(s.deps.list[0].dep)
    ensures Reachable(r) && r == s.(pcs := s.pcs[t := ScanAt(None, false, 1)])
  {
    var e := s.deps.list[0];
    assert Marked(e, None).dep.status == e.dep.status;
    assert s.deps.list[0 := e] == s.deps.list;
    r := Take(s, Step(t, None));
  }

  /** A thread links an unsatisfied entry as the only one and runs its own pass. */
  lemma LinksAlone(s: State, t: Tid) returns (r: State)
    requires Reachable(s) && t < |s.pcs| && s.pcs[t].LinkWant? && AllFree(s) && s.deps.list == []
    requires var d := s.pcs[t].draft.dep; D.WellSized(d) && !D.Satisfied(d)
    ensures Reachable(r) && r.pcs == s.pcs[t := Idle] && r.locks == s.locks && r.events == s.events
    ensures r.objects == s.objects && r.deps.list == [Numbered(s.deps, s.pcs[t].draft)]
    ensures r.deps.tailIn && r.deps.lost == s.deps.lost
  {
    r := Take(s, Step(t, None));
    r := Take(r, Step(t, None));
    r := PassesOne(r, t);
  }

  /** An object is added between the lookup and the linking: the entry stays pending though its only key is stored,
      everything is at rest, and nothing will look at the entry again until the next call. */
  lemma StrandedByTheWindow() returns (s: State)
    ensures Reachable(s) && Quiet(s) && |s.deps.list| == 1
    ensures var e := s.deps.list[0];
            |e.dep.keys| == |e.dep.status| == 1 && e.dep.keys[0] in s.objects.keys && !e.dep.status[0]
  {
    s := LooksTooEarly(2);
    assert !s.pcs[0].draft.dep.status[0];
    s := AddsAlone(s, 1, K);
    s := LinksAlone(s, 0);
  }

  /** A dependency without keys goes straight to the list. */
  lemma LinksEmpty(s: State, t: Tid, name: string, msg: int) returns (r: State)
    requires Reachable(s) && t < |s.pcs| && s.pcs[t].Idle? && AllFree(s) && s.deps.list != []
    ensures Reachable(r) && r.pcs == s.pcs[t := ScanWant(None, false)] && AllFree(r) && r.deps.tailIn == s.deps.tailIn
    ensures var e := Entry(D.Dep(name, msg, [], []), Now(s), [], [], |s.deps.passes|, s.deps.links);
            && r.deps.list == s.deps.list + (if s.deps.tailIn then [e] else [])
            && r.deps.lost == s.deps.lost + (if s.deps.tailIn then [] else [e])
  {
    r := Take(s, Begin(t, AddDependency(name, [], msg)));
    r := Take(r, Step(t, None));
    r := Take(r, Step(t, None));
  }

  /** A dependency without keys is linked behind a pending one, and its own pass takes it out again: the list is as
      before, but `tail` is no longer on it. */
  lemma LeavesTail(s: State, t: Tid) returns (r: State)
    requires Reachable(s) && t < |s.pcs| && s.pcs[t].Idle? && AllFree(s) && s.deps.tailIn
    requires |s.deps.list| == 1 && D.WellSized(s.deps.list[0].dep) && !D.Satisfied(s.deps.list[0].dep)
    requires !SomeAsleep(s.pcs)
    ensures Reachable(r) && r.pcs == s.pcs && AllFree(r) && !r.deps.tailIn
    ensures r.deps.list == s.deps.list && r.deps.lost == s.deps.lost
  {
    r := LinksEmpty(s, t, "b", 8);
    r := Take(r, Step(t, None));
    r := TakesLastOut(r, t);
  }

  lemma TakesLastOut(s: State, t: Tid) returns (r: State)
    requires Reachable(s) && t < |s.pcs| && s.pcs[t] == ScanAt(None, false, 0) && s.deps.tailIn
    requires s.locks == Mutexes(None, Some(t), None) && !SomeAsleep(s.pcs)
    requires |s.deps.list| == 2 && D.WellSized(s.deps.list[0].dep) && !D.Satisfied(s.deps.list[0].dep)
    requires D.WellSized(s.deps.list[1].dep) && s.deps.list[1].dep.keys == []
    ensures Reachable(r) && r.pcs == s.pcs[t := Idle] && AllFree(r) && !r.deps.tailIn
    ensures r.deps.list == s.deps.list[..1] && r.deps.lost == s.deps.lost
  {
    r := Keeps(s, t);
    r := Take(r, Step(t, None));
    r := PostsAndEnds(r, t);
  }

  lemma PostsAndEnds(s: State, t: Tid) returns (r: State)
    requires Reachable(s) && t < |s.pcs| && s.pcs[t].PushWant? && !s.pcs[t].inner && s.pcs[t].at == |s.deps.list|
    requires s.locks == Mutexes(None, Some(t), None) && !SomeAsleep(s.pcs)
    ensures Reachable(r) && r.pcs == s.pcs[t := Idle] && AllFree(r) && r.deps == s.deps
  {
    r := Take(s, Step(t, None));
    r := Take(r, Step(t, None));
    r := Take(r, Step(t, None));
  }

  /** The next dependency, though it waits for nothing, is lost. */
  lemma LinksBehindNothing(s: State, t: Tid) returns (r: State)
    requires Reachable(s) && t < |s.pcs| && s.pcs[t].Idle? && AllFree(s) && !s.deps.tailIn
    requires |s.deps.list| == 1 && D.WellSized(s.deps.list[0].dep) && !D.Satisfied(s.deps.list[0].dep)
    ensures Reachable(r) && r.pcs == s.pcs && r.deps.list == s.deps.list
    ensures |r.deps.lost| == |s.deps.lost| + 1 && r.deps.lost[|s.deps.lost|].dep == D.Dep("c", 9, [], [])
  {
    r := LinksEmpty(s, t, "c", 9);
    r := PassesOne(r, t);
  }

  /** `tail` is left dangling by a pass: a dependency with no keys at all is never posted. */
  lemma LostBehindTheTail() returns (s: State)
    ensures Reachable(s) && Quiet(s) && |s.deps.lost| == 1 && s.deps.lost[0].dep.keys == []
  {
    s := LooksTooEarly(1);
    assert !s.pcs[0].draft.dep.status[0];
    s := LinksAlone(s, 0);
    s := LeavesTail(s, 0);
    s := LinksBehindNothing(s, 0);
  }
}
