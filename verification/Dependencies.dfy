/** What the interleaved store and tracker keep: exact statuses, sound posts, and no entry left satisfied. */
module Dependencies {
  import opened Bytes
  import opened Protocol
  import opened Locks
  import D = Deps

  // The store and its history.

  ghost predicate ObjectsOk(o: Objects) {
    && |o.hist| == |o.changes| + 1
    && o.hist[0] == {}
    && o.hist[|o.changes|] == Live(o.keys)
    && forall h | 0 <= h < |o.changes| ::
         match o.changes[h]
         case Added(k) => o.hist[h + 1] == o.hist[h] + {k}
         case Removed(k) => o.hist[h + 1] <= o.hist[h]
  }

  lemma {:induction false} WithoutShrinks(keys: seq<D.Key>, key: D.Key)
    ensures Live(Without(keys, key)) <= Live(keys)
  {
    if keys != [] {
      WithoutShrinks(keys[1..], key);
      var rest := Without(keys[1..], key);
      assert forall k | k in rest :: k in Live(rest);
      assert forall k | k in Live(keys[1..]) :: k in keys;
    }
  }

  lemma ObjectsStep(o: Objects, p: Pc)
    requires ObjectsOk(o)
    ensures ObjectsOk(ObjectsAfter(o, p)) && Extends(o, ObjectsAfter(o, p))
  {
    var r := ObjectsAfter(o, p);
    if p.ObjWant? && p.op.Remove? { WithoutShrinks(o.keys, p.op.key); }
    if p.ObjWant? && p.op.Add? {
      assert forall k :: k in Live(r.keys) <==> k in Live(o.keys) + {p.op.key};
    }
    assert forall h | 0 <= h <= |o.changes| :: r.hist[h] == o.hist[h];
  }

  /** Later on, the history is the same with more at its end. */
  predicate Extends(o: Objects, r: Objects) {
    o.hist <= r.hist && o.changes <= r.changes
  }

  /** A key absent at one time and present at a later one was added in between. */
  lemma {:induction false} AddedBetween(o: Objects, k: D.Key, a: nat, b: nat) returns (h: nat)
    requires ObjectsOk(o) && a <= b <= |o.changes| && k !in o.hist[a] && k in o.hist[b]
    ensures a < h <= b && o.changes[h - 1] == Added(k)
    decreases b - a
  {
    if k in o.hist[b - 1] {
      h := AddedBetween(o, k, a, b - 1);
    } else {
      h := b;
    }
  }

  // The running pass.

  datatype Turn = Turn(key: Option<D.Key>, at: nat)

  function TurnOf(p: Pc): Option<Turn> {
    if p.ScanAt? || p.PushWant? || p.PushOut? then Some(Turn(p.key, p.at)) else None
  }

  /** Where the pass that is under way stands, if there is one. */
  function Scanning(s: State): Option<Turn> {
    if s.locks.dep.Some? && s.locks.dep.value < |s.pcs| then TurnOf(s.pcs[s.locks.dep.value]) else None
  }

  function TurnAfter(d: Pending, turn: Option<Turn>, p: Pc): Option<Turn> {
    match p
    case ScanWant(key, _) => Some(Turn(key, 0))
    case ScanAt(key, _, at) =>
      if |d.list| <= at then None else Some(Turn(key, if Finished(d.list[at], key) then at else at + 1))
    case _ => turn
  }

  /** No other thread disturbs a pass. */
  lemma TurnStep(s: State, t: Tid, wake: Option<Tid>)
    requires Exclusive(s.pcs, s.locks) && Runnable(s, t, wake)
    ensures Scanning(Next(s, t, wake)) == TurnAfter(s.deps, Scanning(s), s.pcs[t])
    ensures s.pcs[t].ScanAt? ==> Scanning(s) == TurnOf(s.pcs[t])
    ensures s.pcs[t].ScanWant? || s.pcs[t].LinkWant? ==> Scanning(s) == None
  {}

  /** The key just added, while the thread that added it has not begun its pass. */
  function Announced(s: State): Option<D.Key> {
    if s.locks.obj.Some? && s.locks.obj.value < |s.pcs| && s.pcs[s.locks.obj.value].ScanWant?
    then s.pcs[s.locks.obj.value].key else None
  }

  function AnnouncedAfter(ann: Option<D.Key>, p: Pc): Option<D.Key> {
    match p
    case ObjWant(Add(k)) => Some(k)
    case ScanWant(_, inner) => if inner then None else ann
    case _ => ann
  }

  lemma AnnouncedStep(s: State, t: Tid, wake: Option<Tid>)
    requires Exclusive(s.pcs, s.locks) && Runnable(s, t, wake)
    ensures Announced(Next(s, t, wake)) == AnnouncedAfter(Announced(s), s.pcs[t])
    ensures s.pcs[t].ObjWant? ==> Announced(s) == None
    ensures s.pcs[t].ScanWant? && s.pcs[t].inner ==> Announced(s) == s.pcs[t].key
  {}

  // Every key added is announced to the list by a pass of its own.

  ghost predicate PassesOk(o: Objects, passes: seq<Pass>, ann: Option<D.Key>) {
    && (ann.Some? ==> o.changes != [] && o.changes[|o.changes| - 1] == Added(ann.value))
    && (forall i | 0 <= i < |passes| :: passes[i].time <= |o.changes|)
    && (forall i | 0 <= i < |passes| :: passes[i].key.Some? ==>
          passes[i].time > 0 && o.changes[passes[i].time - 1] == Added(passes[i].key.value))
    && (forall h | 0 <= h < |o.changes| :: o.changes[h].Added? ==>
          Pass(Some(o.changes[h].key), h + 1) in passes || (h + 1 == |o.changes| && ann.Some?))
  }

  lemma PassesStep(o: Objects, d: Pending, ann: Option<D.Key>, p: Pc)
    requires ObjectsOk(o) && PassesOk(o, d.passes, ann)
    requires p.ObjWant? ==> ann == None
    requires p.ScanWant? ==> (p.inner <==> p.key.Some?) && (p.inner ==> ann == p.key)
    ensures PassesOk(ObjectsAfter(o, p), DepsAfter(d, p, |o.changes|).passes, AnnouncedAfter(ann, p))
  {
    var ps := DepsAfter(d, p, |o.changes|).passes;
    assert forall x | x in d.passes :: x in ps;
    if p.ScanWant? { assert Pass(p.key, |o.changes|) == ps[|d.passes|]; }
  }

  // One entry.

  /** What a `deps_add` has found so far, key by key, and when it looked. */
  ghost predicate DraftOk(e: Entry, o: Objects) {
    && e.dep.status == e.found && |e.found| == |e.looks| <= |e.dep.keys| && e.born <= |o.changes|
    && forall i | 0 <= i < |e.looks| ::
         e.born <= e.looks[i] < |o.hist| && (e.found[i] <==> e.dep.keys[i] in o.hist[e.looks[i]])
  }

  /** One of the passes `from .. to` was for the key. */
  predicate Seen(passes: seq<Pass>, from: nat, to: nat, key: D.Key)
    requires to <= |passes|
  {
    exists k | from <= k < to :: passes[k].key == Some(key)
  }

  /** A status is set exactly if the key was found by its lookup or one of the passes since linking was for it. */
  ghost predicate Exact(e: Entry, passes: seq<Pass>, to: nat)
    requires to <= |passes|
  {
    && D.WellSized(e.dep) && |e.found| == |e.dep.keys|
    && forall i | 0 <= i < |e.dep.keys| ::
         e.dep.status[i] <==> e.found[i] || Seen(passes, e.linkedAt, to, e.dep.keys[i])
  }

  ghost predicate EntryOk(e: Entry, o: Objects, passes: seq<Pass>) {
    && DraftOk(e.(dep := e.dep.(status := e.found)), o) && |e.found| == |e.dep.keys|
    && e.linkedAt <= |passes|
    && forall k, i | e.linkedAt <= k < |passes| && 0 <= i < |e.looks| :: e.looks[i] <= passes[k].time
  }

  /** Every key has been in the store at some moment since its lookup, and so since `deps_add` began. */
  ghost predicate Earned(e: Entry, o: Objects) {
    && |e.looks| == |e.dep.keys|
    && forall i | 0 <= i < |e.looks| :: e.born <= e.looks[i] && PresentSince(o, e.dep.keys[i], e.looks[i])
  }

  ghost predicate PresentSince(o: Objects, key: D.Key, from: nat) {
    exists h | from <= h < |o.hist| :: key in o.hist[h]
  }

  lemma EntryLater(e: Entry, o: Objects, r: Objects, passes: seq<Pass>)
    requires EntryOk(e, o, passes) && Extends(o, r)
    ensures EntryOk(e, r, passes)
  {}

  lemma EarnedLater(e: Entry, o: Objects, r: Objects)
    requires Earned(e, o) && Extends(o, r)
    ensures Earned(e, r)
  {
    forall i | 0 <= i < |e.looks| ensures PresentSince(r, e.dep.keys[i], e.looks[i]) {
      var h :| e.looks[i] <= h < |o.hist| && e.dep.keys[i] in o.hist[h];
      assert r.hist[h] == o.hist[h];
    }
  }

  lemma DraftLooks(s: State, d: Entry)
    requires ObjectsOk(s.objects) && DraftOk(d, s.objects)
    ensures DraftOk(Looked(s, d), s.objects)
  {}

  lemma ExactLater(e: Entry, passes: seq<Pass>, to: nat, x: Pass)
    requires to <= |passes| && Exact(e, passes, to)
    ensures Exact(e, passes + [x], to)
  {
    forall k: D.Key ensures Seen(passes + [x], e.linkedAt, to, k) <==> Seen(passes, e.linkedAt, to, k) {
      assert forall j | e.linkedAt <= j < to :: (passes + [x])[j] == passes[j];
    }
  }

  /** A turn of the running pass brings an entry up to date. */
  lemma MarkedExact(e: Entry, passes: seq<Pass>, key: Option<D.Key>)
    requires passes != [] && passes[|passes| - 1].key == key && e.linkedAt < |passes|
    requires Exact(e, passes, |passes| - 1)
    ensures Exact(Marked(e, key), passes, |passes|)
  {
    var n := |passes|;
    forall i | 0 <= i < |e.dep.keys|
      ensures Seen(passes, e.linkedAt, n, e.dep.keys[i]) <==>
              Seen(passes, e.linkedAt, n - 1, e.dep.keys[i]) || key == Some(e.dep.keys[i])
    {
      if key == Some(e.dep.keys[i]) { assert passes[n - 1].key == Some(e.dep.keys[i]); }
    }
  }

  /** An entry that is satisfied has earned it. */
  lemma SatisfiedIsEarned(e: Entry, o: Objects, passes: seq<Pass>, ann: Option<D.Key>)
    requires ObjectsOk(o) && PassesOk(o, passes, ann) && EntryOk(e, o, passes) && Exact(e, passes, |passes|)
    requires D.Satisfied(e.dep)
    ensures Earned(e, o)
  {
    forall i | 0 <= i < |e.looks| ensures PresentSince(o, e.dep.keys[i], e.looks[i]) {
      if e.found[i] {
        assert e.dep.keys[i] in o.hist[e.looks[i]];
      } else {
        var k :| e.linkedAt <= k < |passes| && passes[k].key == Some(e.dep.keys[i]);
        assert e.looks[i] <= passes[k].time && e.dep.keys[i] in o.hist[passes[k].time];
      }
    }
  }

  // The list.

  /** How many passes entry `j` has been through. */
  function UpTo(d: Pending, turn: Option<Turn>, j: nat): nat {
    if turn.Some? && turn.value.at <= j && d.passes != [] then |d.passes| - 1 else |d.passes|
  }

  ghost predicate ListOk(d: Pending, turn: Option<Turn>, o: Objects) {
    && (turn.Some? ==> turn.value.at <= |d.list| && d.passes != [] && d.passes[|d.passes| - 1].key == turn.value.key)
    && forall j | 0 <= j < |d.list| ::
         EntryOk(d.list[j], o, d.passes) && Exact(d.list[j], d.passes, UpTo(d, turn, j))
         && (turn.Some? ==> d.list[j].linkedAt < |d.passes|)
  }

  lemma ListLater(d: Pending, turn: Option<Turn>, o: Objects, r: Objects)
    requires ListOk(d, turn, o) && Extends(o, r)
    ensures ListOk(d, turn, r)
  {
    forall j | 0 <= j < |d.list| ensures EntryOk(d.list[j], r, d.passes) { EntryLater(d.list[j], o, r, d.passes); }
  }

  lemma ListPassBegins(d: Pending, o: Objects, key: Option<D.Key>)
    requires ListOk(d, None, o) && |o.hist| == |o.changes| + 1
    ensures ListOk(d.(passes := d.passes + [Pass(key, |o.changes|)]), Some(Turn(key, 0)), o)
  {
    var x := Pass(key, |o.changes|);
    forall j | 0 <= j < |d.list|
      ensures EntryOk(d.list[j], o, d.passes + [x]) && Exact(d.list[j], d.passes + [x], |d.passes|)
    {
      ExactLater(d.list[j], d.passes, |d.passes|, x);
    }
  }

  lemma ListTurn(d: Pending, o: Objects, key: Option<D.Key>, at: nat, now: nat, inner: bool)
    requires ListOk(d, Some(Turn(key, at)), o)
    ensures ListOk(DepsAfter(d, ScanAt(key, inner, at), now), TurnAfter(d, Some(Turn(key, at)), ScanAt(key, inner, at)), o)
  {
    if at < |d.list| {
      MarkedExact(d.list[at], d.passes, key);
      MarkedOk(d.list[at], o, d.passes, key);
    }
    hide EntryOk, Exact, Marked, Finished;
  }

  lemma MarkedOk(e: Entry, o: Objects, passes: seq<Pass>, key: Option<D.Key>)
    requires EntryOk(e, o, passes)
    ensures EntryOk(Marked(e, key), o, passes) && Marked(e, key).linkedAt == e.linkedAt
  {}

  lemma ListLinks(d: Pending, o: Objects, draft: Entry)
    requires ListOk(d, None, o) && DraftOk(draft, o) && |draft.found| == |draft.dep.keys|
    ensures ListOk(Linked(d, Numbered(d, draft)), None, o)
  {}

  lemma ListStep(d: Pending, turn: Option<Turn>, o: Objects, p: Pc)
    requires ObjectsOk(o) && ListOk(d, turn, o)
    requires p.ScanAt? ==> turn == TurnOf(p)
    requires p.ScanWant? || p.LinkWant? ==> turn == None
    requires p.LinkWant? ==> DraftOk(p.draft, o) && |p.draft.found| == |p.draft.dep.keys|
    ensures ListOk(DepsAfter(d, p, |o.changes|), TurnAfter(d, turn, p), ObjectsAfter(o, p))
  {
    hide EntryOk, Exact, DraftOk, ListOk;
    match p
    case ObjWant(op) => ObjectsStep(o, p); ListLater(d, turn, o, ObjectsAfter(o, p));
    case LinkWant(draft) => ListLinks(d, o, draft);
    case ScanWant(key, inner) => ListPassBegins(d, o, key);
    case ScanAt(key, inner, at) => ListTurn(d, o, key, at, |o.changes|, inner);
    case _ =>
  }
}
