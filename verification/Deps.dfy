/** Pending dependencies: what one completion pass does to the list of entries. */
module Deps {
  import opened Bytes

  type Key = string

  /** An entry waits for all of its keys; `status[i]` records that `keys[i]` has been seen. */
  datatype Dep = Dep(name: string, msg: int, keys: seq<Key>, status: seq<bool>)

  predicate WellSized(d: Dep) {
    |d.status| == |d.keys|
  }

  predicate Satisfied(d: Dep) {
    forall i | 0 <= i < |d.status| :: d.status[i]
  }

  /** Record one key in an entry; the null key records nothing. */
  function Mark(d: Dep, key: Option<Key>): (r: Dep)
    requires WellSized(d)
    ensures WellSized(r) && r.keys == d.keys && r.name == d.name && r.msg == d.msg
    ensures forall i | 0 <= i < |d.keys| :: r.status[i] <==> d.status[i] || key == Some(d.keys[i])
  {
    Dep(d.name, d.msg, d.keys, MarkKeys(d.keys, d.status, key))
  }

  function MarkKeys(keys: seq<Key>, status: seq<bool>, key: Option<Key>): (r: seq<bool>)
    requires |keys| == |status|
    ensures |r| == |status| && forall i | 0 <= i < |r| :: r[i] == (status[i] || key == Some(keys[i]))
  {
    if keys == [] then [] else [status[0] || key == Some(keys[0])] + MarkKeys(keys[1..], status[1..], key)
  }

  predicate AllSized(ds: seq<Dep>) {
    forall i | 0 <= i < |ds| :: WellSized(ds[i])
  }

  /** The first `m` rounds of a pass: every entry is marked, and kept or taken out, in order. */
  function Scan(ds: seq<Dep>, key: Option<Key>, m: nat): (r: (seq<Dep>, seq<Dep>))
    requires m <= |ds| && AllSized(ds)
  {
    if m == 0 then ([], []) else
      var (kept, done) := Scan(ds, key, m - 1);
      var d := Mark(ds[m - 1], key);
      if Satisfied(d) then (kept, done + [d]) else (kept + [d], done)
  }

  function MarkAll(ds: seq<Dep>, key: Option<Key>, m: nat): seq<Dep>
    requires m <= |ds| && AllSized(ds)
  {
    if m == 0 then [] else MarkAll(ds, key, m - 1) + [Mark(ds[m - 1], key)]
  }

  /** A pass keeps every entry, on one side or the other ... */
  lemma {:induction false} ScanPartitions(ds: seq<Dep>, key: Option<Key>, m: nat)
    requires m <= |ds| && AllSized(ds)
    ensures multiset(Scan(ds, key, m).0) + multiset(Scan(ds, key, m).1) == multiset(MarkAll(ds, key, m))
  {
    if m > 0 {
      ScanPartitions(ds, key, m - 1);
      var (kept, done) := Scan(ds, key, m - 1);
      MultisetSnoc(kept, done, Mark(ds[m - 1], key));
    }
  }

  /** ... and leaves no satisfied entry pending, nor posts one that is not. */
  lemma {:induction false} ScanSeparates(ds: seq<Dep>, key: Option<Key>, m: nat)
    requires m <= |ds| && AllSized(ds)
    ensures forall d | d in Scan(ds, key, m).0 :: WellSized(d) && !Satisfied(d)
    ensures forall d | d in Scan(ds, key, m).1 :: Satisfied(d)
  {
    if m > 0 { ScanSeparates(ds, key, m - 1); }
  }

  lemma MultisetSnoc<T>(a: seq<T>, b: seq<T>, x: T)
    ensures multiset(a + [x]) + multiset(b) == multiset(a) + multiset(b) + multiset{x}
    ensures multiset(a) + multiset(b + [x]) == multiset(a) + multiset(b) + multiset{x}
  {}

  /** What is posted for finished entries. */
  function Messages(ds: seq<Dep>): (r: seq<(string, int)>)
    ensures |r| == |ds| && forall i | 0 <= i < |ds| :: r[i] == (ds[i].name, ds[i].msg)
  {
    if ds == [] then [] else [(ds[0].name, ds[0].msg)] + Messages(ds[1..])
  }

  lemma {:induction false} MessagesSnoc(ds: seq<Dep>, d: Dep)
    ensures Messages(ds + [d]) == Messages(ds) + [(d.name, d.msg)]
  {
    if ds == [] {
      assert (ds + [d])[1..] == [];
    } else {
      assert (ds + [d])[1..] == ds[1..] + [d];
      MessagesSnoc(ds[1..], d);
    }
  }

  class Entry {
    const name: string
    const msg: int
    const keys: seq<Key>
    var status: seq<bool>
    var next: Entry?

    constructor (name: string, msg: int, keys: seq<Key>, status: seq<bool>)
      ensures View() == Dep(name, msg, keys, status) && next == null
    {
      this.name, this.msg, this.keys, this.status, next := name, msg, keys, status, null;
    }

    ghost function View(): Dep
      reads `status
    {
      Dep(name, msg, keys, status)
    }

    /** The inner loop of a pass: set what the key satisfies and count what is satisfied. */
    method MarkAndCount(key: Option<Key>) returns (all: bool)
      requires WellSized(View())
      modifies `status
      ensures View() == Mark(old(View()), key)
      ensures all <==> Satisfied(View())
    {
      var i, n, sat := 0, |keys|, 0;
      while i < n
        invariant 0 <= i <= n == |status|
        invariant forall j | 0 <= j < i :: status[j] == (old(status)[j] || key == Some(keys[j]))
        invariant forall j | i <= j < n :: status[j] == old(status)[j]
        invariant 0 <= sat <= i && (sat == i <==> forall j | 0 <= j < i :: status[j])
      {
        if key == Some(keys[i]) { status := status[i := true]; }
        sat := sat + if status[i] then 1 else 0;
        i := i + 1;
      }
      all := sat == n;
    }
  }

  /** `s` is exactly the list that starts at `head`. */
  ghost predicate Chain(head: Entry?, s: seq<Entry>)
    reads (set x | x in s)`next
  {
    && head == (if s == [] then null else s[0])
    && (forall i, j | 0 <= i < j < |s| :: s[i] != s[j])
    && (forall i, j | 0 <= i && j == i + 1 && j < |s| :: s[i].next == s[j])
    && (s != [] ==> s[|s| - 1].next == null)
  }

  ghost predicate Shows(s: seq<Entry>, ds: seq<Dep>)
    reads (set x | x in s)`status
  {
    |s| == |ds| && AllSized(ds) && forall i | 0 <= i < |s| :: s[i].View() == ds[i]
  }

  lemma ShowsWithout(s: seq<Entry>, ds: seq<Dep>, k: nat)
    requires Shows(s, ds) && k < |s|
    ensures Shows(s[..k] + s[k + 1..], ds[..k] + ds[k + 1..])
  {}

  ghost predicate Within(s: seq<Entry>, all: set<Entry>) {
    forall i | 0 <= i < |s| :: s[i] in all
  }

  /** `t` is no entry of the list but the last. */
  ghost predicate NoneButLast(t: Entry?, s: seq<Entry>) {
    t in s ==> t == s[|s| - 1]
  }

  lemma TailWithout(t: Entry?, s: seq<Entry>, k: nat, all: set<Entry>)
    requires k < |s| && NoneButLast(t, s) && Within(s, all)
    requires forall i, j | 0 <= i < j < |s| :: s[i] != s[j]
    ensures var r := s[..k] + s[k + 1..];
            NoneButLast(t, r) && Within(r, all) && (t in r <==> t in s && k + 1 < |s|)
  {
    var r := s[..k] + s[k + 1..];
    assert forall i | 0 <= i < |r| :: r[i] == s[if i < k then i else i + 1];
    if k + 1 < |s| { assert r[|r| - 1] == s[|s| - 1]; }
  }

  /** A pass after `m` rounds: the entries it has kept, and those it has taken out. */
  datatype Round = Round(m: nat, kept: seq<Dep>, done: seq<Dep>)

  ghost predicate InPass(p: Round, ds: seq<Dep>, fs: seq<Dep>, key: Option<Key>, views: seq<Dep>, finished: seq<Dep>)
    requires AllSized(ds)
  {
    && p.m <= |ds| && Scan(ds, key, p.m) == (p.kept, p.done)
    && views == p.kept + ds[p.m..] && finished == fs + p.done
  }

  /** The last entry has not been taken out so far. */
  ghost predicate LastStays(p: Round, ds: seq<Dep>, key: Option<Key>)
    requires AllSized(ds)
  {
    p.m < |ds| || ds == [] || !Satisfied(Mark(ds[|ds| - 1], key))
  }

  function AfterVisit(views: seq<Dep>, k: nat, key: Option<Key>): seq<Dep>
    requires k < |views| && AllSized(views)
  {
    var d := Mark(views[k], key);
    if Satisfied(d) then views[..k] + views[k + 1..] else views[k := d]
  }

  lemma NextRound(p: Round, ds: seq<Dep>, fs: seq<Dep>, key: Option<Key>, views: seq<Dep>, finished: seq<Dep>)
    returns (q: Round)
    requires AllSized(ds) && InPass(p, ds, fs, key, views, finished) && |p.kept| < |views|
    ensures AllSized(views) && p.m < |ds| && views[|p.kept|] == ds[p.m]
    ensures var d := Mark(ds[p.m], key);
            && q.m == p.m + 1 && (q.kept == if Satisfied(d) then p.kept else p.kept + [d])
            && (LastStays(q, ds, key) <==> !Satisfied(d) || |p.kept| + 1 < |views|)
            && InPass(q, ds, fs, key, AfterVisit(views, |p.kept|, key), finished + if Satisfied(d) then [d] else [])
  {
    var d := Mark(ds[p.m], key);
    ScanSized(ds, key, p.m);
    Assoc(fs, p.done, [d]);
    ViewsStep(p.kept, ds, p.m, d);
    q := if Satisfied(d) then Round(p.m + 1, p.kept, p.done + [d]) else Round(p.m + 1, p.kept + [d], p.done);
    ScanStep(ds, key, p.m, p.kept, p.done);
    hide Scan, Mark, MarkKeys;
  }

  lemma ScanStep(ds: seq<Dep>, key: Option<Key>, m: nat, kept: seq<Dep>, done: seq<Dep>)
    requires m < |ds| && AllSized(ds) && Scan(ds, key, m) == (kept, done)
    ensures var d := Mark(ds[m], key);
            Scan(ds, key, m + 1) == if Satisfied(d) then (kept, done + [d]) else (kept + [d], done)
  {}

  lemma ViewsStep(kept: seq<Dep>, ds: seq<Dep>, m: nat, d: Dep)
    requires m < |ds|
    ensures var v, k := kept + ds[m..], |kept|;
            v[k] == ds[m] && v[k := d] == kept + [d] + ds[m + 1..] && v[..k] + v[k + 1..] == kept + ds[m + 1..]
  {}

  lemma PassStart(ds: seq<Dep>, fs: seq<Dep>, key: Option<Key>) returns (p: Round)
    requires AllSized(ds)
    ensures p == Round(0, [], []) && InPass(p, ds, fs, key, ds, fs) && LastStays(p, ds, key)
  {
    p := Round(0, [], []);
  }

  lemma PassDone(p: Round, ds: seq<Dep>, fs: seq<Dep>, key: Option<Key>, views: seq<Dep>, finished: seq<Dep>)
    requires AllSized(ds) && InPass(p, ds, fs, key, views, finished) && |views| <= |p.kept|
    ensures LastStays(p, ds, key) <==> ds == [] || !Satisfied(Mark(ds[|ds| - 1], key))
    ensures p.m == |ds| && views == Scan(ds, key, |ds|).0 && finished == fs + Scan(ds, key, |ds|).1
  {
    assert p.kept + ds[p.m..] == p.kept;
  }

  lemma {:induction false} ScanSized(ds: seq<Dep>, key: Option<Key>, m: nat)
    requires m <= |ds| && AllSized(ds)
    ensures AllSized(Scan(ds, key, m).0)
  {
    if m > 0 { ScanSized(ds, key, m - 1); }
  }

  class Tracker {
    var head: Entry?
    var tail: Entry?
    var posted: seq<(string, int)>   // what has been pushed on the event queue
    ghost var items: seq<Entry>      // the entries reachable from `head`
    ghost var views: seq<Dep>        // and their contents
    ghost var finished: seq<Dep>     // the entries taken out, in the order they were posted

    /** `tail` need not be the last entry of the list, but is no other. */
    ghost predicate Valid(all: set<Entry>)
      reads this, all, items
    {
      && Chain(head, items) && Shows(items, views)
      && Within(items, all) && NoneButLast(tail, items)
      && (items != [] ==> tail != null)
      && posted == Messages(finished)
    }

    /** A new entry can be reached only if the list is empty or `tail` is still its last entry. */
    ghost predicate TailReaches()
      reads this
    {
      items == [] || TailLinked()
    }

    ghost predicate TailLinked()
      reads this
    {
      tail in items
    }

    constructor ()
      ensures Valid({}) && items == [] && finished == []
    {
      head, tail, posted, items, views, finished := null, null, [], [], [], [];
    }

    /** Link a new entry behind `tail`.  It becomes part of the list exactly when `tail` reaches; otherwise it hangs off
        an entry that is gone, whose memory may even be its own. */
    method Link(e: Entry, ghost all: set<Entry>)
      requires Valid(all) && e.next == null && WellSized(e.View()) && e !in items
      modifies this, tail
      ensures Valid(all + {e}) && finished == old(finished) && tail == e
      ensures items == if old(TailReaches()) then old(items) + [e] else old(items)
      ensures views == if old(TailReaches()) then old(views) + [old(e.View())] else old(views)
      ensures e in items <==> old(TailReaches())
    {
      ghost var was, reaches := items, TailReaches();
      assert reaches && was != [] ==> tail == was[|was| - 1];
      if head == null {
        head, tail := e, e;
      } else {
        tail.next := e;
        tail := e;
      }
      if reaches { items, views := was + [e], views + [e.View()]; }
      assert forall i | 0 <= i < |was| :: items[i] == was[i];
    }

    /** One completion pass over the list: mark each entry, unlink and post the satisfied ones.  `tail` is
        not moved, so afterwards it still reaches only if the last entry stayed or none did. */
    method Complete(key: Option<Key>, ghost all: set<Entry>)
      requires Valid(all)
      modifies this, all
      ensures Valid(all) && tail == old(tail)
      ensures views == Scan(old(views), key, |old(views)|).0
      ensures finished == old(finished) + Scan(old(views), key, |old(views)|).1
      ensures TailReaches() <==>
              items == [] || (old(TailReaches()) && !Satisfied(Mark(old(views)[|old(views)| - 1], key)))
    {
      ListFacts(all);
      ghost var ds, fs := views, finished;
      ghost var pass := PassStart(ds, fs, key);
      var e, prev: Entry? := head, null;
      hide Valid, TailLinked, Scan, Mark, Satisfied, InPass, LastStays;
      while e != null
        invariant Valid(all) && tail == old(tail) && At(prev, e, pass)
        invariant AllSized(ds) && InPass(pass, ds, fs, key, views, finished)
        invariant TailLinked() <==> old(TailLinked()) && LastStays(pass, ds, key)
        decreases |ds| - pass.m
      {
        prev, e, pass := Turn(prev, e, key, ds, fs, pass, all);
      }
      PassDone(pass, ds, fs, key, views, finished);
    }

    /** The loop stands at the first entry not yet visited, just behind the last one kept. */
    ghost predicate At(prev: Entry?, e: Entry?, p: Round)
      reads this
    {
      && |p.kept| <= |items| == |views|
      && e == (if |p.kept| < |items| then items[|p.kept|] else null)
      && prev == (if p.kept == [] then null else items[|p.kept| - 1])
    }

    method Turn(prev: Entry?, e: Entry, key: Option<Key>, ghost ds: seq<Dep>, ghost fs: seq<Dep>, ghost p: Round,
                ghost all: set<Entry>)
      returns (prev': Entry?, e': Entry?, ghost q: Round)
      requires Valid(all) && At(prev, e, p) && AllSized(ds) && InPass(p, ds, fs, key, views, finished)
      modifies this, all
      ensures Valid(all) && tail == old(tail) && At(prev', e', q) && p.m < q.m <= |ds|
      ensures InPass(q, ds, fs, key, views, finished)
      ensures TailLinked() <==> old(TailLinked()) && LastStays(q, ds, key)
    {
      hide Valid, TailLinked, Scan, Mark, Satisfied, InPass, AfterVisit, LastStays;
      q := NextRound(p, ds, fs, key, views, finished);
      var satisfied := Visit(prev, e, key, |p.kept|, all);
      prev' := if satisfied then prev else e;
      e' := e.next;
    }

    /** One round: mark the entry, and unlink and post it if it is satisfied. */
    method Visit(prev: Entry?, e: Entry, key: Option<Key>, ghost k: nat, ghost all: set<Entry>) returns (satisfied: bool)
      requires Valid(all) && k < |items| == |views| && AllSized(views) && items[k] == e
      requires prev == if k > 0 then items[k - 1] else null
      modifies this, all
      ensures Valid(all) && tail == old(tail) && |items| == |views| && AllSized(views)
      ensures satisfied <==> Satisfied(Mark(old(views)[k], key))
      ensures views == AfterVisit(old(views), k, key)
      ensures finished == old(finished) + if satisfied then [Mark(old(views)[k], key)] else []
      ensures items == if satisfied then old(items)[..k] + old(items)[k + 1..] else old(items)
      ensures e.next == if k + 1 < |old(items)| then old(items)[k + 1] else null
      ensures TailLinked() <==> old(TailLinked()) && (!satisfied || k + 1 < |old(items)|)
    {
      hide Chain, Shows;
      satisfied := MarkAt(e, key, k, all);
      if satisfied {
        Finish(prev, e, k, all);
        ListFacts(all);
      }
    }

    lemma ListFacts(all: set<Entry>)
      requires Valid(all)
      ensures head == (if items == [] then null else items[0])
      ensures |items| == |views| && AllSized(views)
      ensures forall i | 0 <= i < |items| :: items[i].next == if i + 1 < |items| then items[i + 1] else null
    {}

    method MarkAt(e: Entry, key: Option<Key>, ghost k: nat, ghost all: set<Entry>) returns (satisfied: bool)
      requires Valid(all) && k < |items| && items[k] == e
      modifies `views, e`status
      ensures Valid(all) && views == old(views)[k := Mark(old(views)[k], key)]
      ensures satisfied <==> Satisfied(views[k])
      ensures e.next == if k + 1 < |items| then items[k + 1] else null
    {
      ghost var d := Mark(views[k], key);
      satisfied := e.MarkAndCount(key);
      views := views[k := d];
    }

    /** Unlink the entry and post its message. */
    method Finish(prev: Entry?, e: Entry, ghost k: nat, ghost all: set<Entry>)
      requires Valid(all) && k < |items| && items[k] == e
      requires prev == if k > 0 then items[k - 1] else null
      modifies this, all
      ensures Valid(all) && tail == old(tail)
      ensures items == old(items)[..k] + old(items)[k + 1..]
      ensures views == old(views)[..k] + old(views)[k + 1..]
      ensures finished == old(finished) + [old(views)[k]]
      ensures e.next == if k + 1 < |old(items)| then old(items)[k + 1] else null
      ensures TailLinked() <==> old(TailLinked()) && k + 1 < |old(items)|
    {
      Post(e, k);
      SpliceOut(prev, e, k, all);
    }

    method Post(e: Entry, ghost k: nat)
      requires Shows(items, views) && k < |items| && items[k] == e && posted == Messages(finished)
      modifies `posted, `finished
      ensures finished == old(finished) + [views[k]] && posted == Messages(finished)
    {
      MessagesSnoc(finished, views[k]);
      posted, finished := posted + [(e.name, e.msg)], finished + [views[k]];
    }

    method SpliceOut(prev: Entry?, e: Entry, ghost k: nat, ghost all: set<Entry>)
      requires Chain(head, items) && Shows(items, views) && k < |items| && items[k] == e
      requires prev == if k > 0 then items[k - 1] else null
      requires NoneButLast(tail, items) && Within(items, all)
      modifies `head, `items, `views, (set x | x in items)`next
      ensures Chain(head, items) && Shows(items, views)
      ensures items == old(items)[..k] + old(items)[k + 1..]
      ensures views == old(views)[..k] + old(views)[k + 1..]
      ensures NoneButLast(tail, items) && Within(items, all)
      ensures TailLinked() <==> old(TailLinked()) && k + 1 < |old(items)|
      ensures e.next == if k + 1 < |old(items)| then old(items)[k + 1] else null
    {
      ShowsWithout(items, views, k);
      TailWithout(tail, items, k, all);
      ghost var vs := views[..k] + views[k + 1..];
      hide Chain, Shows, NoneButLast, Within;
      Relink(prev, e, k);
      views := vs;
    }

    method Relink(prev: Entry?, e: Entry, ghost k: nat)
      requires Chain(head, items) && k < |items| && items[k] == e
      requires prev == if k > 0 then items[k - 1] else null
      modifies `head, `items, (set x | x in items)`next
      ensures Chain(head, items)
      ensures items == old(items)[..k] + old(items)[k + 1..]
      ensures forall i | 0 <= i < |items| :: items[i] == old(items)[if i < k then i else i + 1]
      ensures e !in items && e.next == if k + 1 < |old(items)| then old(items)[k + 1] else null
    {
      ghost var was := items;
      assert e.next == if k + 1 < |was| then was[k + 1] else null;
      if head == e { head := e.next; }
      if prev != null { prev.next := e.next; }
      items := was[..k] + was[k + 1..];
      assert forall i | 0 <= i < |items| :: items[i] == was[if i < k then i else i + 1];
    }
  }
}
