/** The key/value object store: a newest-first list of live entries and a pool of entries to release. */
module ObjStore {
  import Protocol
  import Deps

  type Key = Deps.Key

  class Entry {
    const key: Key
    const data: int   // the stored object and its length, never written after insertion
    const len: nat
    var next: Entry?

    constructor (key: Key, data: int, len: nat)
      ensures this.key == key && this.data == data && this.len == len && next == null
    {
      this.key, this.data, this.len, next := key, data, len, null;
    }
  }

  /** `s` is exactly the list that starts at `head`. */
  ghost predicate Chain(head: Entry?, s: seq<Entry>)
    reads s
  {
    && head == (if s == [] then null else s[0])
    && (forall i, j | 0 <= i < j < |s| :: s[i] != s[j])
    && (forall i, j | 0 <= i && j == i + 1 && j < |s| :: s[i].next == s[j])
    && (s != [] ==> s[|s| - 1].next == null)
  }

  ghost function Elems(s: seq<Entry>): set<Entry> {
    set e | e in s
  }

  /** The entries under one key, newest first. */
  ghost function Stack(s: seq<Entry>, key: Key): seq<Entry> {
    if s == [] then [] else (if s[0].key == key then [s[0]] else []) + Stack(s[1..], key)
  }

  /** The first entry with the key is the top of its stack; taking it out pops that stack and no other. */
  lemma {:induction false} TakeTop(s: seq<Entry>, k: nat, key: Key)
    requires k < |s| && forall i | 0 <= i < k :: s[i].key != s[k].key
    ensures Stack(s, s[k].key) != [] && Stack(s, s[k].key)[0] == s[k]
    ensures Stack(s[..k] + s[k + 1..], key) == if key == s[k].key then Stack(s, key)[1..] else Stack(s, key)
  {
    var t := s[..k] + s[k + 1..];
    if k == 0 {
      assert t == s[1..];
    } else {
      TakeTop(s[1..], k - 1, key);
      assert t[0] == s[0] && t[1..] == s[1..][..k - 1] + s[1..][k..];
    }
  }

  /** The keys of the entries, newest first: the value the concurrent program has for the store. */
  function Keys(s: seq<Entry>): (r: seq<Key>)
    ensures |r| == |s| && forall i | 0 <= i < |s| :: r[i] == s[i].key
  {
    if s == [] then [] else [s[0].key] + Keys(s[1..])
  }

  /** Taking out the first entry with a key takes the first such key out. */
  lemma {:induction false} TakeKey(s: seq<Entry>, k: nat)
    requires k < |s| && forall i | 0 <= i < k :: s[i].key != s[k].key
    ensures Keys(s[..k] + s[k + 1..]) == Protocol.Without(Keys(s), s[k].key)
  {
    var t := s[..k] + s[k + 1..];
    if k == 0 {
      assert t == s[1..];
    } else {
      TakeKey(s[1..], k - 1);
      assert t[0] == s[0] && t[1..] == s[1..][..k - 1] + s[1..][k..];
      assert Keys(s)[1..] == Keys(s[1..]);
    }
  }

  lemma {:induction false} NoStack(s: seq<Entry>, key: Key)
    requires forall i | 0 <= i < |s| :: s[i].key != key
    ensures Stack(s, key) == [] && key !in Keys(s)
  {
    if s != [] { NoStack(s[1..], key); }
  }

  /** The first entry with its key: what finding it and taking it out mean. */
  lemma Found(s: seq<Entry>, i: nat)
    requires i < |s| && forall j | 0 <= j < i :: s[j].key != s[i].key
    ensures Stack(s, s[i].key) != [] && Stack(s, s[i].key)[0] == s[i] && s[i].key in Keys(s)
    ensures var t := s[..i] + s[i + 1..];
            && (forall k: Key :: Stack(t, k) == if k == s[i].key then Stack(s, k)[1..] else Stack(s, k))
            && Keys(t) == Protocol.Without(Keys(s), s[i].key)
  {
    forall k: Key
      ensures Stack(s, s[i].key) != [] && Stack(s, s[i].key)[0] == s[i]
      ensures Stack(s[..i] + s[i + 1..], k) == if k == s[i].key then Stack(s, k)[1..] else Stack(s, k)
    { TakeTop(s, i, k); }
    TakeKey(s, i);
    assert Keys(s)[i] == s[i].key;
  }

  lemma ElemsWithout(s: seq<Entry>, k: nat)
    requires k < |s|
    ensures Elems(s) == Elems(s[..k] + s[k + 1..]) + {s[k]}
  {
    var t := s[..k] + s[k + 1..];
    forall x | x in s ensures x == s[k] || x in t {
      var i :| 0 <= i < |s| && s[i] == x;
      if i < k { assert t[i] == x; } else if i > k { assert t[i - 1] == x; }
    }
  }

  class Store {
    var root: Entry?
    var pool: Entry?
    ghost var live: seq<Entry>
    ghost var dead: seq<Entry>
    ghost var added: set<Entry>
    ghost var released: set<Entry>

    /** Both lists are intact and share no entry; every entry ever added is live, waiting for release,
        or released, and in one of these states only. */
    ghost predicate Valid()
      reads this, live, dead
    {
      && Chain(root, live) && Chain(pool, dead)
      && (forall e | e in live :: e !in dead && e !in released)
      && (forall e | e in dead :: e !in released)
      && added == Elems(live) + Elems(dead) + released
    }

    constructor ()
      ensures Valid() && live == dead == [] && added == released == {}
    {
      root, pool := null, null;
      live, dead, added, released := [], [], {}, {};
    }

    /** A new entry goes to the front, so it shadows older ones under its key. */
    method Add(key: Key, data: int, len: nat) returns (ghost e: Entry)
      requires Valid()
      modifies this
      ensures Valid() && fresh(e) && e.key == key && e.data == data && e.len == len
      ensures live == [e] + old(live) && dead == old(dead) && released == old(released)
      ensures added == old(added) + {e}
      ensures forall k: Key :: Stack(live, k) == (if k == key then [e] else []) + Stack(old(live), k)
      ensures Keys(live) == [key] + Keys(old(live))
    {
      var n := new Entry(key, data, len);
      n.next := root;
      root := n;
      live, added := [n] + live, added + {n};
      e := n;
      assert live[1..] == old(live);
    }

    /** Take the entry at `k` out of the live list and put it in front of the pool. */
    method Unlink(prev: Entry?, e: Entry, ghost k: nat)
      requires Valid() && k < |live| && live[k] == e
      requires prev == if k > 0 then live[k - 1] else null
      modifies this, live
      ensures Valid() && added == old(added) && released == old(released)
      ensures live == old(live)[..k] + old(live)[k + 1..] && dead == [e] + old(dead)
    {
      ElemsWithout(live, k);
      SpliceOut(prev, e, k);
      PoolPush(e);
    }

    method PoolPush(e: Entry)
      requires Chain(root, live) && Chain(pool, dead) && e !in live && e !in dead
      modifies `pool, `dead, e
      ensures Chain(root, live) && Chain(pool, dead) && dead == [e] + old(dead)
    {
      e.next := pool;
      pool := e;
      dead := [e] + dead;
      assert forall i | 1 <= i < |dead| :: dead[i] == old(dead)[i - 1];
    }

    method SpliceOut(prev: Entry?, e: Entry, ghost k: nat)
      requires Chain(root, live) && Chain(pool, dead) && forall x | x in live :: x !in dead
      requires k < |live| && live[k] == e
      requires prev == if k > 0 then live[k - 1] else null
      modifies `root, `live, live
      ensures Chain(root, live) && Chain(pool, dead)
      ensures live == old(live)[..k] + old(live)[k + 1..] && e !in live
    {
      ghost var was := live;
      assert e.next == if k + 1 < |was| then was[k + 1] else null;
      assert prev == null || (prev in live && prev !in dead);
      if prev != null { prev.next := e.next; } else { root := e.next; }
      live := was[..k] + was[k + 1..];
      assert forall i | 0 <= i < |live| :: live[i] == was[if i < k then i else i + 1];
    }

    /** Walk the list to the first entry with the key; on request move it to the pool. */
    method Get(key: Key, rm: bool) returns (e: Entry?)
      requires Valid()
      modifies this, live
      ensures Valid() && added == old(added) && released == old(released)
      ensures e == null <==> Stack(old(live), key) == []
      ensures e == null <==> key !in Keys(old(live))
      ensures e != null ==> e == Stack(old(live), key)[0] && e !in released
      ensures e == null || !rm ==> live == old(live) && dead == old(dead)
      ensures e != null && rm ==> dead == [e] + old(dead)
      ensures e != null && rm ==> forall k: Key :: Stack(live, k) == if k == key then Stack(old(live), k)[1..] else Stack(old(live), k)
      ensures e != null && rm ==> Keys(live) == Protocol.Without(Keys(old(live)), key)
    {
      hide Stack, Keys, Protocol.Without;
      e := root;
      var prev: Entry? := null;
      ghost var i := 0;
      while e != null
        invariant 0 <= i <= |live| && e == (if i < |live| then live[i] else null)
        invariant prev == if i > 0 then live[i - 1] else null
        invariant forall j | 0 <= j < i :: live[j].key != key
        decreases |live| - i
      {
        if e.key == key {
          Found(live, i);
          assert e !in released;
          if rm { Unlink(prev, e, i); }
          return;
        }
        prev := e;
        e := e.next;
        i := i + 1;
      }
      NoStack(live, key);
    }

    /** Release everything in the pool, each entry once. */
    method Gc()
      requires Valid()
      modifies this
      ensures Valid() && live == old(live) && added == old(added)
      ensures dead == [] && released == old(released) + Elems(old(dead))
    {
      while pool != null
        invariant Valid() && live == old(live) && added == old(added)
        invariant released + Elems(dead) == old(released) + Elems(old(dead))
        decreases |dead|
      {
        assert dead == [dead[0]] + dead[1..];
        ReleaseFirst();
      }
    }

    method ReleaseFirst()
      requires Valid() && pool != null
      modifies this
      ensures Valid() && live == old(live) && added == old(added)
      ensures pool == old(pool.next) && dead == old(dead)[1..]
      ensures old(pool) !in old(released) && released == old(released) + {old(pool)}
    {
      var c := pool;
      ghost var was := dead;
      assert was == [c] + was[1..] && c !in was[1..];
      assert |was| > 1 ==> c.next == was[1];
      released, dead := released + {c}, was[1..];
      pool := c.next;
    }
  }
}
