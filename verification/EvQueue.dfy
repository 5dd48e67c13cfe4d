/** The event queue: a doubly linked list with pushes at both ends and removal anywhere. */
module EvQueue {
  import opened Bytes

  class Entry {
    var prev: Entry?
    var next: Entry?
    ghost var owner: Queue?

    constructor ()
      ensures Detached()
    {
      prev, next, owner := null, null, null;
    }

    /** On no queue, and ready to be pushed. */
    ghost predicate Detached()
      reads this
    {
      prev == null && next == null && owner == null
    }
  }

  class Queue {
    var head: Entry?
    var tail: Entry?
    ghost var items: seq<Entry>
    ghost var pushed: seq<Entry>   // every push so far, in order
    ghost var popped: seq<Entry>   // every entry taken out so far, in order
    ghost var fifo: bool           // only pushes at the back and removals at the front so far

    /** The links in both directions spell out `items`, and each of those entries belongs here. */
    ghost predicate Linked()
      reads `head, `tail, `items, items
    {
      && head == (if items == [] then null else items[0])
      && tail == (if items == [] then null else items[|items| - 1])
      && (forall i, j | 0 <= i < j < |items| :: items[i] != items[j])
      && (forall i | 0 <= i < |items| :: items[i].owner == this)
      && (forall i, j | 0 <= i && j == i + 1 && j < |items| :: items[i].next == items[j] && items[j].prev == items[i])
      && (items != [] ==> items[0].prev == null && items[|items| - 1].next == null)
    }

    /** The list is intact, and what was pushed is waiting or was taken out. */
    ghost predicate Valid()
      reads this, items
    {
      Linked() && Accounted(popped, items, pushed, fifo)
    }

    constructor ()
      ensures Valid() && items == pushed == popped == [] && fifo
    {
      head, tail, items := null, null, [];
      pushed, popped, fifo := [], [], true;
    }

    method Push(e: Entry, front: bool)
      requires Valid() && e.Detached()
      modifies this, items, e
      ensures Valid() && items == if front then [e] + old(items) else old(items) + [e]
      ensures pushed == old(pushed) + [e] && popped == old(popped) && fifo == (old(fifo) && !front)
      ensures multiset(popped) + multiset(items) == multiset(pushed) && (fifo ==> popped + items == pushed)
    {
      hide Linked, Accounted;
      PutIn(popped, items, pushed, fifo, e, front);
      Insert(e, front);
      pushed, fifo := pushed + [e], fifo && !front;
    }

    method Insert(e: Entry, front: bool)
      requires Linked() && e.Detached()
      modifies `head, `tail, `items, items, e
      ensures Linked() && items == if front then [e] + old(items) else old(items) + [e]
    {
      ghost var was := items;
      e.owner := this;
      if head == null {
        head, tail := e, e;
        items := [e];
      } else if front {
        var h := head;
        e.next := h;
        h.prev := e;
        head := e;
        items := [e] + was;
        assert forall i | 1 <= i < |items| :: items[i] == was[i - 1];
      } else {
        var t := tail;
        e.prev := t;
        t.next := e;
        tail := e;
        items := was + [e];
        assert forall i | 0 <= i < |was| :: items[i] == was[i];
      }
    }

    /** Take out an entry at any position; the entry is left fully detached. */
    method Remove(e: Entry, ghost k: nat)
      requires Valid() && k < |items| && items[k] == e
      modifies this, items
      ensures Valid() && e.Detached()
      ensures items == old(items)[..k] + old(items)[k + 1..]
      ensures pushed == old(pushed) && popped == old(popped) + [e] && fifo == (old(fifo) && k == 0)
      ensures multiset(popped) + multiset(items) == multiset(pushed) && (fifo ==> popped + items == pushed)
    {
      hide Linked, Accounted;
      TakenOut(popped, items, pushed, fifo, k);
      Unlink(e, k);
      popped, fifo := popped + [e], fifo && k == 0;
    }

    method Unlink(e: Entry, ghost k: nat)
      requires Linked() && k < |items| && items[k] == e
      modifies `head, `tail, `items, items
      ensures Linked() && e.Detached()
      ensures items == old(items)[..k] + old(items)[k + 1..]
    {
      ghost var was := items;
      assert e.next == if k + 1 < |was| then was[k + 1] else null;
      assert e.prev == if k > 0 then was[k - 1] else null;
      if e == head { head := e.next; }
      if e == tail { tail := e.prev; }
      if e.next != null { e.next.prev := e.prev; }
      if e.prev != null { e.prev.next := e.next; }
      e.next, e.prev := null, null;
      e.owner := null;
      items := was[..k] + was[k + 1..];
      assert forall i | 0 <= i < |items| :: items[i] == was[if i < k then i else i + 1];
    }

    method Pop() returns (e: Entry?)
      requires Valid()
      modifies this, items
      ensures Valid()
      ensures old(items) == [] ==> e == null && items == []
      ensures old(items) != [] ==> e == old(items)[0] && e.Detached() && items == old(items)[1..]
      ensures pushed == old(pushed) && popped == old(popped) + (if e == null then [] else [e]) && fifo == old(fifo)
      ensures multiset(popped) + multiset(items) == multiset(pushed) && (fifo ==> popped + items == pushed)
    {
      e := head;
      if e != null {
        Remove(e, 0);
      }
    }
  }

  /** An entry is on at most one queue. */
  lemma OneQueue(q: Queue, r: Queue, e: Entry)
    requires q.Valid() && r.Valid() && e in q.items && e in r.items
    ensures q == r
  {}

  /** Moving the first entry from one queue to the end of another leaves both lists intact. */
  method Transfer(q: Queue, r: Queue)
    requires q != r && q.Valid() && r.Valid() && q.items != []
    modifies q, r, q.items, r.items
    ensures q.Valid() && r.Valid()
    ensures q.items == old(q.items)[1..] && r.items == old(r.items) + [old(q.items)[0]]
    ensures q.popped == old(q.popped) + [old(q.items)[0]] && r.pushed == old(r.pushed) + [old(q.items)[0]]
    ensures forall x | x in q.items :: x !in r.items
  {
    ghost var a, b := q.items, r.items;
    assert forall x | x in b :: x !in a by {
      forall x | x in b ensures x !in a { if x in a { OneQueue(q, r, x); } }
    }
    var e := q.Pop();
    r.Push(e, false);
  }

  // The books of a queue.

  /** What was pushed is waiting or was taken out, each push once; and while pushes went to the back and removals were
      at the front only, in the order of the pushes. */
  ghost predicate Accounted<T>(popped: seq<T>, items: seq<T>, pushed: seq<T>, fifo: bool) {
    multiset(popped) + multiset(items) == multiset(pushed) && (fifo ==> popped + items == pushed)
  }

  lemma PutIn<T>(popped: seq<T>, items: seq<T>, pushed: seq<T>, fifo: bool, x: T, front: bool)
    requires Accounted(popped, items, pushed, fifo)
    ensures Accounted(popped, if front then [x] + items else items + [x], pushed + [x], fifo && !front)
  {
    Assoc(popped, items, [x]);
  }

  lemma TakenOut<T>(popped: seq<T>, items: seq<T>, pushed: seq<T>, fifo: bool, k: nat)
    requires k < |items| && Accounted(popped, items, pushed, fifo)
    ensures Accounted(popped + [items[k]], items[..k] + items[k + 1..], pushed, fifo && k == 0)
  {
    assert items == items[..k] + [items[k]] + items[k + 1..];
  }
}
