/** The pool's task queue: a circular list through a sentinel. */
module TaskRing {

  class Node {
    var prev: Node?
    var next: Node?
    const conn: int

    constructor (conn: int)
      ensures this.conn == conn && prev == null && next == null
    {
      this.conn, prev, next := conn, null, null;
    }
  }

  /** Once round the ring, from the sentinel back to the sentinel. */
  ghost function Round(root: Node, items: seq<Node>): (r: seq<Node>)
    ensures |r| == |items| + 2 && r[0] == r[|items| + 1] == root
    ensures forall i | 0 <= i < |items| :: r[i + 1] == items[i]
  {
    [root] + items + [root]
  }

  lemma RoundSnoc(root: Node, was: seq<Node>, me: Node)
    ensures var s, n := Round(root, was + [me]), |was|;
            |s| == n + 3 && s[n + 1] == me && s[n + 2] == root && forall i | 0 <= i <= n :: s[i] == Round(root, was)[i]
  {}

  ghost predicate Linked(s: seq<Node>)
    reads s
  {
    forall i, j | 0 <= i && j == i + 1 && j < |s| :: s[i].next == s[j] && s[j].prev == s[i]
  }

  class Ring {
    const root: Node
    ghost var items: seq<Node>

    /** Both directions of the ring spell out the tasks, first come first. */
    ghost predicate Valid()
      reads this, root, items
    {
      && root !in items && (forall i, j | 0 <= i < j < |items| :: items[i] != items[j])
      && Linked(Round(root, items))
    }

    constructor ()
      ensures Valid() && items == [] && fresh(root)
    {
      var r := new Node(-1);
      root, items := r, [];
      new;
      root.next, root.prev := root, root;
    }

    /** A new task goes to the end. */
    method Add(me: Node)
      requires Valid() && me != root && me !in items
      modifies `items, root, items, me
      ensures Valid() && items == old(items) + [me]
    {
      ghost var was := items;
      assert root.prev == Round(root, was)[|was|];
      me.next := root;
      me.prev := root.prev;
      if me.prev != null { me.prev.next := me; }
      root.prev := me;
      items := was + [me];
      RoundSnoc(root, was, me);
    }

    /** The first task leaves; its own links are not touched. */
    method TakeFirst() returns (me: Node?)
      requires Valid()
      modifies `items, root, items
      ensures Valid()
      ensures old(items) == [] ==> me == null && items == []
      ensures old(items) != [] ==> me == old(items)[0] && items == old(items)[1..]
    {
      ghost var was := items;
      assert root.next == Round(root, was)[1];
      me := root.next;
      if me == root { return null; }
      assert was != [] && me == was[0] && me.next == Round(root, was)[2];
      root.next := me.next;
      if me.next != null { me.next.prev := root; }
      items := was[1..];
      ghost var s := Round(root, items);
      assert forall i | 1 <= i < |s| :: s[i] == Round(root, was)[i + 1];
    }
  }
}
