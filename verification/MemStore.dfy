/** The in-memory back end: a chain of buffers that grows, and its collapse into one vector. */
module MemStore {
  import opened Bytes
  import opened Values

  const DEF_BUF_SIZE: nat := 1024 * 1024 * 64

  /** The first buffer has the default size; a later one exists only once all before it are full,
      and never empty. */
  predicate ChainShape(segs: seq<seq<byte>>) {
    && segs != []
    && |segs[0]| <= DEF_BUF_SIZE
    && (|segs| > 1 ==> |segs[0]| == DEF_BUF_SIZE)
    && forall i | 1 <= i < |segs| :: segs[i] != []
  }

  /** The collapse loop copies every buffer to the start of the result: each one overwrites the last. */
  function Overlay(segs: seq<seq<byte>>, dst: seq<byte>): (r: seq<byte>)
    requires forall i | 0 <= i < |segs| :: |segs[i]| <= |dst|
    ensures |r| == |dst|
  {
    if segs == [] then dst else Overlay(segs[1..], segs[0] + dst[|segs[0]|..])
  }

  /** What the result holds at each place: the byte of the last segment that is long enough, or what was there before. */
  lemma {:induction false} OverlayAt(segs: seq<seq<byte>>, dst: seq<byte>, i: nat, k: nat)
    requires i < |dst| && (forall j | 0 <= j < |segs| :: |segs[j]| <= |dst|)
    requires k <= |segs| && (forall j | k <= j < |segs| :: |segs[j]| <= i) && (k > 0 ==> i < |segs[k - 1]|)
    ensures Overlay(segs, dst)[i] == if k > 0 then segs[k - 1][i] else dst[i]
    decreases |segs|
  {
    if segs != [] {
      OverlayAt(segs[1..], segs[0] + dst[|segs[0]|..], i, if k > 0 then k - 1 else 0);
    }
  }

  lemma {:induction false} OverlayKeepsEnd(segs: seq<seq<byte>>, dst: seq<byte>)
    requires dst != [] && forall i | 0 <= i < |segs| :: |segs[i]| < |dst|
    ensures Overlay(segs, dst)[|dst| - 1] == dst[|dst| - 1]
  {
    if segs != [] {
      OverlayKeepsEnd(segs[1..], segs[0] + dst[|segs[0]|..]);
    }
  }

  lemma {:induction false} SegmentsFit(segs: seq<seq<byte>>, i: nat)
    requires i < |segs|
    ensures |segs[i]| <= |Concat(segs)|
    ensures (exists j | 0 <= j < |segs| :: j != i && segs[j] != []) ==> |segs[i]| < |Concat(segs)|
  {
    ConcatAppend(segs[..i], segs[i..]);
    ConcatAppend([segs[i]], segs[i + 1..]);
    assert segs == segs[..i] + segs[i..];
    assert segs[i..] == [segs[i]] + segs[i + 1..];
    if j :| 0 <= j < |segs| && j != i && segs[j] != [] {
      if j < i { NonemptyConcat(segs[..i], j); } else { NonemptyConcat(segs[i + 1..], j - i - 1); }
    }
  }

  lemma {:induction false} NonemptyConcat(segs: seq<seq<byte>>, j: nat)
    requires j < |segs| && segs[j] != []
    ensures Concat(segs) != []
  {
    if j > 0 { NonemptyConcat(segs[1..], j - 1); }
  }

  /** Collapsing gives the stored bytes, whatever the fresh vector held, exactly when they all fit in
      the first buffer. */
  lemma CollapseExact(segs: seq<seq<byte>>)
    requires ChainShape(segs)
    ensures forall i | 0 <= i < |segs| :: |segs[i]| <= |Concat(segs)|
    ensures (forall dst: seq<byte> | |dst| == |Concat(segs)| :: Overlay(segs, dst) == Concat(segs))
            <==> |Concat(segs)| <= DEF_BUF_SIZE
  {
    forall i | 0 <= i < |segs| ensures |segs[i]| <= |Concat(segs)| { SegmentsFit(segs, i); }
    if |segs| == 1 {
      assert segs[1..] == [] && Concat(segs[1..]) == [];
    } else {
      var dst := Clobbered(segs);
    }
  }

  /** With a second buffer the last byte of the result is never written. */
  lemma Clobbered(segs: seq<seq<byte>>) returns (dst: seq<byte>)
    requires ChainShape(segs) && |segs| > 1
    ensures |Concat(segs)| > DEF_BUF_SIZE && |dst| == |Concat(segs)|
    ensures (forall i | 0 <= i < |segs| :: |segs[i]| <= |dst|) && Overlay(segs, dst) != Concat(segs)
  {
    hide Concat, Overlay;
    var all := Concat(segs);
    assert segs[1] != [];
    forall i | 0 <= i < |segs| ensures |segs[i]| < |all| {
      SegmentsFit(segs, i);
      assert segs[if i == 0 then 1 else 0] != [];
    }
    dst := all[..|all| - 1] + [if all[|all| - 1] == 0 then 1 else 0];
    OverlayKeepsEnd(segs, dst);
  }

  class Lbuf {
    var len: nat
    var next: Lbuf?
    const d: array<byte>

    constructor (size: nat)
      ensures len == 0 && next == null
      ensures fresh(d) && d.Length == size
    {
      len := 0;
      next := null;
      d := new byte[size];
    }

    /** Copy to the end of what is used. */
    method Append(what: seq<byte>)
      requires len + |what| <= d.Length
      modifies this`len, d
      ensures len == old(len) + |what|
      ensures d[..len] == old(d[..len]) + what
    {
      forall i | 0 <= i < |what| {
        d[len + i] := what[i];
      }
      len := len + |what|;
    }
  }

  /** Allocate a buffer and copy the first bytes into it. */
  method AllocFilled(size: nat, what: seq<byte>) returns (b: Lbuf)
    requires |what| <= size
    ensures fresh(b) && fresh(b.d) && b.d.Length == size
    ensures b.next == null && b.len == |what| && b.d[..b.len] == what
  {
    b := new Lbuf(size);
    b.Append(what);
  }

  /** The linked buffers between `root` and `tail`. */
  class Chain {
    var root: Lbuf
    var tail: Lbuf
    ghost var nodes: seq<Lbuf>
    ghost var segs: seq<seq<byte>>
    ghost var Repr: set<object>

    /** The linked buffers hold `segs`, in order. */
    ghost predicate Valid()
      reads this, Repr
      ensures Valid() ==> this in Repr
    {
      && this in Repr
      && 0 < |nodes| == |segs|
      && root == nodes[0] && tail == nodes[|nodes| - 1]
      && (forall i | 0 <= i < |nodes| :: nodes[i] in Repr && nodes[i].d in Repr)
      && (forall i, j | 0 <= i < j < |nodes| :: nodes[i] != nodes[j] && nodes[i].d != nodes[j].d)
      && (forall i | 0 <= i < |nodes| :: nodes[i].len <= nodes[i].d.Length && nodes[i].d[..nodes[i].len] == segs[i])
      && (forall i | 0 <= i < |nodes| - 1 :: nodes[i].next == nodes[i + 1])
      && tail.next == null
      && root.d.Length == DEF_BUF_SIZE
      && ChainShape(segs)
    }

    constructor ()
      ensures Valid() && fresh(Repr) && segs == [[]]
    {
      var b := new Lbuf(DEF_BUF_SIZE);
      root, tail := b, b;
      nodes, segs := [b], [[]];
      Repr := {this, b, b.d};
    }

    /** Copy bytes that fit to the end of the last buffer. */
    method Fill(what: seq<byte>)
      requires Valid() && tail.len + |what| <= tail.d.Length
      modifies Repr
      ensures Valid() && Repr == old(Repr)
      ensures tail == old(tail)
      ensures segs == Grow(old(segs), what)
      ensures tail.len == old(tail.len) + |what|
    {
      tail.Append(what);
      segs := Grow(segs, what);
    }

    /** Link a new buffer behind a full one, starting with `what`. */
    method Spill(what: seq<byte>, size: nat)
      requires Valid() && tail.len == tail.d.Length && 0 < |what| <= size
      modifies Repr
      ensures Valid() && fresh(Repr - old(Repr))
      ensures segs == old(segs) + [what]
    {
      var b := AllocFilled(size, what);
      tail.next := b;
      tail := b;
      nodes, segs, Repr := nodes + [b], segs + [what], Repr + {b, b.d};
    }

    /** Append bytes to the last buffer, spilling what does not fit into a new one. */
    method BufAdd(what: seq<byte>)
      requires Valid()
      modifies Repr
      ensures Valid() && fresh(Repr - old(Repr))
      ensures Concat(segs) == old(Concat(segs)) + what
    {
      var room := tail.d.Length - tail.len;
      ghost var was := Concat(segs);
      if room < |what| {
        GrowAppends(segs, what[..room]);
        Fill(what[..room]);
        ConcatLast(segs, what[room..]);
        Spill(what[room..], if |what| > DEF_BUF_SIZE then |what| + DEF_BUF_SIZE else DEF_BUF_SIZE);
        Assoc(was, what[..room], what[room..]);
        assert what == what[..room] + what[room..];
      } else {
        GrowAppends(segs, what);
        Fill(what);
      }
    }

    /** A header, then a payload unless the buffer is null. */
    method BufAddBoth(hdr: seq<byte>, buf: Option<seq<byte>>)
      requires Valid()
      modifies Repr
      ensures Valid() && fresh(Repr - old(Repr))
      ensures Concat(segs) == old(Concat(segs)) + hdr + if buf.Some? then buf.value else []
    {
      BufAdd(hdr);
      if buf.Some? {
        BufAdd(buf.value);
      }
    }

    method Total() returns (total: nat)
      requires Valid()
      ensures total == |Concat(segs)|
    {
      total := 0;
      var c: Lbuf? := root;
      ghost var i := 0;
      while c != null
        invariant 0 <= i <= |nodes| && c == (if i < |nodes| then nodes[i] else null)
        invariant total == |Concat(segs[..i])|
        decreases |nodes| - i
      {
        ConcatLast(segs[..i], segs[i]);
        assert segs[..i + 1] == segs[..i] + [segs[i]];
        total := total + c.len;
        c := c.next;
        i := i + 1;
      }
      assert segs[..i] == segs;
    }

    /** Add up the lengths, allocate, and copy each buffer to the start of the new vector. */
    method Collapse() returns (res: array<byte>, ghost unset: seq<byte>)
      requires Valid()
      ensures fresh(res) && |unset| == res.Length == |Concat(segs)|
      ensures forall i | 0 <= i < |segs| :: |segs[i]| <= |unset|
      ensures res[..] == Overlay(segs, unset)
    {
      CollapseExact(segs);
      var total := Total();
      res := new byte[total];
      unset := res[..];
      CopyOut(res);
    }

    /** The copy loop: every buffer in turn, always to the same place. */
    method CopyOut(dst: array<byte>)
      requires Valid() && dst !in Repr
      requires forall i | 0 <= i < |segs| :: |segs[i]| <= dst.Length
      modifies dst
      ensures dst[..] == Overlay(segs, old(dst[..]))
    {
      var c: Lbuf? := root;
      ghost var i := 0;
      while c != null
        invariant 0 <= i <= |nodes| && c == (if i < |nodes| then nodes[i] else null)
        invariant Overlay(segs, old(dst[..])) == Overlay(segs[i..], dst[..])
        decreases |nodes| - i
      {
        ghost var before := dst[..];
        forall j | 0 <= j < c.len {
          dst[j] := c.d[j];
        }
        assert dst[..] == segs[i] + before[|segs[i]|..];
        assert segs[i..][1..] == segs[i + 1..];
        c := c.next;
        i := i + 1;
      }
      assert segs[i..] == [];
    }
  }

  /** The store interface over a chain: `cptr` counts the bytes handed over. */
  class Store {
    const chain: Chain
    var cptr: nat
    ghost var log: seq<Call>

    /** The chain holds exactly the bytes of the calls made so far. */
    ghost predicate Valid()
      reads this, chain, chain.Repr
    {
      && chain.Valid() && this !in chain.Repr
      && Concat(chain.segs) == Flat(log)
      && cptr == |Flat(log)|
    }

    constructor ()
      ensures Valid() && fresh(chain) && fresh(chain.Repr) && log == []
    {
      chain := new Chain();
      cptr, log := 0, [];
      new;
      assert Concat(chain.segs) == [] + Concat(chain.segs[1..]) == [];
    }

    /** One store call: the header word, then the payload. */
    method Add(c: Call)
      requires Valid() && WellCall(c)
      modifies this, chain, chain.Repr
      ensures Valid() && fresh(chain.Repr - old(chain.Repr))
      ensures log == old(log) + [c]
    {
      CallAppends(log, c);
      log := log + [c];
      cptr := cptr + HEADER_SIZE;
      chain.BufAddBoth(Header(c.ts, c.len), c.buf);
      if c.buf.Some? {
        cptr := cptr + PayloadSize(c);
      }
    }
  }
}
