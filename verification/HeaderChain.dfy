/** The recorded headers: a chain of buffers that grows with every line, and its flattening. */
module HeaderChain {
  import opened Bytes
  import opened Http
  import C = Chunked

  const MORE_SIZE: nat := 2048

  /** What is allocated behind the `size` bytes: the structure itself ends in one more byte and padding. */
  const SLACK: nat := 8

  class Buffer {
    var next: Buffer?
    var prev: Buffer?
    var length: nat
    const data: array<byte>

    /** The `size` field: what may be used of the allocated memory. */
    function Size(): int {
      data.Length - SLACK
    }

    /** `alloc_buffer(size, parent)`, apart from the link from the parent. */
    constructor (size: nat, parent: Buffer?)
      ensures next == null && prev == parent && length == 0
      ensures fresh(data) && data.Length == size + SLACK
    {
      next, prev, length := null, parent, 0;
      data := new byte[size + SLACK];
    }

    /** Copy to the end of what is used. */
    method Append(what: seq<byte>)
      requires length + |what| <= data.Length
      modifies this`length, data
      ensures length == old(length) + |what| && data[..length] == old(data[..length]) + what
    {
      forall i | 0 <= i < |what| {
        data[length + i] := what[i];
      }
      length := length + |what|;
    }
  }

  /** The size of a new buffer: the first power of two times 2048 above what it must hold. */
  method Needs(least: nat) returns (needs: nat)
    ensures least < needs && MORE_SIZE <= needs
    ensures needs == MORE_SIZE || needs <= 2 * least
  {
    needs := MORE_SIZE;
    while least >= needs
      invariant MORE_SIZE <= needs && (needs == MORE_SIZE || needs <= 2 * least)
      decreases least - needs
    {
      needs := 2 * needs;
    }
  }

  /** Every buffer but the last is full, and every buffer but the first holds something. */
  predicate Packed(texts: seq<seq<byte>>, root: nat) {
    && (|texts| > 1 ==> |texts[0]| == root)
    && (forall i | 1 <= i < |texts| :: texts[i] != [])
  }

  lemma PackedGrows(texts: seq<seq<byte>>, what: seq<byte>)
    requires texts != [] && Packed(texts, HEADER_BUF_SIZE)
    ensures |texts| > 1 || |texts[0]| + |what| <= HEADER_BUF_SIZE ==> Packed(Grow(texts, what), HEADER_BUF_SIZE)
  {}

  lemma PackedMore(texts: seq<seq<byte>>, what: seq<byte>)
    requires texts != [] && Packed(texts, HEADER_BUF_SIZE) && what != []
    ensures |texts| > 1 || |texts[0]| == HEADER_BUF_SIZE ==> Packed(texts + [what], HEADER_BUF_SIZE)
  {}

  lemma GrowsAtEnd(texts: seq<seq<byte>>, what: seq<byte>)
    requires texts != []
    ensures var r, k := Grow(texts, what), |texts| - 1;
            |r| == |texts| && r[k] == texts[k] + what && forall i | 0 <= i < k :: r[i] == texts[i]
  {}

  class Recorder {
    var last: Buffer?
    ghost var bufs: seq<Buffer>
    ghost var texts: seq<seq<byte>>
    ghost var Repr: set<object>

    /** The buffers from the first to `last`, linked both ways, hold `texts`; none holds more than its size. */
    ghost predicate Valid()
      reads this, Repr
    {
      && this in Repr && |bufs| == |texts|
      && last == (if bufs == [] then null else bufs[|bufs| - 1])
      && (forall i | 0 <= i < |bufs| :: bufs[i] in Repr && bufs[i].data in Repr)
      && (forall i, j | 0 <= i < j < |bufs| :: bufs[i] != bufs[j] && bufs[i].data != bufs[j].data)
      && (forall i | 0 <= i < |bufs| :: bufs[i].length <= bufs[i].Size() && bufs[i].data[..bufs[i].length] == texts[i])
      && (forall i, j | 0 <= i && j == i + 1 && j < |bufs| :: bufs[i].next == bufs[j] && bufs[j].prev == bufs[i])
      && (bufs != [] ==> bufs[0].prev == null && bufs[|bufs| - 1].next == null)
      && (bufs != [] ==> bufs[0].Size() == HEADER_BUF_SIZE && Packed(texts, HEADER_BUF_SIZE))
    }

    ghost function Contents(): seq<byte>
      reads this
    {
      Concat(texts)
    }

    constructor ()
      ensures Valid() && fresh(Repr) && Contents() == [] && last == null
    {
      last, bufs, texts := null, [], [];
      Repr := {this};
    }

    /** The first buffer, if there is none yet. */
    method Begin()
      requires Valid()
      modifies Repr
      ensures Valid() && fresh(Repr - old(Repr)) && last != null && Contents() == old(Contents())
      ensures old(last) != null ==> last == old(last) && last.length == old(last.length) && Repr == old(Repr)
      ensures old(last) == null ==> last.length == 0 && last.Size() == HEADER_BUF_SIZE
    {
      if last == null {
        var b := new Buffer(HEADER_BUF_SIZE, null);
        last := b;
        bufs, texts, Repr := [b], [[]], Repr + {b, b.data};
        assert texts[1..] == [];
      }
    }

    /** Text that fits goes to the end of the last buffer. */
    method Fill(what: seq<byte>)
      requires Valid() && last != null && last.length + |what| <= last.Size()
      modifies Repr
      ensures Valid() && Repr == old(Repr) && last == old(last)
      ensures last.length == old(last.length) + |what| && Contents() == old(Contents()) + what
    {
      GrowAppends(texts, what);
      PackedGrows(texts, what);
      GrowsAtEnd(texts, what);
      hide Concat, Packed, Grow;
      ghost var k := |bufs| - 1;
      assert last == bufs[k] && last.data[..last.length] == texts[k];
      last.Append(what);
      texts := Grow(texts, what);
    }

    /** A new buffer behind a full one. */
    method Extend(what: seq<byte>, size: nat)
      requires Valid() && last != null && last.length == last.Size() && 0 < |what| <= size
      modifies Repr
      ensures Valid() && fresh(Repr - old(Repr)) && Contents() == old(Contents()) + what
    {
      ConcatLast(texts, what);
      var b := NewFilled(size, last, what);
      Attach(b, what);
    }

    method Attach(b: Buffer, ghost what: seq<byte>)
      requires Valid() && last != null && last.length == last.Size() && what != []
      requires b !in Repr && b.data !in Repr && b.next == null && b.prev == last
      requires b.length == |what| <= b.Size() && b.data[..b.length] == what
      modifies this, last`next
      ensures Valid() && Repr == old(Repr) + {b, b.data} && texts == old(texts) + [what]
    {
      PackedMore(texts, what);
      hide Concat, Packed;
      last.next := b;
      last := b;
      bufs, texts, Repr := bufs + [b], texts + [what], Repr + {b, b.data};
    }

    /** The method of the request, as a header of its own, if the first buffer has room for it. */
    method RecordMethod(name: seq<byte>)
      requires Valid() && last == null
      modifies Repr
      ensures Valid() && fresh(Repr - old(Repr))
      ensures Contents() == if 18 + |name| <= HEADER_BUF_SIZE then Text("Request-Method: ") + name + [C.LF] else []
    {
      Begin();
      if last.Size() - last.length >= 18 + |name| {
        var prefix := Text("Request-Method: ");
        Fill(prefix);
        Fill(name);
        Fill([C.LF]);
        assert [] + prefix == prefix;
      }
    }

    /** One header line and its newline, spilling into a new buffer what does not fit. */
    method RecordLine(line: seq<byte>)
      requires Valid()
      modifies Repr
      ensures Valid() && fresh(Repr - old(Repr))
      ensures Contents() == old(Contents()) + if line == [] then [] else line + [C.LF]
    {
      Begin();
      ghost var was := Contents();
      if line != [] {
        if last.length + |line| + 1 > last.Size() {
          var fits := last.Size() - last.length;
          Fill(line[..fits]);
          var needs := Needs(|line| + 1 - fits);
          Extend(line[fits..] + [C.LF], needs);
          Spilled(was, line, fits);
        } else {
          Fill(line + [C.LF]);
        }
      } else {
        assert was + [] == was;
      }
    }

    /** Add up the lengths, allocate, and copy every buffer in turn, not into the result but into the first buffer.  So
        the result keeps what its memory held, `unset`, which is the recorded text only by accident; and the copying
        stays inside the first buffer's memory exactly if the text does, which is where it ends up. */
    method Collect(unset: seq<byte>) returns (res: array<byte>, defined: bool)
      requires Valid() && last != null && |unset| == |Contents()|
      modifies bufs[0].data
      ensures fresh(res) && res.Length == |old(Contents())| && res[..] == unset
      ensures res[..] == old(Contents()) <==> unset == old(Contents())
      ensures defined <==> |old(Contents())| <= HEADER_BUF_SIZE + SLACK
      ensures defined ==> Valid() && Contents() == old(Contents())
      ensures defined ==> bufs[0].data[..|Contents()|] == Contents()
    {
      var root, len := Root();
      res := new byte[len](i requires 0 <= i < len => unset[i]);
      assert res[..] == unset;
      defined := CopyOver(root);
    }

    /** The copy loop: every buffer goes to the next free place behind the first buffer's `data`. */
    method CopyOver(root: Buffer) returns (defined: bool)
      requires Valid() && last != null && root == bufs[0]
      modifies root.data
      ensures Valid()
      ensures defined <==> |Contents()| <= root.data.Length
      ensures defined ==> root.data[..|Contents()|] == Contents()
    {
      var buf: Buffer? := root;
      var dst := 0;
      ghost var i := 0;
      NothingUpTo(texts);
      hide Concat, Packed;
      while buf != null
        invariant 0 <= i <= |bufs| && buf == (if i < |bufs| then bufs[i] else null)
        invariant Valid() && dst == |Concat(texts[..i])| <= root.data.Length
        invariant i > 0 ==> root.length <= dst
        invariant root.data[..dst] == Concat(texts[..i])
        decreases |bufs| - i
      {
        UpTo(texts, i);
        if dst + buf.length > root.data.Length {
          return false;
        }
        CopyOne(root, buf, dst, i);
        dst := dst + buf.length;
        buf := buf.next;
        i := i + 1;
      }
      assert texts[..i] == texts;
      return true;
    }

    /** One copy: the first buffer onto itself, any other behind what the first holds. */
    method CopyOne(root: Buffer, buf: Buffer, dst: nat, ghost i: nat)
      requires Valid() && i < |bufs| && root == bufs[0] && buf == bufs[i]
      requires dst + buf.length <= root.data.Length && (if i == 0 then dst == 0 else root.length <= dst)
      modifies root.data
      ensures Valid() && root.data[..dst + buf.length] == old(root.data[..dst]) + texts[i]
    {
      forall j | 0 <= j < buf.length {
        root.data[dst + j] := buf.data[j];
      }
      assert root.data[..root.length] == old(root.data[..root.length]);
    }

    /** Back to the first buffer, adding up the lengths on the way. */
    method Root() returns (root: Buffer, len: nat)
      requires Valid() && last != null
      ensures root == bufs[0] && len == |Contents()|
    {
      root, len := last, 0;
      ghost var i := |bufs| - 1;
      assert texts[|texts|..] == [];
      while root.prev != null
        invariant 0 <= i < |bufs| && root == bufs[i] && len == |Concat(texts[i + 1..])|
        invariant root.prev == if i > 0 then bufs[i - 1] else null
        decreases i
      {
        assert texts[i..] == [texts[i]] + texts[i + 1..] && texts[i..][1..] == texts[i + 1..];
        len := len + root.length;
        root := root.prev;
        i := i - 1;
      }
      assert texts[0..] == texts && texts[0..][1..] == texts[1..];
      len := len + root.length;
    }
  }

  lemma Spilled(was: seq<byte>, line: seq<byte>, fits: nat)
    requires fits <= |line|
    ensures was + line[..fits] + (line[fits..] + [C.LF]) == was + (line + [C.LF])
  {
    assert line == line[..fits] + line[fits..];
    Assoc(was, line[..fits], line[fits..] + [C.LF]);
    Assoc(line[..fits], line[fits..], [C.LF]);
  }

  method NewFilled(size: nat, parent: Buffer, what: seq<byte>) returns (b: Buffer)
    requires |what| <= size
    ensures fresh(b) && fresh(b.data) && b.data.Length == size + SLACK && b.next == null && b.prev == parent
    ensures b.length == |what| && b.data[..b.length] == what
  {
    b := new Buffer(size, parent);
    b.Append(what);
  }

  lemma NothingUpTo(texts: seq<seq<byte>>)
    ensures Concat(texts[..0]) == []
  {}

  lemma UpTo(texts: seq<seq<byte>>, i: nat)
    requires i < |texts|
    ensures |Concat(texts[..i + 1])| == |Concat(texts[..i])| + |texts[i]| <= |Concat(texts)|
    ensures Concat(texts[..i + 1]) == Concat(texts[..i]) + texts[i]
  {
    assert texts[..i + 1] == texts[..i] + [texts[i]] && texts == texts[..i + 1] + texts[i + 1..];
    ConcatLast(texts[..i], texts[i]);
    ConcatAppend(texts[..i + 1], texts[i + 1..]);
  }

  lemma FirstByte(texts: seq<seq<byte>>)
    requires texts != [] && Packed(texts, HEADER_BUF_SIZE) && Concat(texts) != []
    ensures texts[0] != [] && Concat(texts)[0] == texts[0][0]
  {}

  /** Whatever has been recorded, some memory makes the flattened headers differ from it: so they are right for all
      memory contents exactly if nothing has been recorded. */
  method FlattenedWrongly(rec: Recorder) returns (res: array<byte>)
    requires rec.Valid() && rec.last != null
    modifies rec.bufs[0].data
    ensures res[..] == old(rec.Contents()) <==> old(rec.Contents()) == []
  {
    var root, len := rec.Root();
    if len > 0 { FirstByte(rec.texts); }
    assert root.data[..root.length] == rec.texts[0];
    var other: byte := if len > 0 && root.data[0] == 0 then 1 else 0;
    var unset: seq<byte> := seq(len, _ => other);
    var defined;
    res, defined := rec.Collect(unset);
  }
}
