/** The chunked transfer coding: what the server emits and how a receiver reads it back. */
module Chunked {
  import opened Bytes
  import opened Schedules

  const CR: byte := 13
  const LF: byte := 10
  const CRLF: seq<byte> := [CR, LF]

  function HexDigit(d: nat): byte
    requires d < 16
  {
    if d < 10 then 48 + d else 87 + d
  }

  /** Lower-case hexadecimal without leading zeros. */
  function Hex(n: nat): (h: seq<byte>)
    ensures h != []
  {
    if n < 16 then [HexDigit(n)] else Hex(n / 16) + [HexDigit(n % 16)]
  }

  /** What sending one chunk puts on the wire; the empty chunk ends the stream. */
  function ChunkBytes(data: seq<byte>): seq<byte> {
    if data == [] then [48] + CRLF + CRLF else Hex(|data|) + CRLF + data + CRLF
  }

  function Wire(chunks: seq<seq<byte>>): seq<byte> {
    if chunks == [] then [] else ChunkBytes(chunks[0]) + Wire(chunks[1..])
  }

  // A receiver after section 7.1 of RFC 9112, for streams without extensions and trailer fields.

  function HexValue(c: byte): Option<nat> {
    if 48 <= c <= 57 then Some(c - 48)
    else if 97 <= c <= 102 then Some(c - 87)
    else if 65 <= c <= 70 then Some(c - 55)
    else None
  }

  /** The chunk size: at least one hexadecimal digit, then CRLF. */
  function ReadSize(b: seq<byte>, acc: nat, any: bool): (r: Option<(nat, seq<byte>)>)
    ensures r.Some? ==> |r.value.1| < |b|
  {
    if b == [] then None
    else match HexValue(b[0])
      case Some(d) => ReadSize(b[1..], 16 * acc + d, true)
      case None => if any && CRLF <= b then Some((acc, b[2..])) else None
  }

  /** The payload of all chunks up to and including the last, and the bytes after it. */
  function ReadChunks(b: seq<byte>): Option<(seq<byte>, seq<byte>)>
    decreases |b|
  {
    match ReadSize(b, 0, false)
    case None => None
    case Some((n, r)) =>
      if n == 0 then if CRLF <= r then Some(([], r[2..])) else None
      else if |r| < n + 2 || r[n..n + 2] != CRLF then None
      else match ReadChunks(r[n + 2..])
        case None => None
        case Some((data, rest)) => Some((r[..n] + data, rest))
  }

  function Fold(h: seq<byte>, acc: nat): nat {
    if h == [] then acc
    else Fold(h[1..], 16 * acc + match HexValue(h[0]) case Some(d) => d case None => 0)
  }

  predicate AllHex(h: seq<byte>) {
    forall i | 0 <= i < |h| :: HexValue(h[i]).Some?
  }

  lemma {:induction false} ReadDigits(h: seq<byte>, x: seq<byte>, acc: nat, any: bool)
    requires AllHex(h)
    ensures ReadSize(h + x, acc, any) == ReadSize(x, Fold(h, acc), any || h != [])
  {
    if h == [] {
      assert h + x == x;
    } else {
      assert (h + x)[0] == h[0] && (h + x)[1..] == h[1..] + x;
      ReadDigits(h[1..], x, 16 * acc + HexValue(h[0]).value, true);
    }
  }

  lemma {:induction false} FoldSnoc(h: seq<byte>, d: byte, acc: nat)
    requires HexValue(d).Some?
    ensures Fold(h + [d], acc) == 16 * Fold(h, acc) + HexValue(d).value
  {
    if h == [] {
      assert (h + [d])[1..] == [];
    } else {
      assert (h + [d])[1..] == h[1..] + [d];
      FoldSnoc(h[1..], d, 16 * acc + match HexValue(h[0]) case Some(v) => v case None => 0);
    }
  }

  lemma {:induction false} HexFolds(n: nat)
    ensures AllHex(Hex(n)) && Fold(Hex(n), 0) == n
  {
    if n >= 16 {
      HexFolds(n / 16);
      FoldSnoc(Hex(n / 16), HexDigit(n % 16), 0);
    } else {
      assert [HexDigit(n)][1..] == [];
    }
  }

  lemma SizeLineReads(n: nat, r: seq<byte>)
    ensures ReadSize(Hex(n) + (CRLF + r), 0, false) == Some((n, r))
  {
    HexFolds(n);
    ReadDigits(Hex(n), CRLF + r, 0, false);
    assert (CRLF + r)[2..] == r;
  }

  lemma OneChunkReads(data: seq<byte>, r: seq<byte>)
    requires data != []
    ensures ReadChunks(ChunkBytes(data) + r) ==
            match ReadChunks(r)
            case None => None
            case Some((more, rest)) => Some((data + more, rest))
  {
    var body := data + (CRLF + r);
    assert ChunkBytes(data) + r == Hex(|data|) + (CRLF + body);
    SizeLineReads(|data|, body);
    assert body[..|data|] == data && body[|data|..|data| + 2] == CRLF && body[|data| + 2..] == r;
  }

  lemma LastChunkReads(r: seq<byte>)
    ensures ReadChunks(ChunkBytes([]) + r) == Some(([], r))
  {
    var t := CRLF + r;
    assert ChunkBytes([]) + r == [48] + (CRLF + t);
    assert Hex(0) == [48];
    SizeLineReads(0, t);
    assert t[2..] == r;
  }

  /** Non-empty chunks followed by the empty one carry exactly the concatenated payload; whatever comes
      after the first empty chunk is not part of the message. */
  lemma {:induction false} WireReads(chunks: seq<seq<byte>>, r: seq<byte>)
    requires forall i | 0 <= i < |chunks| :: chunks[i] != []
    ensures ReadChunks(Wire(chunks) + (ChunkBytes([]) + r)) == Some((Concat(chunks), r))
  {
    var last := ChunkBytes([]) + r;
    if chunks == [] {
      assert Wire(chunks) + last == last;
      LastChunkReads(r);
    } else {
      WireReads(chunks[1..], r);
      Assoc(ChunkBytes(chunks[0]), Wire(chunks[1..]), last);
      OneChunkReads(chunks[0], Wire(chunks[1..]) + last);
    }
  }

  lemma {:induction false} WireSnoc(chunks: seq<seq<byte>>, c: seq<byte>)
    ensures Wire(chunks + [c]) == Wire(chunks) + ChunkBytes(c)
  {
    if chunks == [] {
      assert (chunks + [c])[1..] == [];
      assert Wire([]) + ChunkBytes(c) == ChunkBytes(c) == ChunkBytes(c) + Wire([]);
    } else {
      assert (chunks + [c])[1..] == chunks[1..] + [c];
      WireSnoc(chunks[1..], c);
      Assoc(ChunkBytes(chunks[0]), Wire(chunks[1..]), ChunkBytes(c));
    }
  }

  lemma {:induction false} HexIsShort(n: nat, k: nat)
    requires k > 0 && n < Pow16(k)
    ensures |Hex(n)| <= k
  {
    if k > 1 && n >= 16 { HexIsShort(n / 16, k - 1); }
  }

  function Pow16(k: nat): (p: nat)
    ensures p > 0
  {
    if k == 0 then 1 else 16 * Pow16(k - 1)
  }

  lemma SixteenDigits(n: nat)
    requires n < WORD
    ensures |Hex(n)| <= 16
  {
    assert Pow16(4) == 0x1_0000;
    assert Pow16(8) == 0x1_0000_0000;
    assert Pow16(12) == 0x1_0000_0000_0000;
    HexIsShort(n, 16);
  }

  const MAX_SEND: nat := 1024 * 1024

  /** The three sends of a chunk, or the one of the empty chunk. */
  function PiecesOf(data: seq<byte>): seq<seq<byte>> {
    if data == [] then [[48] + CRLF + CRLF] else [Hex(|data|) + CRLF, data, CRLF]
  }

  function Pieces(chunks: seq<seq<byte>>): seq<seq<byte>> {
    if chunks == [] then [] else PiecesOf(chunks[0]) + Pieces(chunks[1..])
  }

  lemma PiecesOfChunk(data: seq<byte>)
    ensures Concat(PiecesOf(data)) == ChunkBytes(data)
  {
    hide Hex;
    var last := [48] + CRLF + CRLF;
    OnePiece([], last, 1);
    OnePiece([], CRLF, 1);
    if data != [] {
      var line := Hex(|data|) + CRLF;
      assert PiecesOf(data)[1..] == [data, CRLF] && [data, CRLF][1..] == [CRLF];
      Assoc(line, data, CRLF);
    }
  }

  lemma {:induction false} PiecesAreWire(chunks: seq<seq<byte>>)
    ensures Concat(Pieces(chunks)) == Wire(chunks)
  {
    if chunks != [] {
      PiecesOfChunk(chunks[0]);
      ConcatAppend(PiecesOf(chunks[0]), Pieces(chunks[1..]));
      PiecesAreWire(chunks[1..]);
    }
  }

  lemma {:induction false} PiecesSnoc(chunks: seq<seq<byte>>, c: seq<byte>)
    ensures Pieces(chunks + [c]) == Pieces(chunks) + PiecesOf(c)
  {
    if chunks == [] {
      assert (chunks + [c])[1..] == [];
    } else {
      assert (chunks + [c])[1..] == chunks[1..] + [c];
      PiecesSnoc(chunks[1..], c);
      Assoc(PiecesOf(chunks[0]), Pieces(chunks[1..]), PiecesOf(c));
    }
  }

  /** The sending side of a connection, and how its next sends turn out. */
  class Connection {
    var sent: seq<byte>
    var script: seq<int>

    constructor (script: seq<int>)
      ensures sent == [] && this.script == script
    {
      sent, this.script := [], script;
    }

    method SocketSend(buf: seq<byte>) returns (n: int)
      modifies this
      ensures n == Taken(old(script), |buf|) && script == After(old(script))
      ensures sent == old(sent) + if n > 0 then buf[..n] else []
    {
      n := Taken(script, |buf|);
      script := After(script);
      if n > 0 { sent := sent + buf[..n]; }
    }

    /** Send everything: 0 on success, 1 if the peer closed, -1 on error; the schedule decides which. */
    method Send(buf: seq<byte>) returns (r: int)
      modifies this
      ensures var s := SendOf(old(script), |buf|, MAX_SEND);
              r == s.code && script == s.script && sent == old(sent) + buf[..s.took]
    {
      var i, len := 0, |buf|;
      while len > 0
        invariant 0 <= i && 0 <= len && i + len == |buf|
        invariant sent == old(sent) + buf[..i]
        invariant var s := SendOf(script, len, MAX_SEND); SendOf(old(script), |buf|, MAX_SEND) == s.(took := i + s.took)
      {
        var ts := if len > MAX_SEND then MAX_SEND else len;
        var n := SocketSend(buf[i..i + ts]);
        if n < 1 {
          return if n < 0 then -1 else 1;
        }
        NextPart(buf, i, ts, n);
        len := len - n;
        i := i + n;
      }
      assert buf[..i] == buf;
      return 0;
    }

    /** The size line: count the digits, fill them in from the last, append CRLF. */
    method SizeLine(len: nat) returns (sz: array<byte>, n: nat)
      requires 0 < len < WORD
      ensures fresh(sz) && n <= sz.Length && sz[..n] == Hex(len) + CRLF
    {
      SixteenDigits(len);
      var szl, l := 0, len;
      while l > 0
        invariant szl + (if l == 0 then 0 else |Hex(l)|) == |Hex(len)|
      {
        szl := szl + 1;
        l := l / 16;
      }
      sz := new byte[20];
      var sc := szl - 1;
      l := len;
      while l > 0
        invariant -1 <= sc < szl <= 16 && szl == |Hex(len)| && fresh(sz)
        invariant sc + 1 == if l == 0 then 0 else |Hex(l)|
        invariant Hex(len) == (if l == 0 then [] else Hex(l)) + sz[sc + 1..szl]
        decreases l
      {
        ghost var tail := sz[sc + 1..szl];
        sz[sc] := HexDigit(l % 16);
        assert sz[sc..szl] == [HexDigit(l % 16)] + tail;
        sc := sc - 1;
        l := l / 16;
      }
      sz[szl] := CR;
      sz[szl + 1] := LF;
      assert sz[0..szl] == Hex(len);
      n := szl + 2;
    }

    /** One chunk: size line, payload, CRLF; stops at the first failure. */
    method SendChunk(buf: seq<byte>) returns (r: int)
      requires |buf| < WORD
      modifies this
      ensures var s := SendAll(old(script), PiecesOf(buf), MAX_SEND);
              r == s.code && script == s.script && s.took <= |ChunkBytes(buf)|
              && sent == old(sent) + ChunkBytes(buf)[..s.took]
    {
      PiecesOfChunk(buf);
      if |buf| == 0 {
        OnePiece(script, [48] + CRLF + CRLF, MAX_SEND);
        r := Send([48] + CRLF + CRLF);
        return;
      }
      var sz, n := SizeLine(|buf|);
      r := SendThree(sz[..n], buf, CRLF);
      hide SendAll, Concat;
    }

    method SendThree(a: seq<byte>, b: seq<byte>, c: seq<byte>) returns (r: int)
      modifies this
      ensures var s := SendAll(old(script), [a, b, c], MAX_SEND);
              r == s.code && script == s.script && sent == old(sent) + Concat([a, b, c])[..s.took]
    {
      r := Send(a);
      ThreePieces(old(script), a, b, c);
      if r != 0 { return; }
      r := SendTwo(b, c);
      hide SendAll, SendOf, Concat;
      Assoc(old(sent), a, Concat([b, c])[..SendAll(SendOf(old(script), |a|, MAX_SEND).script, [b, c], MAX_SEND).took]);
    }

    method SendTwo(b: seq<byte>, c: seq<byte>) returns (r: int)
      modifies this
      ensures var s := SendAll(old(script), [b, c], MAX_SEND);
              r == s.code && script == s.script && sent == old(sent) + Concat([b, c])[..s.took]
    {
      hide SendAll, Concat;
      assert [b] + [c] == [b, c];
      FirstPiece(script, b, [c], MAX_SEND);
      r := Send(b);
      if r != 0 { return; }
      OnePiece(script, c, MAX_SEND);
      r := Send(c);
    }
  }

  lemma ThreePieces(script: seq<int>, a: seq<byte>, b: seq<byte>, c: seq<byte>)
    ensures var p, r := SendOf(script, |a|, MAX_SEND), SendAll(script, [a, b, c], MAX_SEND);
            if p.code != 0 then r == p && Concat([a, b, c])[..r.took] == a[..p.took]
            else
              var q := SendAll(p.script, [b, c], MAX_SEND);
              r == q.(took := |a| + q.took) && Concat([a, b, c])[..r.took] == a + Concat([b, c])[..q.took]
  {
    hide *;
    assert [a] + [b, c] == [a, b, c];
    FirstPiece(script, a, [b, c], MAX_SEND);
  }
}
