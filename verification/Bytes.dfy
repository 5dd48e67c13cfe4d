/** Bytes, little-endian words and C strings: the wire vocabulary of the serialiser. */
module Bytes {

  type byte = x: int | 0 <= x < 256

  datatype Option<+T> = None | Some(value: T)

  /** One past the largest `unsigned long`. */
  const WORD: nat := 0x1_0000_0000_0000_0000
  /** Element counts share a word with an eight-bit type code, so 56 bits remain for them. */
  const COUNT_LIMIT: nat := 0x100_0000_0000_0000
  const HEADER_SIZE: nat := 8

  function Pow256(width: nat): (p: nat)
    ensures p > 0
  {
    if width == 0 then 1 else 256 * Pow256(width - 1)
  }

  function ToLittleEndian(n: nat, width: nat): (b: seq<byte>)
    ensures |b| == width
  {
    if width == 0 then [] else [n % 256] + ToLittleEndian(n / 256, width - 1)
  }

  function FromLittleEndian(b: seq<byte>): (n: nat)
    ensures n < Pow256(|b|)
  {
    if b == [] then 0 else b[0] + 256 * FromLittleEndian(b[1..])
  }

  lemma {:induction false} LittleEndianRoundTrip(n: nat, width: nat)
    requires n < Pow256(width)
    ensures FromLittleEndian(ToLittleEndian(n, width)) == n
  {
    if width > 0 {
      LittleEndianRoundTrip(n / 256, width - 1);
      assert ToLittleEndian(n, width)[1..] == ToLittleEndian(n / 256, width - 1);
    }
  }

  lemma EightBytesAreAWord()
    ensures Pow256(HEADER_SIZE) == WORD
  {
    assert Pow256(4) == 0x1_0000_0000 by {
      assert Pow256(2) == 0x1_0000;
    }
    assert Pow256(6) == 0x1_0000_0000_0000;
  }

  /** The length above the type code in one 64-bit word; what does not fit is lost. */
  function HeaderWord(ts: byte, len: nat): (w: nat)
    ensures w < WORD
  {
    (len * 256) % WORD + ts
  }

  function Header(ts: byte, len: nat): (b: seq<byte>)
    ensures |b| == HEADER_SIZE
  {
    ToLittleEndian(HeaderWord(ts, len), HEADER_SIZE)
  }

  lemma ShiftDropsHighByte(len: nat)
    ensures (len * 256) % WORD == (len % COUNT_LIMIT) * 256
  {
    var q, r := len / COUNT_LIMIT, len % COUNT_LIMIT;
    assert len * 256 == q * WORD + r * 256;
    assert 0 <= r * 256 < WORD;
  }

  /** The header gives back the type code always, and the count when it fits in 56 bits. */
  lemma HeaderRoundTrip(ts: byte, len: nat)
    ensures FromLittleEndian(Header(ts, len)) % 256 == ts
    ensures FromLittleEndian(Header(ts, len)) / 256 == len % COUNT_LIMIT
  {
    EightBytesAreAWord();
    LittleEndianRoundTrip(HeaderWord(ts, len), HEADER_SIZE);
    ShiftDropsHighByte(len);
  }

  /** What a C reader sees of a buffer: everything before the first NUL. */
  function CString(s: seq<byte>): (t: seq<byte>)
    ensures |t| <= |s|
    ensures 0 !in t
  {
    if s == [] || s[0] == 0 then [] else [s[0]] + CString(s[1..])
  }

  /** It is what stands in front of the first NUL, or everything. */
  lemma {:induction false} CStringEnds(s: seq<byte>)
    ensures CString(s) <= s && (|CString(s)| < |s| ==> s[|CString(s)|] == 0)
  {
    if s != [] && s[0] != 0 { CStringEnds(s[1..]); }
  }

  lemma {:induction false} CStringOfTerminated(t: seq<byte>, more: seq<byte>)
    requires 0 !in t
    ensures CString(t + [0] + more) == t
  {
    if t == [] {
      assert (t + [0] + more)[0] == 0;
    } else {
      CStringOfTerminated(t[1..], more);
      assert (t + [0] + more)[1..] == t[1..] + [0] + more;
    }
  }

  function Concat<T>(segs: seq<seq<T>>): seq<T> {
    if segs == [] then [] else segs[0] + Concat(segs[1..])
  }

  /** The first `n` of the next `need` elements follow the first `i`. */
  lemma NextPart<T>(s: seq<T>, i: nat, need: nat, n: nat)
    requires n <= need && i + need <= |s|
    ensures s[..i + n] == s[..i] + s[i..i + need][..n]
  {}

  lemma Assoc<T>(a: seq<T>, b: seq<T>, c: seq<T>)
    ensures a + (b + c) == (a + b) + c
  {}

  lemma {:induction false} ConcatAppend<T>(a: seq<seq<T>>, b: seq<seq<T>>)
    ensures Concat(a + b) == Concat(a) + Concat(b)
  {
    if a == [] {
      assert a + b == b;
    } else {
      calc {
        Concat(a + b);
        { assert (a + b)[1..] == a[1..] + b; }
        a[0] + Concat(a[1..] + b);
        { ConcatAppend(a[1..], b); }
        a[0] + (Concat(a[1..]) + Concat(b));
        (a[0] + Concat(a[1..])) + Concat(b);
      }
    }
  }

  lemma ConcatLast<T>(segs: seq<seq<T>>, s: seq<T>)
    ensures Concat(segs + [s]) == Concat(segs) + s
  {
    ConcatAppend(segs, [s]);
    assert [s][1..] == [];
    assert Concat([s]) == s;
  }

  /** The segments with more bytes at the end of the last one. */
  function Grow<T>(segs: seq<seq<T>>, what: seq<T>): seq<seq<T>>
    requires segs != []
  {
    segs[|segs| - 1 := segs[|segs| - 1] + what]
  }

  lemma GrowAppends<T>(segs: seq<seq<T>>, what: seq<T>)
    requires segs != []
    ensures Concat(Grow(segs, what)) == Concat(segs) + what
  {
    hide Concat;
    var front, last := segs[..|segs| - 1], segs[|segs| - 1];
    assert segs == front + [last] && Grow(segs, what) == front + [last + what];
    ConcatLast(front, last);
    ConcatLast(front, last + what);
    Assoc(Concat(front), last, what);
  }
}
