/** Schedules of writes and sends: how much is taken each time, and what comes of the pieces to be sent. */
module Schedules {
  import opened Bytes

  /** How one send of at most `size` bytes turns out: -1 for a failure, 0 if the peer has closed, else how much was taken;
      once the schedule is used up, everything offered is. */
  function Taken(script: seq<int>, size: nat): (n: int)
    ensures -1 <= n <= size
  {
    if script == [] || script[0] > size then size else if script[0] < 0 then -1 else script[0]
  }

  function After(script: seq<int>): seq<int> {
    if script == [] then [] else script[1..]
  }

  /** The result code, the rest of the schedule, and how many bytes have left. */
  datatype Sending = Sending(code: int, script: seq<int>, took: nat)

  /** The loop over `n` bytes, at most `max` of them offered at a time. */
  function SendOf(script: seq<int>, n: nat, max: nat): (r: Sending)
    ensures r.took <= n && (r.code == 0 ==> r.took == n)
    decreases n
  {
    if n == 0 then Sending(0, script, 0) else
      var taken := Taken(script, if n > max then max else n);
      if taken < 1 then Sending(if taken < 0 then -1 else 1, After(script), 0)
      else var r := SendOf(After(script), n - taken, max); r.(took := taken + r.took)
  }

  /** One piece after the other, up to the first that fails. */
  function SendAll(script: seq<int>, pieces: seq<seq<byte>>, max: nat): (r: Sending)
    ensures r.took <= |Concat(pieces)| && (r.code == 0 ==> r.took == |Concat(pieces)|)
    decreases |pieces|
  {
    if pieces == [] then Sending(0, script, 0) else
      var first := SendOf(script, |pieces[0]|, max);
      if first.code != 0 then first
      else var r := SendAll(first.script, pieces[1..], max); r.(took := first.took + r.took)
  }

  lemma OnePiece(script: seq<int>, piece: seq<byte>, max: nat)
    ensures SendAll(script, [piece], max) == SendOf(script, |piece|, max) && Concat([piece]) == piece
  {
    var none: seq<seq<byte>> := [];
    assert [piece][1..] == none;
  }

  /** What is sent later does not change how the earlier pieces fared. */
  lemma {:induction false} SendAllAppend(script: seq<int>, a: seq<seq<byte>>, b: seq<seq<byte>>, max: nat)
    ensures var r := SendAll(script, a, max);
            SendAll(script, a + b, max) == if r.code != 0 then r else var q := SendAll(r.script, b, max); q.(took := r.took + q.took)
    decreases |a|
  {
    if a == [] {
      assert a + b == b;
    } else {
      assert (a + b)[0] == a[0] && (a + b)[1..] == a[1..] + b;
      SendAllAppend(SendOf(script, |a[0]|, max).script, a[1..], b, max);
    }
  }

  /** With `k` entries of the schedule used: the code is 0 exactly if none of them is below 1; and otherwise it is the last
      of them that is, with -1 for an error and 1 for a closed peer. */
  predicate UsedUp(script: seq<int>, r: Sending, k: nat)
    requires k <= |script|
  {
    && r.script == script[k..]
    && (r.code == 0 <==> forall i | 0 <= i < k :: script[i] >= 1)
    && (r.code != 0 ==>
          && k > 0 && (forall i | 0 <= i < k - 1 :: script[i] >= 1) && script[k - 1] < 1
          && r.code == if script[k - 1] < 0 then -1 else 1)
  }

  lemma {:induction false} SendOfExact(script: seq<int>, n: nat, max: nat) returns (k: nat)
    requires max > 0
    ensures k <= |script| && UsedUp(script, SendOf(script, n, max), k)
    decreases n
  {
    k := 0;
    if n > 0 {
      var taken := Taken(script, if n > max then max else n);
      if taken >= 1 {
        k := SendOfExact(After(script), n - taken, max);
        if script != [] { k := k + 1; }
      } else {
        k := 1;
      }
    }
  }

  /** Nothing but successes, and then what came next. */
  lemma UsedOn(script: seq<int>, r: Sending, k: nat, q: Sending, j: nat, took: nat)
    requires k <= |script| && UsedUp(script, r, k) && r.code == 0 && j <= |r.script| && UsedUp(r.script, q, j)
    ensures k + j <= |script| && UsedUp(script, q.(took := took), k + j)
  {
    assert forall i | 0 <= i < j :: script[k..][i] == script[k + i];
    assert forall i | k <= i < k + j :: script[i] == script[k..][i - k];
  }

  /** Whether everything is sent is decided by the sends that were made and nothing else. */
  lemma {:induction false} SendAllExact(script: seq<int>, pieces: seq<seq<byte>>, max: nat) returns (k: nat)
    requires max > 0
    ensures k <= |script| && UsedUp(script, SendAll(script, pieces, max), k)
    decreases |pieces|
  {
    hide SendAll, SendOf, UsedUp;
    FirstOfAll(script, pieces, max);
    if pieces == [] {
      k := 0;
      NothingUsed(script);
    } else {
      var r := SendOf(script, |pieces[0]|, max);
      k := SendOfExact(script, |pieces[0]|, max);
      CodeIsZero(script, r, k);
      if r.code == 0 {
        var q := SendAll(r.script, pieces[1..], max);
        var j := SendAllExact(r.script, pieces[1..], max);
        UsedOn(script, r, k, q, j, r.took + q.took);
        k := k + j;
      }
    }
  }

  lemma NothingUsed(script: seq<int>)
    ensures UsedUp(script, Sending(0, script, 0), 0)
  {}

  lemma FirstOfAll(script: seq<int>, pieces: seq<seq<byte>>, max: nat)
    ensures pieces == [] ==> SendAll(script, pieces, max) == Sending(0, script, 0)
    ensures pieces != [] ==>
              var r := SendOf(script, |pieces[0]|, max);
              SendAll(script, pieces, max) ==
              if r.code != 0 then r else
                var q := SendAll(r.script, pieces[1..], max); q.(took := r.took + q.took)
  {}

  lemma CodeIsZero(script: seq<int>, r: Sending, k: nat)
    requires k <= |script| && UsedUp(script, r, k)
    ensures r.script == script[k..]
  {}

  /** The first piece, and then the others. */
  lemma FirstPiece(script: seq<int>, a: seq<byte>, more: seq<seq<byte>>, max: nat)
    ensures var p, r := SendOf(script, |a|, max), SendAll(script, [a] + more, max);
            if p.code != 0 then r == p && Concat([a] + more)[..r.took] == a[..p.took]
            else
              var q := SendAll(p.script, more, max);
              r == q.(took := |a| + q.took) && Concat([a] + more)[..r.took] == a + Concat(more)[..q.took]
  {
    assert ([a] + more)[1..] == more;
  }
}
