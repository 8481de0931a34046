/** Counter generators and AEAD nonces (src/proto/crypto.rs). */
module Nonce {
  import opened Bytes

  const WORD := 0x1_0000_0000_0000_0000
  const QUARTER := 0x4000_0000_0000_0000

  /** The four counter ranges of one session key: channel kind times direction. */
  datatype Channel = ClientStream | ServerStream | ClientDatagram | ServerDatagram

  function Base(ch: Channel): u64 {
    match ch
    case ClientStream => 1
    case ServerStream => QUARTER
    case ClientDatagram => 2 * QUARTER
    case ServerDatagram => 3 * QUARTER
  }

  /** How many frames a range has room for. */
  function Capacity(ch: Channel): nat {
    if ch.ClientStream? then QUARTER - 1 else QUARTER
  }

  /** `nonce_for`: 32 zero bits, then the counter, big-endian. */
  function NonceFor(counter: u64): (n: seq<byte>)
    ensures |n| == 12
  {
    [0, 0, 0, 0] + ToBe(counter, 8)
  }

  lemma NonceInjective(a: u64, b: u64)
    requires NonceFor(a) == NonceFor(b)
    ensures a == b
  {
    Pow256Values();
    BeRoundTrip(a, 8);
    BeRoundTrip(b, 8);
    assert NonceFor(a)[4..] == ToBe(a, 8) && NonceFor(b)[4..] == ToBe(b, 8);
  }

  /** The generator shared by every encoder of one channel and direction. */
  class CounterGen {
    const base: u64
    var next: u64

    constructor (ch: Channel)
      ensures base == Base(ch) && next == 0
    {
      base, next := Base(ch), 0;
    }

    method Take() returns (counter: u64)
      requires base + next < WORD && next + 1 < WORD
      modifies this
      ensures counter == base + old(next) && next == old(next) + 1
    {
      counter := base + next;
      next := next + 1;
    }
  }

  // ------------------------------------------------------------------------
  // Runs: the channels in the order in which frames draw their counters
  // ------------------------------------------------------------------------

  function Drawn(run: seq<Channel>, ch: Channel): nat {
    if run == [] then 0
    else Drawn(run[..|run| - 1], ch) + if run[|run| - 1] == ch then 1 else 0
  }

  /** The counter of the k-th frame of a run; not yet known to fit 64 bits. */
  function CounterAt(run: seq<Channel>, k: nat): nat
    requires k < |run|
  {
    Base(run[k]) + Drawn(run[..k], run[k])
  }

  predicate WithinCapacity(run: seq<Channel>) {
    forall ch: Channel :: Drawn(run, ch) <= Capacity(ch)
  }

  lemma {:induction false} DrawnMonotone(run: seq<Channel>, j: nat, k: nat, ch: Channel)
    requires j <= k <= |run|
    ensures Drawn(run[..j], ch) <= Drawn(run[..k], ch)
    decreases k
  {
    if j < k {
      assert run[..k][..k - 1] == run[..k - 1];
      DrawnMonotone(run, j, k - 1, ch);
    }
  }

  /** Each counter lies in the range of its channel. */
  lemma CounterInRange(run: seq<Channel>, k: nat)
    requires WithinCapacity(run) && k < |run|
    ensures Base(run[k]) <= CounterAt(run, k) < Base(run[k]) + Capacity(run[k]) <= WORD
  {
    DrawnMonotone(run, k + 1, |run|, run[k]);
    assert run[..k + 1][..k] == run[..k] && run[..|run|] == run;
  }

  lemma CountersDiffer(run: seq<Channel>, j: nat, k: nat)
    requires WithinCapacity(run) && j < k < |run|
    ensures CounterAt(run, j) != CounterAt(run, k)
  {
    CounterInRange(run, j);
    CounterInRange(run, k);
    DrawnMonotone(run, j + 1, k, run[k]);
    assert run[..j + 1][..j] == run[..j];
  }

  /**
    Nonce uniqueness: in every interleaving of stream frames and datagrams of both peers, within the
    capacity of the ranges, no counter overflows and no two frames use the same nonce.
  */
  lemma NonceUnique(run: seq<Channel>, j: nat, k: nat)
    requires WithinCapacity(run) && j < k < |run|
    ensures CounterAt(run, j) < WORD && CounterAt(run, k) < WORD
    ensures NonceFor(CounterAt(run, j)) != NonceFor(CounterAt(run, k))
  {
    CounterInRange(run, j);
    CounterInRange(run, k);
    CountersDiffer(run, j, k);
    if NonceFor(CounterAt(run, j)) == NonceFor(CounterAt(run, k)) {
      NonceInjective(CounterAt(run, j), CounterAt(run, k));
    }
  }

  // ------------------------------------------------------------------------
  // The capacities are exact
  // ------------------------------------------------------------------------

  /** The m-th draw on a channel, counting from zero. */
  lemma {:induction false} NthDraw(run: seq<Channel>, ch: Channel, m: nat) returns (k: nat)
    requires m < Drawn(run, ch)
    ensures k < |run| && run[k] == ch && Drawn(run[..k], ch) == m
  {
    var n := |run| - 1;
    if m < Drawn(run[..n], ch) {
      k := NthDraw(run[..n], ch, m);
      assert run[..n][..k] == run[..k];
    } else {
      k := n;
    }
  }

  function Following(ch: Channel): Channel {
    match ch
    case ClientStream => ServerStream
    case ServerStream => ClientDatagram
    case _ => ServerDatagram
  }

  /** One frame past a channel's capacity takes the first nonce of the channel above it. */
  lemma PastCapacityRepeats(run: seq<Channel>, ch: Channel) returns (j: nat, k: nat)
    requires !ch.ServerDatagram? && Drawn(run, ch) > Capacity(ch) && Drawn(run, Following(ch)) > 0
    ensures j < |run| && k < |run| && j != k && CounterAt(run, j) == CounterAt(run, k) < WORD
    ensures NonceFor(CounterAt(run, j)) == NonceFor(CounterAt(run, k))
  {
    j := NthDraw(run, ch, Capacity(ch));
    k := NthDraw(run, Following(ch), 0);
  }

  /** One frame past the capacity of the last channel overflows the counter. */
  lemma PastCapacityOverflows(run: seq<Channel>) returns (k: nat)
    requires Drawn(run, ServerDatagram) > Capacity(ServerDatagram)
    ensures k < |run| && CounterAt(run, k) == WORD
  {
    k := NthDraw(run, ServerDatagram, Capacity(ServerDatagram));
  }

  /** With every channel in use, counters are distinct 64-bit values if and only if the run is within the capacities. */
  lemma DistinctExactly(run: seq<Channel>)
    requires forall ch: Channel :: Drawn(run, ch) > 0
    ensures WithinCapacity(run) <==>
      && (forall k :: 0 <= k < |run| ==> CounterAt(run, k) < WORD)
      && (forall j, k :: 0 <= j < k < |run| ==> CounterAt(run, j) != CounterAt(run, k))
  {
    if WithinCapacity(run) {
      forall k | 0 <= k < |run| ensures CounterAt(run, k) < WORD { CounterInRange(run, k); }
      forall j, k | 0 <= j < k < |run| ensures CounterAt(run, j) != CounterAt(run, k) { CountersDiffer(run, j, k); }
    } else {
      var ch: Channel :| Drawn(run, ch) > Capacity(ch);
      if ch.ServerDatagram? {
        var k := PastCapacityOverflows(run);
      } else {
        var j, k := PastCapacityRepeats(run, ch);
      }
    }
  }

  /** The four generators of a session, drawn from in any order, hand out exactly these counters. */
  method DrawAll(run: seq<Channel>) returns (counters: seq<u64>)
    requires WithinCapacity(run)
    ensures |counters| == |run| && forall k :: 0 <= k < |run| ==> counters[k] == CounterAt(run, k)
  {
    var cs := new CounterGen(ClientStream);
    var ss := new CounterGen(ServerStream);
    var cd := new CounterGen(ClientDatagram);
    var sd := new CounterGen(ServerDatagram);
    counters := [];
    for k := 0 to |run|
      invariant |counters| == k && forall i :: 0 <= i < k ==> counters[i] == CounterAt(run, i)
      invariant cs.base == Base(ClientStream) && cs.next == Drawn(run[..k], ClientStream)
      invariant ss.base == Base(ServerStream) && ss.next == Drawn(run[..k], ServerStream)
      invariant cd.base == Base(ClientDatagram) && cd.next == Drawn(run[..k], ClientDatagram)
      invariant sd.base == Base(ServerDatagram) && sd.next == Drawn(run[..k], ServerDatagram)
    {
      hide WithinCapacity;
      CounterInRange(run, k);
      assert run[..k + 1][..k] == run[..k];
      var gen := match run[k] case ClientStream => cs case ServerStream => ss case ClientDatagram => cd case ServerDatagram => sd;
      var c := gen.Take();
      counters := counters + [c];
    }
  }
}
