/** Allocating session ids on the client (src/proto/mux.rs): a wrapping counter that skips zero and ids in use. */
module SidAllocator {
  import opened Bytes
  import opened Counting

  const WORD: nat := 0x1_0000_0000

  /** The id d steps after next. */
  function Ahead(next: u32, d: nat): u32 { (next + d) % WORD }

  predicate Usable(used: set<u32>, sid: u32) { sid != 0 && sid !in used }

  /** The ids 1 .. n. */
  function Ids(n: nat): set<nat> { if n == 0 then {} else Ids(n - 1) + {n} }

  lemma {:induction false} IdsSize(n: nat)
    ensures |Ids(n)| == n && forall i :: i in Ids(n) ==> 1 <= i <= n
  {
    if n > 0 { IdsSize(n - 1); }
  }

  /** With fewer than 2^32 - 1 ids in use one is left. */
  lemma SomeUsable(used: set<u32>) returns (sid: u32)
    requires |used| < WORD - 1
    ensures Usable(used, sid)
  {
    IdsSize(WORD - 1);
    if Ids(WORD - 1) <= used { CardinalityMonotone(Ids(WORD - 1), used); }
    var i :| i in Ids(WORD - 1) && i !in used;
    sid := i;
  }

  /** How far ahead an id lies. */
  function Distance(next: u32, sid: u32): (d: nat)
    ensures d < WORD && Ahead(next, d) == sid
  {
    if sid >= next then sid - next else sid + WORD - next
  }

  class MuxInner {
    /** The ids with a TCP route and with a UDP route. */
    var sessions: set<u32>
    var udp: set<u32>
    var nextSid: u32

    /** The counter starts anywhere. */
    constructor (base: u32)
      ensures sessions == {} && udp == {} && nextSid == base
    {
      sessions, udp, nextSid := {}, {}, base;
    }

    /** `alloc_sid` ends, with the first usable id at or after the counter. */
    method AllocSid() returns (sid: u32)
      requires |sessions + udp| < WORD - 1
      modifies this`nextSid
      ensures Usable(sessions + udp, sid) && nextSid == Ahead(sid, 1)
      ensures forall d :: 0 <= d < Distance(old(nextSid), sid) ==> !Usable(sessions + udp, Ahead(old(nextSid), d))
    {
      ghost var free := SomeUsable(sessions + udp);
      ghost var start, d := nextSid, 0;
      while true
        invariant d <= Distance(start, free) && nextSid == Ahead(start, d)
        invariant forall e :: 0 <= e < d ==> !Usable(sessions + udp, Ahead(start, e))
        decreases Distance(start, free) - d
      {
        var v := nextSid;
        nextSid := (nextSid + 1) % WORD;
        AheadNext(start, d);
        if v != 0 && v !in sessions && v !in udp {
          DistanceOf(start, d);
          return v;
        }
        d := d + 1;
      }
    }
  }

  lemma AheadNext(next: u32, d: nat)
    ensures Ahead(next, d + 1) == (Ahead(next, d) + 1) % WORD
  {
  }

  lemma DistanceOf(next: u32, d: nat)
    requires d < WORD
    ensures Distance(next, Ahead(next, d)) == d
  {
  }

  /** As long as fewer than 2^32 - 1 ids were drawn, ids drawn at different times differ. */
  lemma NoReuse(next: u32, i: nat, j: nat)
    requires i < j < WORD
    ensures Ahead(next, i) != Ahead(next, j)
  {
    DistanceOf(next, i);
    DistanceOf(next, j);
  }
}
