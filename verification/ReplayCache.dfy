/** The nonce cache every authentication goes through (src/server/state.rs). */
module ReplayCache {
  import opened Bytes
  import opened Text
  import opened Bearer
  import Counting

  const NONCE_CAP := 50_000

  /** One call of the cache: whose nonce, when the message was verified and when the cache was reached. */
  datatype Attempt = Attempt(uid: Str, ts: u64, nonce: seq<byte>, verifiedAt: u64, recordedAt: u64)

  type Cache = map<Str, u64>

  predicate SameMessage(a: Attempt, b: Attempt) {
    a.uid == b.uid && a.ts == b.ts && a.nonce == b.nonce
  }

  function Key(a: Attempt): Str { a.uid + [BAR] + Decimal(a.ts) + [BAR] + Hex(a.nonce) }

  /** Distinct messages have distinct keys, whatever the uid contains. */
  lemma KeyInjective(a: Attempt, b: Attempt)
    ensures Key(a) == Key(b) <==> SameMessage(a, b)
  {
    if Key(a) == Key(b) {
      HexIsHex(a.nonce);
      HexIsHex(b.nonce);
      LastSeparator(a.uid + [BAR] + Decimal(a.ts), Hex(a.nonce), b.uid + [BAR] + Decimal(b.ts), Hex(b.nonce), BAR);
      NoBars(a.ts);
      NoBars(b.ts);
      LastSeparator(a.uid, Decimal(a.ts), b.uid, Decimal(b.ts), BAR);
      DecimalValue(a.ts);
      DecimalValue(b.ts);
      UnhexHex(a.nonce);
      UnhexHex(b.nonce);
    }
  }

  lemma NoBars(n: nat)
    ensures BAR !in Decimal(n)
  {
    assert forall i :: 0 <= i < |Decimal(n)| ==> IsDigit(Decimal(n)[i]);
  }

  function Cutoff(now: u64): nat { SatSub(now, 2 * AUTH_WINDOW) }

  function Purged(c: Cache, now: u64): Cache { map k | k in c && c[k] > Cutoff(now) :: c[k] }

  /** Is the message admitted? */
  predicate Admits(c: Cache, a: Attempt) {
    Key(a) !in c && |Purged(c, a.recordedAt)| < NONCE_CAP
  }

  /** The cache after the call. */
  function Recorded(c: Cache, a: Attempt): Cache {
    if Key(a) in c then c
    else
      var p := Purged(c, a.recordedAt);
      if |p| >= NONCE_CAP then p else p[Key(a) := a.ts]
  }

  function After(log: seq<Attempt>): Cache {
    if log == [] then map[] else Recorded(After(log[..|log| - 1]), log[|log| - 1])
  }

  predicate Accepted(log: seq<Attempt>, i: nat)
    requires i < |log|
  {
    Admits(After(log[..i]), log[i])
  }

  // ------------------------------------------------------------------------
  // Every run of the cache
  // ------------------------------------------------------------------------

  lemma {:induction false} CacheBounded(log: seq<Attempt>)
    ensures |After(log)| <= NONCE_CAP
  {
    if log != [] {
      var c, now := After(log[..|log| - 1]), log[|log| - 1].recordedAt;
      CacheBounded(log[..|log| - 1]);
      Counting.CardinalityMonotone(Purged(c, now).Keys, c.Keys);
      assert |Purged(c, now).Keys| == |Purged(c, now)| && |c.Keys| == |c|;
    }
  }

  /** Call k goes through the cache and purges everything up to ts; a call refused as a duplicate purges nothing. */
  predicate Purges(log: seq<Attempt>, k: nat, ts: u64)
    requires k < |log|
  {
    Key(log[k]) !in After(log[..k]) && Cutoff(log[k].recordedAt) >= ts
  }

  predicate PurgedBetween(log: seq<Attempt>, i: nat, j: nat, ts: u64)
    requires j <= |log|
  {
    exists k :: i < k < j && Purges(log, k, ts)
  }

  /** The message of call i is not accepted again before call m. */
  predicate LastBefore(log: seq<Attempt>, i: nat, m: nat)
    requires i < m <= |log|
  {
    Accepted(log, i) && forall k :: i < k < m && SameMessage(log[i], log[k]) ==> !Accepted(log, k)
  }

  lemma OneCall(c: Cache, a: Attempt, key: Str, ts: u64)
    requires key in c ==> c[key] == ts
    ensures Admits(c, a) ==> Key(a) in Recorded(c, a) && Recorded(c, a)[Key(a)] == a.ts
    ensures key != Key(a) || !Admits(c, a) ==>
      && (key in Recorded(c, a) <==> key in c && (Key(a) in c || Cutoff(a.recordedAt) < ts))
      && (key in Recorded(c, a) ==> Recorded(c, a)[key] == ts)
  {
    hide Key, Cutoff;
  }

  lemma BetweenGrows(log: seq<Attempt>, i: nat, n: nat, ts: u64)
    requires i < n < |log|
    ensures PurgedBetween(log, i, n + 1, ts) <==> PurgedBetween(log, i, n, ts) || Purges(log, n, ts)
  {
  }

  /** From its last acceptance on, a message is remembered exactly while no call has purged it. */
  lemma {:induction false} RememberedExactly(log: seq<Attempt>, i: nat, m: nat)
    requires i < m <= |log| && LastBefore(log, i, m)
    ensures Key(log[i]) in After(log[..m]) <==> !PurgedBetween(log, i, m, log[i].ts)
    ensures Key(log[i]) in After(log[..m]) ==> After(log[..m])[Key(log[i])] == log[i].ts
    decreases m
  {
    var n, key, ts := m - 1, Key(log[i]), log[i].ts;
    assert log[..m][..n] == log[..n] && log[..m][n] == log[n];
    var c := After(log[..n]);
    assert After(log[..m]) == Recorded(c, log[n]);
    if i < n {
      RememberedExactly(log, i, n);
      KeyInjective(log[i], log[n]);
      BetweenGrows(log, i, n, ts);
      hide PurgedBetween, Recorded, Key, Cutoff, After, Admits;
      assert !(SameMessage(log[i], log[n]) && Accepted(log, n));
      OneCall(c, log[n], key, ts);
    } else {
      hide Recorded, Key, Cutoff, After;
      OneCall(c, log[n], Key(log[n]), 0);
    }
  }

  /**
    When exactly a message is accepted again after its last acceptance i: if and only if some call strictly in between
    went through the cache and purged its timestamp, and the purged cache has room.
  */
  lemma AcceptedAgainExactly(log: seq<Attempt>, i: nat, j: nat)
    requires i < j < |log| && SameMessage(log[i], log[j]) && LastBefore(log, i, j)
    ensures Accepted(log, j) <==>
      PurgedBetween(log, i, j, log[i].ts) && |Purged(After(log[..j]), log[j].recordedAt)| < NONCE_CAP
  {
    KeyInjective(log[i], log[j]);
    RememberedExactly(log, i, j);
  }

  /** So between any two acceptances a call purged the timestamp. */
  lemma {:induction false} TwiceNeedsPurge(log: seq<Attempt>, i: nat, j: nat)
    requires i < j < |log| && SameMessage(log[i], log[j])
    requires Accepted(log, i) && Accepted(log, j)
    ensures PurgedBetween(log, i, j, log[i].ts)
    decreases j - i
  {
    if LastBefore(log, i, j) {
      AcceptedAgainExactly(log, i, j);
    } else {
      var k :| i < k < j && SameMessage(log[i], log[k]) && Accepted(log, k);
      TwiceNeedsPurge(log, k, j);
    }
  }

  /** What the clock promises: it has left its first minute, it never runs back between calls, and a message reaches
      the cache within 60 seconds of being verified. */
  predicate Timely(log: seq<Attempt>) {
    && (forall i :: 0 <= i < |log| ==>
         var a := log[i];
         AUTH_WINDOW < a.verifiedAt && a.recordedAt < a.verifiedAt + AUTH_WINDOW && InWindow(a.ts, a.verifiedAt, AUTH_WINDOW))
    && (forall i, j :: 0 <= i < j < |log| ==> log[i].recordedAt <= log[j].recordedAt)
  }

  /** Over every timely run each (uid, timestamp, nonce) is accepted at most once. */
  lemma AtMostOnce(log: seq<Attempt>, i: nat, j: nat)
    requires Timely(log)
    requires i < |log| && j < |log| && SameMessage(log[i], log[j]) && Accepted(log, i) && Accepted(log, j)
    ensures i == j
  {
    if i < j {
      TwiceNeedsPurge(log, i, j);
    } else if j < i {
      TwiceNeedsPurge(log, j, i);
    }
  }

  /** Where a remembered key comes from. */
  lemma {:induction false} Origin(log: seq<Attempt>, key: Str) returns (i: nat)
    requires key in After(log)
    ensures i < |log| && Key(log[i]) == key && Accepted(log, i)
  {
    var n := |log| - 1;
    if key in After(log[..n]) {
      i := Origin(log[..n], key);
      assert log[..n][..i] == log[..i];
    } else {
      i := n;
    }
  }

  /** A message is refused only when it was accepted before, or when the cache is full. */
  lemma RefusedOnlyForCause(log: seq<Attempt>, j: nat)
    requires j < |log| && !Accepted(log, j)
    ensures
      || |Purged(After(log[..j]), log[j].recordedAt)| >= NONCE_CAP
      || exists i :: 0 <= i < j && SameMessage(log[i], log[j]) && Accepted(log, i)
  {
    if Key(log[j]) in After(log[..j]) {
      var i := Origin(log[..j], Key(log[j]));
      KeyInjective(log[i], log[j]);
      assert log[..j][..i] == log[..i];
    }
  }

  // ------------------------------------------------------------------------
  // The promises of the clock are needed
  // ------------------------------------------------------------------------

  lemma AfterThree(a: Attempt, b: Attempt)
    requires Key(a) != Key(b) && Cutoff(b.recordedAt) >= a.ts
    ensures Accepted([a, b, a], 0) && Accepted([a, b, a], 2)
  {
    var log := [a, b, a];
    assert log[..0] == [] && log[..1] == [a] && log[..2] == [a, b];
    assert [a][..0] == [] && [a, b][..1] == [a];
    assert Purged(map[], a.recordedAt) == map[];
    var c1: Cache := map[Key(a) := a.ts];
    assert After([a]) == c1;
    assert Purged(c1, b.recordedAt) == map[];
    var c2: Cache := map[Key(b) := b.ts];
    assert After([a, b]) == c2;
    assert Purged(c2, a.recordedAt).Keys <= {Key(b)};
    Counting.CardinalityMonotone(Purged(c2, a.recordedAt).Keys, {Key(b)});
  }

  /** Any two 16-byte nonces, with 60 seconds between verification and the cache: the first message is accepted twice. */
  lemma SlowRecordingRepeats(n: seq<byte>, n': seq<byte>)
    requires |n| == |n'| == 16
    ensures
      var a, b := Attempt([97], 1000, n, 1060, 1120), Attempt([98], 1120, n', 1120, 1120);
      Accepted([a, b, a], 0) && Accepted([a, b, a], 2)
  {
    var a, b := Attempt([97], 1000, n, 1060, 1120), Attempt([98], 1120, n', 1120, 1120);
    KeyInjective(a, b);
    AfterThree(a, b);
  }

  /** In the first minute of the epoch a message with a zero timestamp is accepted twice. */
  lemma FirstMinuteRepeats(n: seq<byte>, n': seq<byte>)
    requires |n| == |n'| == 16
    ensures
      var a, b := Attempt([97], 0, n, 30, 30), Attempt([98], 30, n', 30, 30);
      Accepted([a, b, a], 0) && Accepted([a, b, a], 2)
  {
    var a, b := Attempt([97], 0, n, 30, 30), Attempt([98], 30, n', 30, 30);
    KeyInjective(a, b);
    AfterThree(a, b);
  }
}
