/** The sliding-window replay filter of the datagram channel (src/proto/crypto.rs). */
module ReplayWindow {
  import opened Bytes
  import opened Bits

  const SPAN := 64

  datatype Window = Window(highest: u64, mask: u64)

  const EMPTY := Window(0, 0)

  /** `ReplayWindow::check`: the window afterwards, and whether the counter is accepted. */
  function Check(w: Window, counter: u64): (Window, bool) {
    if counter == 0 then (w, false)
    else if w.highest == 0 then (Window(counter, 1), true)
    else if counter > w.highest then
      var shift := counter - w.highest;
      (Window(counter, if shift >= 64 then 1 else OrOne(Shl(w.mask, shift))), true)
    else
      var d := w.highest - counter;
      if d >= 64 || TestBit(w.mask, d) then (w, false)
      else (Window(w.highest, OrBit(w.mask, d)), true)
  }

  function OrOne(m: u64): u64 {
    OrBit(m, 0)
  }

  function OrBit(m: u64, d: nat): u64
    requires d < 64
  {
    WordIsPow2();
    SetBitFits(m, d, 64);
    SetBit(m, d)
  }

  /** The window stands for the set of counters accepted so far: its maximum, and the last 64 values. */
  ghost predicate Represents(w: Window, accepted: set<u64>) {
    && (accepted == {} <==> w.highest == 0)
    && (accepted != {} ==> w.highest in accepted)
    && (forall a :: a in accepted ==> 1 <= a <= w.highest)
    && (accepted != {} ==> forall d: nat :: d < SPAN ==> (TestBit(w.mask, d) <==> w.highest - d in accepted))
  }

  /** The filter's promise: nonzero, never accepted before, less than 64 below the highest accepted. */
  ghost predicate Admits(accepted: set<u64>, counter: u64) {
    counter != 0 && counter !in accepted && forall a :: a in accepted ==> a < counter + SPAN
  }

  lemma BitOne(d: nat)
    ensures TestBit(1, d) == (d == 0)
    ensures TestBit(0, d) == false
  {
    if d > 0 { BitOne(d - 1); }
  }

  lemma {:induction false} AdvanceBits(mask: u64, shift: nat, d: nat)
    requires shift >= 1 && d < SPAN
    ensures
      var m := if shift >= 64 then 1 else OrOne(Shl(mask, shift));
      TestBit(m, d) == (d == 0 || (d >= shift && TestBit(mask, d - shift)))
  {
    BitOne(d);
    if shift < 64 {
      ShlBits(mask, shift, d);
      SetBitBits(Shl(mask, shift), 0, d);
    }
  }

  /** One call refines the set of accepted counters. */
  lemma CheckRefines(w: Window, accepted: set<u64>, counter: u64)
    requires Represents(w, accepted)
    ensures Check(w, counter).1 <==> Admits(accepted, counter)
    ensures Represents(Check(w, counter).0, if Check(w, counter).1 then accepted + {counter} else accepted)
  {
    var (w', ok) := Check(w, counter);
    if counter == 0 {
    } else if w.highest == 0 {
      forall d: nat | d < SPAN
        ensures TestBit(w'.mask, d) <==> w'.highest - d in accepted + {counter}
      {
        BitOne(d);
      }
    } else if counter > w.highest {
      forall d: nat | d < SPAN
        ensures TestBit(w'.mask, d) <==> w'.highest - d in accepted + {counter}
      {
        AdvanceBits(w.mask, counter - w.highest, d);
      }
    } else if ok {
      forall d: nat | d < SPAN
        ensures TestBit(w'.mask, d) <==> w'.highest - d in accepted + {counter}
      {
        SetBitBits(w.mask, w.highest - counter, d);
      }
    }
  }

  /** The window after a sequence of calls. */
  function After(cs: seq<u64>): Window {
    if cs == [] then EMPTY else Check(After(cs[..|cs| - 1]), cs[|cs| - 1]).0
  }

  /** The counters accepted by a sequence of calls. */
  function Accepted(cs: seq<u64>): set<u64> {
    if cs == [] then {}
    else
      var k := |cs| - 1;
      Accepted(cs[..k]) + if Check(After(cs[..k]), cs[k]).1 then {cs[k]} else {}
  }

  lemma {:induction false} RunRepresents(cs: seq<u64>)
    ensures Represents(After(cs), Accepted(cs))
    decreases |cs|
  {
    if cs != [] {
      var k := |cs| - 1;
      RunRepresents(cs[..k]);
      CheckRefines(After(cs[..k]), Accepted(cs[..k]), cs[k]);
      if !Check(After(cs[..k]), cs[k]).1 { assert Accepted(cs) == Accepted(cs[..k]); }
    }
  }

  /**
    Over every sequence of calls a counter is accepted exactly when it is nonzero, was never
    accepted before, and is less than 64 below every counter accepted so far.
  */
  lemma ReplayExact(cs: seq<u64>, counter: u64)
    ensures Check(After(cs), counter).1 <==> Admits(Accepted(cs), counter)
  {
    RunRepresents(cs);
    CheckRefines(After(cs), Accepted(cs), counter);
  }

  /** The filter object: its two fields are the window, updated in place. */
  class ReplayFilter {
    var highest: u64
    var mask: u64

    constructor ()
      ensures Value() == EMPTY
    {
      highest, mask := 0, 0;
    }

    function Value(): Window
      reads this
    {
      Window(highest, mask)
    }

    method CheckCounter(counter: u64) returns (ok: bool)
      modifies this
      ensures (Value(), ok) == Check(old(Value()), counter)
    {
      if counter == 0 {
        return false;
      }
      if highest == 0 {
        highest := counter;
        mask := 1;
        return true;
      }
      if counter > highest {
        var shift := if counter - highest < 64 then counter - highest else 64;
        mask := if shift == 64 then 1 else OrOne(Shl(mask, shift));
        highest := counter;
        ok := true;
      } else {
        var d := highest - counter;
        if d >= 64 || TestBit(mask, d) {
          ok := false;
        } else {
          mask := OrBit(mask, d);
          ok := true;
        }
      }
    }
  }
}
