/** Text as bytes: separators, decimal and hexadecimal numbers, as the program prints and parses them. */
module Text {
  import opened Bytes

  type Str = seq<byte>

  const DOT: byte := 46
  const COLON: byte := 58
  const COMMA: byte := 44
  const PLUS: byte := 43
  const MINUS: byte := 45
  const BAR: byte := 124

  function Ascii(s: string): Str
    requires forall i :: 0 <= i < |s| ==> s[i] < 128 as char
  {
    seq(|s|, i requires 0 <= i < |s| => s[i] as int)
  }

  // ------------------------------------------------------------------------
  // Separators
  // ------------------------------------------------------------------------

  /** `split`: the pieces between occurrences of c; at least one. */
  function SplitOn(s: Str, c: byte): (parts: seq<Str>)
    ensures |parts| >= 1
  {
    if s == [] then [[]]
    else if s[0] == c then [[]] + SplitOn(s[1..], c)
    else
      var rest := SplitOn(s[1..], c);
      [[s[0]] + rest[0]] + rest[1..]
  }

  lemma {:induction false} SplitFirst(a: Str, c: byte, b: Str)
    requires c !in a
    ensures SplitOn(a + [c] + b, c) == [a] + SplitOn(b, c)
  {
    var s := a + [c] + b;
    if a == [] {
      assert s[1..] == b;
    } else {
      assert s[1..] == a[1..] + [c] + b;
      SplitFirst(a[1..], c, b);
      assert [s[0]] + a[1..] == a;
      assert ([a[1..]] + SplitOn(b, c))[1..] == SplitOn(b, c);
    }
  }

  lemma {:induction false} SplitNone(a: Str, c: byte)
    requires c !in a
    ensures SplitOn(a, c) == [a]
  {
    if a != [] {
      SplitNone(a[1..], c);
      assert [a[0]] + a[1..] == a;
    }
  }

  lemma {:induction false} PiecesHaveNoSeparator(s: Str, c: byte)
    ensures forall i :: 0 <= i < |SplitOn(s, c)| ==> c !in SplitOn(s, c)[i]
  {
    if s != [] { PiecesHaveNoSeparator(s[1..], c); }
  }

  /** Text before the last separator is determined by the whole. */
  lemma LastSeparator(a: Str, x: Str, b: Str, y: Str, c: byte)
    requires a + [c] + x == b + [c] + y && c !in x && c !in y
    ensures a == b && x == y
  {
    var s := a + [c] + x;
    assert s[|a|] == c && s[|b|] == c;
    assert a == s[..|a|] && x == s[|a| + 1..];
  }

  // ------------------------------------------------------------------------
  // Decimal numbers
  // ------------------------------------------------------------------------

  predicate IsDigit(b: byte) { 48 <= b <= 57 }

  predicate AllDigits(s: Str) { forall i :: 0 <= i < |s| ==> IsDigit(s[i]) }

  function Decimal(n: nat): (s: Str)
    ensures AllDigits(s) && |s| >= 1
  {
    if n < 10 then [48 + n] else Decimal(n / 10) + [48 + n % 10]
  }

  function Value(s: Str): nat
    requires AllDigits(s)
  {
    if s == [] then 0 else 10 * Value(s[..|s| - 1]) + (s[|s| - 1] - 48)
  }

  lemma {:induction false} DecimalValue(n: nat)
    ensures Value(Decimal(n)) == n
  {
    if n >= 10 {
      DecimalValue(n / 10);
      assert Decimal(n)[..|Decimal(n)| - 1] == Decimal(n / 10);
    } else {
      assert Decimal(n)[..0] == [];
    }
  }

  function Digits(s: Str): Option<nat> {
    if s == [] || !AllDigits(s) then None else Some(Value(s))
  }

  /** `parse::<u64>`: an optional plus sign, at least one digit, no overflow. */
  function ParseU64(s: Str): Option<u64> {
    var n := Digits(if s != [] && s[0] == PLUS then s[1..] else s);
    if n.Some? && n.value < 0x1_0000_0000_0000_0000 then Some(n.value) else None
  }

  /** `parse::<i64>`: an optional sign, at least one digit, no overflow. */
  function ParseI64(s: Str): Option<int> {
    if s != [] && s[0] == MINUS then
      var n := Digits(s[1..]);
      if n.None? then None
      else
        var v: int := n.value;
        if v <= 0x8000_0000_0000_0000 then Some(-v) else None
    else
      var n := Digits(if s != [] && s[0] == PLUS then s[1..] else s);
      if n.Some? && n.value < 0x8000_0000_0000_0000 then Some(n.value) else None
  }

  lemma ParsePrinted(n: u64)
    ensures ParseU64(Decimal(n)) == Some(n)
  {
    DecimalValue(n);
    assert IsDigit(Decimal(n)[0]);
  }

  // ------------------------------------------------------------------------
  // Hexadecimal
  // ------------------------------------------------------------------------

  function HexDigit(v: nat): byte
    requires v < 16
  {
    if v < 10 then 48 + v else 87 + v
  }

  /** `to_digit(16)`: both letter cases. */
  function FromHexDigit(b: byte): Option<nat> {
    if 48 <= b <= 57 then Some(b - 48)
    else if 97 <= b <= 102 then Some(b - 87)
    else if 65 <= b <= 70 then Some(b - 55)
    else None
  }

  function Hex(b: seq<byte>): (s: Str)
    ensures |s| == 2 * |b|
  {
    if b == [] then [] else Hex(b[..|b| - 1]) + [HexDigit(b[|b| - 1] / 16), HexDigit(b[|b| - 1] % 16)]
  }

  function Unhex(s: Str): Option<seq<byte>> {
    if s == [] then Some([])
    else if |s| == 1 then None
    else
      var k := |s| - 2;
      var rest := Unhex(s[..k]);
      var hi, lo := FromHexDigit(s[k]), FromHexDigit(s[k + 1]);
      if rest.None? || hi.None? || lo.None? then None
      else Some(rest.value + [16 * hi.value + lo.value])
  }

  lemma {:induction false} UnhexHex(b: seq<byte>)
    ensures Unhex(Hex(b)) == Some(b)
  {
    if b != [] {
      var k, s := |b| - 1, Hex(b);
      var n := |s| - 2;
      UnhexHex(b[..k]);
      assert s[..n] == Hex(b[..k]) && s[n] == HexDigit(b[k] / 16) && s[n + 1] == HexDigit(b[k] % 16);
      DigitBack(b[k] / 16);
      DigitBack(b[k] % 16);
      hide Hex, HexDigit, FromHexDigit;
      assert b == b[..k] + [b[k]];
    }
  }

  lemma DigitBack(v: nat)
    requires v < 16
    ensures FromHexDigit(HexDigit(v)) == Some(v)
  {
  }

  function Lower(b: byte): byte { if 65 <= b <= 90 then b + 32 else b }

  function Lowered(s: Str): Str { seq(|s|, i requires 0 <= i < |s| => Lower(s[i])) }

  /** Decoding forgets nothing but the letter case. */
  lemma {:induction false} HexUnhex(s: Str)
    requires Unhex(s).Some?
    ensures Hex(Unhex(s).value) == Lowered(s)
    decreases |s|
  {
    if s != [] {
      var k := |s| - 2;
      HexUnhex(s[..k]);
      var b, hi, lo := Unhex(s).value, FromHexDigit(s[k]).value, FromHexDigit(s[k + 1]).value;
      assert b == Unhex(s[..k]).value + [16 * hi + lo];
      assert b[..|b| - 1] == Unhex(s[..k]).value;
      DigitLowered(s[k]);
      DigitLowered(s[k + 1]);
      LoweredPair(s);
      hide Unhex, FromHexDigit, HexDigit, Lowered, Lower;
    }
  }

  lemma DigitLowered(b: byte)
    requires FromHexDigit(b).Some?
    ensures FromHexDigit(b).value < 16 && HexDigit(FromHexDigit(b).value) == Lower(b)
  {
  }

  lemma LoweredPair(s: Str)
    requires |s| >= 2
    ensures Lowered(s) == Lowered(s[..|s| - 2]) + [Lower(s[|s| - 2]), Lower(s[|s| - 1])]
  {
  }

  predicate HexChars(s: Str) { forall i :: 0 <= i < |s| ==> FromHexDigit(s[i]).Some? }

  lemma {:induction false} HexIsHex(b: seq<byte>)
    ensures HexChars(Hex(b))
  {
    if b != [] { HexIsHex(b[..|b| - 1]); }
  }

  /** The encoding loop of `hex`. */
  method PrintHex(b: seq<byte>) returns (s: Str)
    ensures s == Hex(b)
  {
    s := [];
    for i := 0 to |b|
      invariant s == Hex(b[..i])
    {
      assert b[..i + 1][..i] == b[..i];
      s := s + [HexDigit(b[i] / 16), HexDigit(b[i] % 16)];
    }
    assert b[..|b|] == b;
  }

  /** The decoding loop of `unhex`. */
  method ParseHex(s: Str) returns (r: Option<seq<byte>>)
    ensures r == Unhex(s)
  {
    if |s| % 2 != 0 {
      OddIsNone(s);
      return None;
    }
    var b: seq<byte> := [];
    var i := 0;
    while i < |s|
      invariant 0 <= i <= |s| && i % 2 == 0
      invariant Unhex(s[..i]) == Some(b)
    {
      var hi, lo := FromHexDigit(s[i]), FromHexDigit(s[i + 1]);
      assert s[..i + 2][..i] == s[..i];
      if hi.None? || lo.None? {
        NoneExtends(s, i + 2);
        return None;
      }
      b := b + [16 * hi.value + lo.value];
      i := i + 2;
    }
    assert s[..|s|] == s;
    return Some(b);
  }

  lemma {:induction false} OddIsNone(s: Str)
    requires |s| % 2 == 1
    ensures Unhex(s).None?
    decreases |s|
  {
    if |s| > 1 { OddIsNone(s[..|s| - 2]); }
  }

  lemma {:induction false} NoneExtends(s: Str, i: nat)
    requires i <= |s| && i % 2 == 0 && |s| % 2 == 0 && Unhex(s[..i]).None?
    ensures Unhex(s).None?
    decreases |s|
  {
    if i < |s| {
      assert s[..|s| - 2][..i] == s[..i];
      NoneExtends(s[..|s| - 2], i);
    } else {
      assert s[..i] == s;
    }
  }
}
