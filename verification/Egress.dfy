/** Which targets the server may reach (src/server/hub.rs). */
module Egress {
  import opened Bytes

  datatype AnyAddr = V4(octets: seq<byte>, port: u16) | V6(segments: seq<u16>, port: u16)

  type SocketAddr = a: AnyAddr | (if a.V4? then |a.octets| == 4 else |a.segments| == 8) witness V4([0, 0, 0, 0], 0)

  // ------------------------------------------------------------------------
  // The filter. `x & mask == bits` on high bits is written as a quotient.
  // ------------------------------------------------------------------------

  predicate IsPublic4(o: seq<byte>)
    requires |o| == 4
  {
    && o != [0, 0, 0, 0]
    && o[0] != 127
    && !(o[0] == 10 || (o[0] == 172 && 16 <= o[1] <= 31) || (o[0] == 192 && o[1] == 168))
    && !(o[0] == 169 && o[1] == 254)
    && !(224 <= o[0] <= 239)
    && o != [255, 255, 255, 255]
    && o[0] != 0
    && o[0] / 16 != 15
    && !(o[0] == 100 && 64 <= o[1] <= 127)
    && !(o[0] == 192 && o[1] == 0 && o[2] == 0)
    && !(o[0] == 192 && o[1] == 0 && o[2] == 2)
    && !(o[0] == 198 && o[1] == 18)
    && !(o[0] == 198 && o[1] == 19)
    && !(o[0] == 198 && o[1] == 51 && o[2] == 100)
    && !(o[0] == 203 && o[1] == 0 && o[2] == 113)
  }

  function Octets(hi: u16, lo: u16): (o: seq<byte>)
    ensures |o| == 4
  {
    [hi / 256, hi % 256, lo / 256, lo % 256]
  }

  function EmbeddedIpv4(s: seq<u16>): (r: Option<seq<byte>>)
    requires |s| == 8
    ensures r.Some? ==> |r.value| == 4
  {
    if s[..5] == [0, 0, 0, 0, 0] && s[5] == 0xffff then Some(Octets(s[6], s[7]))
    else if s[..4] == [0, 0, 0, 0] && s[4] == 0xffff && s[5] == 0 then Some(Octets(s[6], s[7]))
    else if s[..6] == [0, 0, 0, 0, 0, 0] then Some(Octets(s[6], s[7]))
    else if s[0] == 0x0064 && s[1] == 0xff9b && s[2..6] == [0, 0, 0, 0] then Some(Octets(s[6], s[7]))
    else if s[0] == 0x2002 then Some(Octets(s[1], s[2]))
    else None
  }

  predicate IsPublic6(s: seq<u16>)
    requires |s| == 8
  {
    var v4 := EmbeddedIpv4(s);
    if v4.Some? then IsPublic4(v4.value)
    else
      && s != [0, 0, 0, 0, 0, 0, 0, 0]
      && s != [0, 0, 0, 0, 0, 0, 0, 1]
      && s[0] / 0x100 != 0xff
      && s[0] / 0x200 != 0xfc00 / 0x200
      && s[0] / 0x40 != 0xfe80 / 0x40
      && !(s[0] == 0x2001 && s[1] == 0x0db8)
      && !(s[0] == 0x2001 && s[1] == 0)
      && !(s[0] == 0x2001 && (s[1] / 0x10 == 1 || s[1] / 0x10 == 2))
      && s[..4] != [0x0100, 0, 0, 0]
  }

  predicate IsPublicTarget(a: SocketAddr) {
    match a
    case V4(o, _) => IsPublic4(o)
    case V6(s, _) => IsPublic6(s)
  }

  // ------------------------------------------------------------------------
  // The same policy as address blocks
  // ------------------------------------------------------------------------

  /** An IPv4 address as a number. */
  function Number(a: byte, b: byte, c: byte, d: byte): nat { ((a * 256 + b) * 256 + c) * 256 + d }

  /** v lies in the block of the given size that starts at a.b.c.0. */
  predicate Block(v: nat, a: byte, b: byte, c: byte, size: nat) {
    Number(a, b, c, 0) <= v < Number(a, b, c, 0) + size
  }

  /** The fourteen special-purpose blocks. */
  predicate Special(v: nat) {
    || Block(v, 0, 0, 0, 0x100_0000) || Block(v, 10, 0, 0, 0x100_0000) || Block(v, 100, 64, 0, 0x40_0000)
    || Block(v, 127, 0, 0, 0x100_0000) || Block(v, 169, 254, 0, 0x1_0000) || Block(v, 172, 16, 0, 0x10_0000)
    || Block(v, 192, 0, 0, 0x100) || Block(v, 192, 0, 2, 0x100) || Block(v, 192, 168, 0, 0x1_0000)
    || Block(v, 198, 18, 0, 0x2_0000) || Block(v, 198, 51, 100, 0x100) || Block(v, 203, 0, 113, 0x100)
    || Block(v, 224, 0, 0, 0x1000_0000) || Block(v, 240, 0, 0, 0x1000_0000)
  }

  lemma WideBlock(o: seq<byte>, x: byte, n: nat)
    requires |o| == 4
    ensures Block(Number(o[0], o[1], o[2], o[3]), x, 0, 0, n * 0x100_0000) <==> x <= o[0] < x + n
  {
  }

  lemma MiddleBlock(o: seq<byte>, x: byte, y: byte, n: nat)
    requires |o| == 4 && y + n <= 256
    ensures Block(Number(o[0], o[1], o[2], o[3]), x, y, 0, n * 0x1_0000) <==> o[0] == x && y <= o[1] < y + n
  {
  }

  lemma NarrowBlock(o: seq<byte>, x: byte, y: byte, z: byte)
    requires |o| == 4
    ensures Block(Number(o[0], o[1], o[2], o[3]), x, y, z, 0x100) <==> o[0] == x && o[1] == y && o[2] == z
  {
  }

  /** The filter passes exactly the addresses outside the special-purpose blocks. */
  lemma PublicIsOutsideBlocks(o: seq<byte>)
    requires |o| == 4
    ensures IsPublic4(o) <==> !Special(Number(o[0], o[1], o[2], o[3]))
  {
    WideBlock(o, 0, 1);
    WideBlock(o, 10, 1);
    MiddleBlock(o, 100, 64, 64);
    WideBlock(o, 127, 1);
    MiddleBlock(o, 169, 254, 1);
    MiddleBlock(o, 172, 16, 16);
    NarrowBlock(o, 192, 0, 0);
    NarrowBlock(o, 192, 0, 2);
    MiddleBlock(o, 192, 168, 1);
    MiddleBlock(o, 198, 18, 2);
    NarrowBlock(o, 198, 51, 100);
    NarrowBlock(o, 203, 0, 113);
    WideBlock(o, 224, 16);
    WideBlock(o, 240, 16);
    hide Block, Number;
  }

  function Four(a: nat, b: nat, c: nat, d: nat): nat {
    ((a * 0x1_0000 + b) * 0x1_0000 + c) * 0x1_0000 + d
  }

  /** The upper half of an IPv6 address as a number. */
  function Upper(s: seq<u16>): nat
    requires |s| == 8
  {
    Four(s[0], s[1], s[2], s[3])
  }

  /** u lies in the block of the given size (in networks of 64 bits) that starts at a:b::. */
  predicate Block6(u: nat, a: u16, b: u16, size: nat) {
    var base := (a * 0x1_0000 + b) * 0x1_0000_0000;
    base <= u < base + size
  }

  /** ff00::/8, fc00::/7, fe80::/10, 2001:db8::/32, 2001::/32, 2001:10::/28, 2001:20::/28 and 100::/64. */
  predicate Special6(u: nat) {
    || Block6(u, 0xff00, 0, 0x100_0000_0000_0000) || Block6(u, 0xfc00, 0, 0x200_0000_0000_0000)
    || Block6(u, 0xfe80, 0, 0x40_0000_0000_0000) || Block6(u, 0x2001, 0x0db8, 0x1_0000_0000)
    || Block6(u, 0x2001, 0, 0x1_0000_0000) || Block6(u, 0x2001, 0x10, 0x10_0000_0000)
    || Block6(u, 0x2001, 0x20, 0x10_0000_0000) || Block6(u, 0x0100, 0, 1)
  }

  lemma WideBlock6(s: seq<u16>, a: u16, n: nat)
    requires |s| == 8
    ensures Block6(Upper(s), a, 0, n * 0x1_0000_0000_0000) <==> a <= s[0] < a + n
  {
  }

  lemma NarrowBlock6(s: seq<u16>, a: u16, b: u16, n: nat)
    requires |s| == 8 && b + n <= 0x1_0000
    ensures Block6(Upper(s), a, b, n * 0x1_0000_0000) <==> s[0] == a && b <= s[1] < b + n
  {
  }

  lemma OneNetwork(s: seq<u16>)
    requires |s| == 8
    ensures Block6(Upper(s), 0x0100, 0, 1) <==> s[..4] == [0x0100, 0, 0, 0]
  {
    assert s[..4] == [s[0], s[1], s[2], s[3]];
  }

  lemma HighBits(x: u16)
    ensures x / 0x100 == 0xff <==> 0xff00 <= x < 0xff00 + 0x100
    ensures x / 0x200 == 0xfc00 / 0x200 <==> 0xfc00 <= x < 0xfc00 + 0x200
    ensures x / 0x40 == 0xfe80 / 0x40 <==> 0xfe80 <= x < 0xfe80 + 0x40
    ensures x / 0x10 == 1 <==> 0x10 <= x < 0x10 + 0x10
    ensures x / 0x10 == 2 <==> 0x20 <= x < 0x20 + 0x10
  {
  }

  /** An IPv6 address that embeds no IPv4 address passes if and only if it lies in none of the eight blocks. */
  lemma Public6IsOutsideBlocks(s: seq<u16>)
    requires |s| == 8 && EmbeddedIpv4(s).None?
    ensures IsPublic6(s) <==> !Special6(Upper(s))
  {
    HighBits(s[0]);
    HighBits(s[1]);
    WideBlock6(s, 0xff00, 0x100);
    WideBlock6(s, 0xfc00, 0x200);
    WideBlock6(s, 0xfe80, 0x40);
    NarrowBlock6(s, 0x2001, 0x0db8, 1);
    NarrowBlock6(s, 0x2001, 0, 1);
    NarrowBlock6(s, 0x2001, 0x10, 0x10);
    NarrowBlock6(s, 0x2001, 0x20, 0x10);
    OneNetwork(s);
    hide Block6, Upper;
  }

  // ------------------------------------------------------------------------
  // Translation prefixes
  // ------------------------------------------------------------------------

  /** The five ways an IPv6 address stands for an IPv4 one. */
  datatype Prefix = Mapped | Translated | Compatible | Nat64 | SixToFour(rest: seq<u16>)

  function Pair(a: byte, b: byte): u16 { a * 256 + b }

  function Embed(p: Prefix, o: seq<byte>): (s: seq<u16>)
    requires |o| == 4 && (p.SixToFour? ==> |p.rest| == 5)
    ensures |s| == 8
  {
    var hi, lo := Pair(o[0], o[1]), Pair(o[2], o[3]);
    match p
    case Mapped => [0, 0, 0, 0, 0, 0xffff, hi, lo]
    case Translated => [0, 0, 0, 0, 0xffff, 0, hi, lo]
    case Compatible => [0, 0, 0, 0, 0, 0, hi, lo]
    case Nat64 => [0x64, 0xff9b, 0, 0, 0, 0, hi, lo]
    case SixToFour(rest) => [0x2002, hi, lo] + rest
  }

  lemma PairOctets(o: seq<byte>)
    requires |o| == 4
    ensures Octets(Pair(o[0], o[1]), Pair(o[2], o[3])) == o
  {
  }

  /** Every translated form of an address is judged exactly as the address itself. */
  lemma TranslationAgrees(p: Prefix, o: seq<byte>)
    requires |o| == 4 && (p.SixToFour? ==> |p.rest| == 5)
    ensures EmbeddedIpv4(Embed(p, o)) == Some(o)
    ensures IsPublic6(Embed(p, o)) <==> IsPublic4(o)
  {
    hide IsPublic4;
    PairOctets(o);
    var s := Embed(p, o);
    match p
    case Mapped => assert s[..5] == [0, 0, 0, 0, 0];
    case Translated => assert s[..4] == [0, 0, 0, 0]; assert s[..5][4] != 0;
    case Compatible => assert s[..6] == [0, 0, 0, 0, 0, 0];
    case Nat64 => assert s[2..6] == [0, 0, 0, 0]; assert s[..4][0] != 0 && s[..5][0] != 0 && s[..6][0] != 0;
    case SixToFour(_) => assert s[..4][0] != 0 && s[..5][0] != 0 && s[..6][0] != 0;
  }

  lemma OctetsPair(hi: u16, lo: u16)
    ensures var o := Octets(hi, lo); Pair(o[0], o[1]) == hi && Pair(o[2], o[3]) == lo
  {
  }

  /** An address that is found to embed another is one of the five forms of it. */
  lemma EmbeddedIsTranslated(s: seq<u16>) returns (p: Prefix)
    requires |s| == 8 && EmbeddedIpv4(s).Some?
    ensures p.SixToFour? ==> |p.rest| == 5
    ensures Embed(p, EmbeddedIpv4(s).value) == s
  {
    OctetsPair(s[6], s[7]);
    OctetsPair(s[1], s[2]);
    hide Octets, Pair;
    if s[..5] == [0, 0, 0, 0, 0] && s[5] == 0xffff {
      p := Mapped;
      assert s == s[..5] + s[5..];
    } else if s[..4] == [0, 0, 0, 0] && s[4] == 0xffff && s[5] == 0 {
      p := Translated;
      assert s == s[..4] + s[4..];
    } else if s[..6] == [0, 0, 0, 0, 0, 0] {
      p := Compatible;
      assert s == s[..6] + s[6..];
    } else if s[0] == 0x0064 && s[1] == 0xff9b && s[2..6] == [0, 0, 0, 0] {
      p := Nat64;
      assert s == s[..2] + s[2..6] + s[6..];
    } else {
      p := SixToFour(s[3..]);
      assert s == s[..3] + s[3..];
    }
  }
}
