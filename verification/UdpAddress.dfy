/** UDP addresses on the wire and the SOCKS5 UDP header (src/proto/addr.rs). */
module UdpAddress {
  import opened Bytes
  import Utf8

  datatype UdpAddr =
    | V4(octets: seq<byte>, port: u16)
    | V6(octets: seq<byte>, port: u16, flow: u32, scope: u32)
    | Domain(host: seq<byte>, port: u16)

  /** What the program's own types guarantee, and the one-byte length the encoder asserts. */
  predicate WellFormed(a: UdpAddr) {
    match a
    case V4(o, _) => |o| == 4
    case V6(o, _, _, _) => |o| == 16
    case Domain(h, _) => |h| <= 255 && Utf8.Valid(h)
  }

  /** Flow labels and scope ids are not on the wire. */
  function Unscoped(a: UdpAddr): UdpAddr {
    if a.V6? then a.(flow := 0, scope := 0) else a
  }

  function PortBytes(port: u16, be: bool): (s: seq<byte>)
    ensures |s| == 2
  {
    if be then ToBe(port, 2) else ToLe(port, 2)
  }

  /** Everything before the port. */
  function Head(a: UdpAddr): seq<byte> {
    match a
    case V4(o, _) => [1] + o
    case V6(o, _, _, _) => [2] + o
    case Domain(h, _) => [3, |h| % 256] + h
  }

  function EncodeAddr(a: UdpAddr, be: bool): seq<byte> { Head(a) + PortBytes(a.port, be) }

  // ------------------------------------------------------------------------
  // Decoding, by what is left to read
  // ------------------------------------------------------------------------

  function Port(b: seq<byte>, be: bool): Option<(u16, seq<byte>)> {
    if |b| < 2 then None
    else
      Pow256Values();
      Some((if be then FromBe(b[..2]) else FromLe(b[..2]), b[2..]))
  }

  /** How far the part before the port reaches. */
  function HeadLen(b: seq<byte>): (n: Option<nat>)
    ensures n.Some? ==> 1 <= n.value <= |b|
  {
    if b == [] then None
    else if b[0] == 1 then if |b| < 5 then None else Some(5)
    else if b[0] == 2 then if |b| < 17 then None else Some(17)
    else if b[0] == 3 then if |b| < 2 || |b| - 2 < b[1] then None else Some(2 + b[1] as int)
    else None
  }

  function FromHead(h: seq<byte>, port: u16): UdpAddr
    requires HeadLen(h) == Some(|h|)
  {
    if h[0] == 1 then V4(h[1..], port) else if h[0] == 2 then V6(h[1..], port, 0, 0) else Domain(h[2..], port)
  }

  function DecodeAddr(b: seq<byte>, be: bool): Option<(UdpAddr, seq<byte>)> {
    var n := HeadLen(b);
    if n.None? then None
    else
      var p := Port(b[n.value..], be);
      if p.None? then None
      else
        var a := FromHead(b[..n.value], p.value.0);
        if a.Domain? && !Utf8.Valid(a.host) then None else Some((a, p.value.1))
  }

  lemma PortRoundTrip(port: u16, be: bool, rest: seq<byte>)
    ensures Port(PortBytes(port, be) + rest, be) == Some((port, rest))
  {
    Pow256Values();
    var s := PortBytes(port, be);
    assert (s + rest)[..2] == s && (s + rest)[2..] == rest;
    if be { BeRoundTrip(port, 2); } else { LeRoundTrip(port, 2); }
  }

  lemma PortUnique(b: seq<byte>, be: bool)
    requires |b| >= 2
    ensures PortBytes(Port(b, be).value.0, be) + Port(b, be).value.1 == b
  {
    if be { BeUnique(b[..2]); } else { LeUnique(b[..2]); }
  }

  lemma HeadRoundTrip(a: UdpAddr, rest: seq<byte>)
    requires WellFormed(a)
    ensures HeadLen(Head(a) + rest) == HeadLen(Head(a)) == Some(|Head(a)|)
    ensures FromHead(Head(a), a.port) == Unscoped(a)
  {
    assert Head(a) + rest != [] && (Head(a) + rest)[0] == Head(a)[0];
  }

  lemma HeadUnique(h: seq<byte>, port: u16)
    requires HeadLen(h) == Some(|h|)
    ensures Head(FromHead(h, port)) == h
    ensures FromHead(h, port).Domain? ==> |FromHead(h, port).host| <= 255
  {
  }

  /** An address decodes to itself, followed by exactly the data that was behind it. */
  lemma AddrRoundTrip(a: UdpAddr, be: bool, data: seq<byte>)
    requires WellFormed(a)
    ensures DecodeAddr(EncodeAddr(a, be) + data, be) == Some((Unscoped(a), data))
  {
    hide PortBytes, Port, Utf8.Valid, Head, HeadLen, FromHead;
    var h, tail := Head(a), PortBytes(a.port, be) + data;
    assert EncodeAddr(a, be) + data == h + tail;
    assert (h + tail)[..|h|] == h && (h + tail)[|h|..] == tail;
    HeadRoundTrip(a, tail);
    PortRoundTrip(a.port, be, data);
  }

  /** Whatever is accepted was encoded so: nothing is normalised and no byte is lost. */
  lemma AddrUnique(b: seq<byte>, be: bool)
    requires DecodeAddr(b, be).Some?
    ensures
      var (a, rest) := DecodeAddr(b, be).value;
      WellFormed(a) && EncodeAddr(a, be) + rest == b
  {
    hide PortBytes, Port, Utf8.Valid, Head;
    var n := HeadLen(b).value;
    var (a, rest) := DecodeAddr(b, be).value;
    PortLong(b[n..], be);
    PortUnique(b[n..], be);
    HeadUnique(b[..n], a.port);
    assert EncodeAddr(a, be) + rest == b[..n] + (PortBytes(a.port, be) + rest);
  }

  lemma PortLong(b: seq<byte>, be: bool)
    requires Port(b, be).Some?
    ensures |b| >= 2
  {
  }

  /** Decoding, field after field. */
  lemma Shapes(b: seq<byte>, be: bool)
    ensures b == [] || b[0] !in {1, 2, 3} ==> DecodeAddr(b, be).None?
    ensures b != [] && b[0] == 1 ==> DecodeAddr(b, be) == Ip(b[1..], 4, be)
    ensures b != [] && b[0] == 2 ==> DecodeAddr(b, be) == Ip(b[1..], 16, be)
    ensures b != [] && b[0] == 3 ==> DecodeAddr(b, be) == if |b| < 2 then None else Name(b[1..][1..], b[1], be)
  {
    hide Port, Utf8.Valid;
    if b != [] && b[0] != 3 {
      var n := if b[0] == 1 then 4 else 16;
      if |b| > n { assert b[1..][n..] == b[1 + n..] && b[1..][..n] == b[..1 + n][1..]; }
    } else if |b| >= 2 && |b| - 2 >= b[1] {
      var n: nat := b[1];
      assert b[1..][1..] == b[2..] && b[2..][n..] == b[2 + n..] && b[2..][..n] == b[..2 + n][2..];
    }
  }

  function Ip(b: seq<byte>, n: nat, be: bool): Option<(UdpAddr, seq<byte>)> {
    if |b| < n then None
    else
      var p := Port(b[n..], be);
      if p.None? then None
      else Some((if n == 4 then V4(b[..n], p.value.0) else V6(b[..n], p.value.0, 0, 0), p.value.1))
  }

  function Name(b: seq<byte>, n: nat, be: bool): Option<(UdpAddr, seq<byte>)> {
    if |b| < n then None
    else
      var p := Port(b[n..], be);
      if p.None? || !Utf8.Valid(b[..n]) then None else Some((Domain(b[..n], p.value.0), p.value.1))
  }

  // ------------------------------------------------------------------------
  // SOCKS5 UDP packets
  // ------------------------------------------------------------------------

  function ParseSocks5(packet: seq<byte>): Option<(UdpAddr, seq<byte>)> {
    if |packet| < 3 || FromLe(packet[..2]) != 0 || packet[2] != 0 then None
    else DecodeAddr(packet[3..], true)
  }

  function BuildSocks5(a: UdpAddr, payload: seq<byte>): seq<byte> {
    [0, 0, 0] + EncodeAddr(a, true) + payload
  }

  lemma ZeroPair(s: seq<byte>)
    requires |s| == 2
    ensures FromLe(s) == 0 <==> s == [0, 0]
  {
    assert FromLe(s) == s[0] + 256 * FromLe(s[1..]);
    assert FromLe(s[1..]) == s[1] + 256 * FromLe(s[1..][1..]);
  }

  /** A built packet parses back, and a parsed packet rebuilds to the same bytes. */
  lemma Socks5RoundTrip(a: UdpAddr, payload: seq<byte>)
    requires WellFormed(a)
    ensures ParseSocks5(BuildSocks5(a, payload)) == Some((Unscoped(a), payload))
  {
    hide DecodeAddr, EncodeAddr;
    var b := BuildSocks5(a, payload);
    assert b[..2] == [0, 0] && b[3..] == EncodeAddr(a, true) + payload;
    ZeroPair(b[..2]);
    AddrRoundTrip(a, true, payload);
  }

  lemma Socks5Rebuilds(packet: seq<byte>)
    requires ParseSocks5(packet).Some?
    ensures
      var (a, payload) := ParseSocks5(packet).value;
      BuildSocks5(a, payload) == packet
  {
    hide DecodeAddr, EncodeAddr;
    ZeroPair(packet[..2]);
    AddrUnique(packet[3..], true);
    assert packet == [0, 0, 0] + packet[3..];
    var (a, payload) := ParseSocks5(packet).value;
    assert [0, 0, 0] + EncodeAddr(a, true) + payload == [0, 0, 0] + (EncodeAddr(a, true) + payload);
  }

  /** The address type octets of section 5 of RFC 1928. */
  function RfcType(a: UdpAddr): byte {
    match a
    case V4(_, _) => 1
    case V6(_, _, _, _) => 4
    case Domain(_, _) => 3
  }

  /** A built header carries the address type of RFC 1928 if and only if the address is not IPv6. */
  lemma RfcTypeExactly(a: UdpAddr, payload: seq<byte>)
    requires WellFormed(a)
    ensures |BuildSocks5(a, payload)| > 3 && (BuildSocks5(a, payload)[3] == RfcType(a) <==> !a.V6?)
  {
    assert EncodeAddr(a, true) != [] && EncodeAddr(a, true)[0] == Head(a)[0];
    assert BuildSocks5(a, payload)[3] == EncodeAddr(a, true)[0];
  }

  /** A packet with the standard's IPv6 type is refused, and no accepted packet names a type but 1, 2 and 3. */
  lemma RfcIpv6Refused(packet: seq<byte>)
    ensures ParseSocks5(packet).Some? ==> |packet| > 3 && packet[3] in {1, 2, 3}
    ensures |packet| > 3 && packet[3] == 4 ==> ParseSocks5(packet).None?
  {
  }

  // ------------------------------------------------------------------------
  // The cursor
  // ------------------------------------------------------------------------

  class Reader {
    const b: seq<byte>
    var pos: nat

    ghost predicate Valid()
      reads this
    {
      pos <= |b|
    }

    function Left(): seq<byte>
      requires Valid()
      reads this
    {
      b[pos..]
    }

    constructor (b: seq<byte>)
      ensures Valid() && Left() == b
    {
      this.b := b;
      pos := 0;
    }

    method ReadBytes(n: nat) returns (r: Option<seq<byte>>)
      requires Valid()
      modifies this
      ensures Valid()
      ensures
        var left := old(Left());
        if |left| >= n then r == Some(left[..n]) && Left() == left[n..] else r.None? && Left() == left
    {
      if |b| - pos < n {
        return None;
      }
      r := Some(b[pos..pos + n]);
      assert b[pos..][..n] == b[pos..pos + n] && b[pos..][n..] == b[pos + n..];
      pos := pos + n;
    }

    method ReadU8() returns (r: Option<byte>)
      requires Valid()
      modifies this
      ensures Valid()
      ensures
        var left := old(Left());
        if left != [] then r == Some(left[0]) && Left() == left[1..] else r.None? && Left() == left
    {
      if pos >= |b| {
        return None;
      }
      r := Some(b[pos]);
      pos := pos + 1;
    }

    method ReadPort(be: bool) returns (r: Option<u16>)
      requires Valid()
      modifies this
      ensures Valid()
      ensures
        var p := Port(old(Left()), be);
        if p.Some? then r == Some(p.value.0) && Left() == p.value.1 else r.None?
    {
      var two := ReadBytes(2);
      if two.None? {
        return None;
      }
      Pow256Values();
      r := Some(if be then FromBe(two.value) else FromLe(two.value));
    }

    /** `decode_with`: on success the cursor stands behind the address; it never leaves the input. */
    method Decode(be: bool) returns (r: Option<UdpAddr>)
      requires Valid()
      modifies this
      ensures Valid()
      ensures
        var d := DecodeAddr(old(Left()), be);
        if d.Some? then r == Some(d.value.0) && Left() == d.value.1 else r.None?
    {
      hide Port, Utf8.Valid, DecodeAddr;
      ghost var left := Left();
      r := None;
      var t := ReadU8();
      Shapes(left, be);
      if t == Some(1) || t == Some(2) {
        var o := ReadBytes(if t.value == 1 then 4 else 16);
        if o.Some? {
          var p := ReadPort(be);
          if p.Some? {
            r := Some(if t.value == 1 then V4(o.value, p.value) else V6(o.value, p.value, 0, 0));
          }
        }
      } else if t == Some(3) {
        var l := ReadU8();
        if l.Some? {
          var d := ReadBytes(l.value);
          if d.Some? {
            var p := ReadPort(be);
            if p.Some? && Utf8.Valid(d.value) {
              r := Some(Domain(d.value, p.value));
            }
          }
        }
      }
    }

    method Rest() returns (r: seq<byte>)
      requires Valid()
      modifies this
      ensures Valid() && r == old(Left()) && Left() == []
    {
      r := b[pos..];
      pos := |b|;
    }
  }

  /** `parse_socks5_udp`, through the cursor. */
  method ReadSocks5(packet: seq<byte>) returns (r: Option<(UdpAddr, seq<byte>)>)
    ensures r == ParseSocks5(packet)
  {
    hide DecodeAddr, FromLe;
    var reader := new Reader(packet);
    var rsv := reader.ReadPort(false);
    if rsv != Some(0) {
      return None;
    }
    var frag := reader.ReadU8();
    if frag != Some(0) {
      return None;
    }
    assert packet[2..][1..] == packet[3..];
    var a := reader.Decode(true);
    if a.None? {
      return None;
    }
    var data := reader.Rest();
    return Some((a.value, data));
  }
}
