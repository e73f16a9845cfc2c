/** Ethernet and IPv4 headers as bytes on the wire. */
module Wire {
  import opened Base
  import opened Checksum
  import opened SeqNumbers

  type U16 = n: int | 0 <= n < 0x1_0000

  datatype Fail = Malformed | Unsupported | OutOfRange | EndOfInput

  datatype Result<+T> = Ok(value: T) | Err(fail: Fail) {
    predicate IsFailure() { Err? }
    function PropagateFailure<U>(): Result<U> requires Err? { Err(fail) }
    function Extract(): T requires Ok? { value }
  }

  // ----- Network order -----

  /** The bytes as one number, the first the most significant. */
  function BigEndian(b: Bytes): nat {
    if b == [] then 0 else BigEndian(b[..|b| - 1]) * 256 + b[|b| - 1]
  }

  /** The last `k` bytes of `n`, the most significant first. */
  function Digits(n: nat, k: nat): (r: Bytes)
    ensures |r| == k
  {
    if k == 0 then [] else Digits(n / 256, k - 1) + [n % 256]
  }

  /** How many numbers `k` bytes can tell apart. */
  function Range(k: nat): nat { if k == 0 then 1 else 256 * Range(k - 1) }

  lemma {:induction false} BigEndianBound(b: Bytes)
    ensures BigEndian(b) < Range(|b|)
  {
    if b != [] { BigEndianBound(b[..|b| - 1]); }
  }

  lemma {:induction false} NumberBack(n: nat, k: nat)
    requires n < Range(k)
    ensures BigEndian(Digits(n, k)) == n
  {
    if k > 0 {
      NumberBack(n / 256, k - 1);
      assert Digits(n, k)[..k - 1] == Digits(n / 256, k - 1);
    }
  }

  lemma {:induction false} DigitsBack(b: Bytes)
    ensures Digits(BigEndian(b), |b|) == b
  {
    if b != [] {
      DigitsBack(b[..|b| - 1]);
      assert b == b[..|b| - 1] + [b[|b| - 1]];
    }
  }

  lemma Ranges()
    ensures Range(2) == 0x1_0000 && Range(4) == 0x1_0000_0000
  {
    assert Range(3) == 256 * Range(2);
  }

  function Put16(n: U16): (r: Bytes)
    ensures |r| == 2
  {
    Digits(n, 2)
  }

  function Get16(b: Bytes, i: nat): U16
    requires i + 2 <= |b|
  {
    BigEndianBound(b[i..i + 2]);
    Ranges();
    BigEndian(b[i..i + 2])
  }

  function Put32(n: U32): (r: Bytes)
    ensures |r| == 4
  {
    Digits(n, 4)
  }

  function Get32(b: Bytes, i: nat): U32
    requires i + 4 <= |b|
  {
    BigEndianBound(b[i..i + 4]);
    Ranges();
    BigEndian(b[i..i + 4])
  }

  lemma Reads16(b: Bytes, i: nat, n: U16)
    requires i + 2 <= |b| && b[i..i + 2] == Put16(n)
    ensures Get16(b, i) == n
  {
    hide Digits, BigEndian, Range;
    Ranges();
    NumberBack(n, 2);
  }

  lemma Reads32(b: Bytes, i: nat, n: U32)
    requires i + 4 <= |b| && b[i..i + 4] == Put32(n)
    ensures Get32(b, i) == n
  {
    hide Digits, BigEndian, Range;
    Ranges();
    NumberBack(n, 4);
  }

  lemma PutGet16(b: Bytes, i: nat)
    requires i + 2 <= |b|
    ensures Put16(Get16(b, i)) == b[i..i + 2]
  {
    hide Digits, BigEndian;
    DigitsBack(b[i..i + 2]);
  }

  lemma PutGet32(b: Bytes, i: nat)
    requires i + 4 <= |b|
    ensures Put32(Get32(b, i)) == b[i..i + 4]
  {
    hide Digits, BigEndian;
    DigitsBack(b[i..i + 4]);
  }

  /** Two bytes, and two words, as numbers. */
  lemma BigEndianPair(x: Byte, y: Byte)
    ensures BigEndian([x, y]) == Word(x, y)
  {
    assert [x, y][..1] == [x] && [x][..0] == [];
    assert BigEndian([x]) == x;
  }

  lemma Get16IsWord(b: Bytes, i: nat)
    requires i + 2 <= |b|
    ensures Get16(b, i) == Word(b[i], b[i + 1])
  {
    assert b[i..i + 2] == [b[i], b[i + 1]];
    BigEndianPair(b[i], b[i + 1]);
  }

  /** A field depends on its own bytes only. */
  lemma SameField(b: Bytes, c: Bytes, i: nat)
    requires i + 2 <= |b| && i + 2 <= |c| && b[i] == c[i] && b[i + 1] == c[i + 1]
    ensures Get16(b, i) == Get16(c, i)
  {
    hide Get16;
    Get16IsWord(b, i);
    Get16IsWord(c, i);
  }

  function Zeros(n: nat): (r: Bytes)
    ensures |r| == n && forall i | 0 <= i < n :: r[i] == 0
  {
    seq(n, _ => 0)
  }

  // ----- Ethernet -----

  const ETHERNET2_HEADER2_SIZE: nat := 14
  const MIN_PAYLOAD_SIZE: nat := 46

  type MacAddress = b: Bytes | |b| == 6 witness [0, 0, 0, 0, 0, 0]

  datatype EtherType2 = Arp | Ipv4

  function EtherCode(t: EtherType2): U16 { if t == Arp then 0x806 else 0x800 }

  datatype EthernetHeader = EthernetHeader(dst: MacAddress, src: MacAddress, etherType: EtherType2)

  function EthernetBytes(h: EthernetHeader): (r: Bytes)
    ensures |r| == ETHERNET2_HEADER2_SIZE
  {
    h.dst + h.src + Put16(EtherCode(h.etherType))
  }

  function ParseEthernet(b: Bytes): Result<(EthernetHeader, Bytes)> {
    if |b| < ETHERNET2_HEADER2_SIZE then Err(Malformed)
    else
      var code := Get16(b, 12);
      if code != 0x806 && code != 0x800 then Err(Unsupported)
      else Ok((EthernetHeader(b[0..6], b[6..12], if code == 0x806 then Arp else Ipv4), b[14..]))
  }

  /** A frame parses to a header and a payload exactly if it is that header's bytes followed by
      that payload. */
  lemma EthernetExact(b: Bytes, h: EthernetHeader, rest: Bytes)
    ensures ParseEthernet(b) == Ok((h, rest)) <==> b == EthernetBytes(h) + rest
  {
    if b == EthernetBytes(h) + rest {
      assert b[0..6] == h.dst && b[6..12] == h.src && b[14..] == rest;
      assert b[12..14] == Put16(EtherCode(h.etherType));
      Reads16(b, 12, EtherCode(h.etherType));
    }
    if ParseEthernet(b) == Ok((h, rest)) {
      PutGet16(b, 12);
      assert EthernetBytes(h)[12..] == Put16(Get16(b, 12)) == b[12..14];
      assert b == b[0..6] + b[6..12] + b[12..14] + b[14..];
    }
  }

  // ----- IPv4 -----

  const IPV4_HEADER2_SIZE: nat := 20

  datatype Protocol = Icmpv4 | Tcp | Udp

  function ProtocolCode(p: Protocol): Byte {
    match p
    case Icmpv4 => 0x01
    case Tcp => 0x06
    case Udp => 0x11
  }

  datatype Ipv4Header = Ipv4Header(
    dscp: Byte, ecn: Byte, identification: U16, flags: Byte, fragmentOffset: U16,
    timeToLive: Byte, protocol: Protocol, srcAddr: U32, dstAddr: U32)

  /** The fields that survive serialisation: those the wire format has room for, and no fragment. */
  predicate Ipv4Fits(h: Ipv4Header, payloadLen: nat) {
    && h.dscp < 64 && h.ecn < 4 && h.flags < 8 && h.fragmentOffset == 0
    && IPV4_HEADER2_SIZE + payloadLen < 0x1_0000
  }

  /** The checksum of a header, whatever its checksum field holds. */
  function Ipv4Checksum(hdr: Bytes): U16
    requires |hdr| == IPV4_HEADER2_SIZE
  {
    Complement(SumWords(hdr[..10]) + SumWords(hdr[12..]))
  }

  /** The bytes before and after the checksum field. Shifts and narrowings drop the high bits. */
  function Ipv4Front(h: Ipv4Header, payloadLen: nat): (r: Bytes)
    ensures |r| == 10
  {
    [0x45, h.dscp * 4 % 256 + h.ecn % 4] +
    Put16((IPV4_HEADER2_SIZE + payloadLen) % 0x1_0000) +
    Put16(h.identification) +
    Put16(h.flags * 0x2000 % 0x1_0000 + h.fragmentOffset % 0x2000) +
    [h.timeToLive, ProtocolCode(h.protocol)]
  }

  function Ipv4Back(h: Ipv4Header): (r: Bytes)
    ensures |r| == 8
  {
    Put32(h.srcAddr) + Put32(h.dstAddr)
  }

  function Ipv4Bytes(h: Ipv4Header, payloadLen: nat): (r: Bytes)
    ensures |r| == IPV4_HEADER2_SIZE
  {
    var checksum := Complement(SumWords(Ipv4Front(h, payloadLen)) + SumWords(Ipv4Back(h)));
    Ipv4Front(h, payloadLen) + Put16(checksum) + Ipv4Back(h)
  }

  function ParseProtocol(n: Byte): Result<Protocol> {
    if n == 0x01 then Ok(Icmpv4)
    else if n == 0x06 then Ok(Tcp)
    else if n == 0x11 then Ok(Udp)
    else Err(Unsupported)
  }

  function ParseIpv4(b: Bytes): Result<(Ipv4Header, Bytes)> {
    if |b| < IPV4_HEADER2_SIZE then Err(Malformed)
    else
      var hdr, payload := b[..IPV4_HEADER2_SIZE], b[IPV4_HEADER2_SIZE..];
      var ihl := hdr[0] % 16;
      if hdr[0] / 16 != 4 then Err(Unsupported)
      else if ihl < 5 then Err(Malformed)
      else if ihl > 5 then Err(Unsupported)
      else
        var totalLength := Get16(hdr, 2);
        if totalLength < IPV4_HEADER2_SIZE then Err(Malformed)
        else if totalLength - IPV4_HEADER2_SIZE > |payload| then Err(Malformed)
        else if Get16(hdr, 6) % 0x2000 != 0 then Err(Unsupported)
        else
          var protocol :- ParseProtocol(hdr[9]);
          var checksum := Get16(hdr, 10);
          if checksum == 0xFFFF then Err(Malformed)
          else if checksum != Ipv4Checksum(hdr) then Err(Malformed)
          else
            Ok((Ipv4Header(hdr[1] / 4, hdr[1] % 4, Get16(hdr, 4), Get16(hdr, 6) / 0x2000, Get16(hdr, 6) % 0x2000,
                           hdr[8], protocol, Get32(hdr, 12), Get32(hdr, 16)),
                payload[..totalLength - IPV4_HEADER2_SIZE]))
  }

  lemma FrontReads(h: Ipv4Header, n: nat, hdr: Bytes)
    requires |hdr| == IPV4_HEADER2_SIZE && hdr[..10] == Ipv4Front(h, n)
    ensures hdr[0] == 0x45 && hdr[1] == h.dscp * 4 % 256 + h.ecn % 4
    ensures Get16(hdr, 2) == (IPV4_HEADER2_SIZE + n) % 0x1_0000 && Get16(hdr, 4) == h.identification
    ensures Get16(hdr, 6) == h.flags * 0x2000 % 0x1_0000 + h.fragmentOffset % 0x2000
    ensures hdr[8] == h.timeToLive && hdr[9] == ProtocolCode(h.protocol)
  {
    hide Put16, Get16;
    var front := hdr[..10];
    assert hdr[0] == front[0] && hdr[1] == front[1] && hdr[8] == front[8] && hdr[9] == front[9];
    assert hdr[2..4] == front[2..4] == Put16((IPV4_HEADER2_SIZE + n) % 0x1_0000);
    assert hdr[4..6] == front[4..6] == Put16(h.identification);
    var flags: U16 := h.flags * 0x2000 % 0x1_0000 + h.fragmentOffset % 0x2000;
    assert hdr[6..8] == front[6..8] == Put16(flags);
    Reads16(hdr, 2, (IPV4_HEADER2_SIZE + n) % 0x1_0000);
    Reads16(hdr, 4, h.identification);
    Reads16(hdr, 6, flags);
  }

  lemma BackReads(h: Ipv4Header, hdr: Bytes)
    requires |hdr| == IPV4_HEADER2_SIZE && hdr[12..] == Ipv4Back(h)
    ensures Get32(hdr, 12) == h.srcAddr && Get32(hdr, 16) == h.dstAddr
  {
    hide Put32, Get32;
    var back := hdr[12..];
    assert hdr[12..16] == back[0..4] == Put32(h.srcAddr) && hdr[16..20] == back[4..8] == Put32(h.dstAddr);
    Reads32(hdr, 12, h.srcAddr);
    Reads32(hdr, 16, h.dstAddr);
  }

  /** What a parser reads from a serialised header. */
  lemma HeaderReads(h: Ipv4Header, n: nat)
    ensures var hdr := Ipv4Bytes(h, n);
      && hdr[0] == 0x45 && hdr[1] == h.dscp * 4 % 256 + h.ecn % 4
      && Get16(hdr, 2) == (IPV4_HEADER2_SIZE + n) % 0x1_0000 && Get16(hdr, 4) == h.identification
      && Get16(hdr, 6) == h.flags * 0x2000 % 0x1_0000 + h.fragmentOffset % 0x2000
      && hdr[8] == h.timeToLive && hdr[9] == ProtocolCode(h.protocol)
      && Get16(hdr, 10) == Ipv4Checksum(hdr) != 0xFFFF
      && Get32(hdr, 12) == h.srcAddr && Get32(hdr, 16) == h.dstAddr
  {
    hide Ipv4Front, Ipv4Back, SumWords, Get16, Get32, Put16;
    var checksum := Complement(SumWords(Ipv4Front(h, n)) + SumWords(Ipv4Back(h)));
    var hdr := Ipv4Bytes(h, n);
    assert hdr[..10] == Ipv4Front(h, n) && hdr[10..12] == Put16(checksum) && hdr[12..] == Ipv4Back(h);
    FrontReads(h, n, hdr);
    Reads16(hdr, 10, checksum);
    BackReads(h, hdr);
  }

  lemma TypeOfService(dscp: Byte, ecn: Byte)
    ensures var x := dscp * 4 % 256 + ecn % 4; (x / 4 == dscp && x % 4 == ecn) <==> dscp < 64 && ecn < 4
  {
  }

  lemma FlagsAndOffset(flags: Byte, offset: U16)
    ensures var x := flags * 0x2000 % 0x1_0000 + offset % 0x2000;
      x % 0x2000 == offset % 0x2000 && (x / 0x2000 == flags <==> flags < 8)
  {
  }

  /** Parsing a serialised header gives back the header and cuts the padding after the payload,
      exactly if the fields fit. */
  lemma Ipv4RoundTrip(h: Ipv4Header, payload: Bytes, padding: Bytes)
    ensures ParseIpv4(Ipv4Bytes(h, |payload|) + payload + padding) == Ok((h, payload)) <==> Ipv4Fits(h, |payload|)
  {
    hide Get16, Get32, Ipv4Bytes, Ipv4Checksum, Put16, Put32;
    var hdr := Ipv4Bytes(h, |payload|);
    var b := hdr + payload + padding;
    assert b[..20] == hdr && b[20..] == payload + padding;
    HeaderReads(h, |payload|);
    TypeOfService(h.dscp, h.ecn);
    FlagsAndOffset(h.flags, h.fragmentOffset);
    assert (payload + padding)[..|payload|] == payload;
  }

  /** What parses was well formed: re-serialising the parsed header gives the bytes it came from. */
  lemma Ipv4Reserialises(b: Bytes, h: Ipv4Header, payload: Bytes)
    requires ParseIpv4(b) == Ok((h, payload))
    ensures |b| >= IPV4_HEADER2_SIZE
    ensures b[..IPV4_HEADER2_SIZE] == Ipv4Bytes(h, |payload|) && payload <= b[IPV4_HEADER2_SIZE..]
    ensures Ipv4Fits(h, |payload|)
  {
    hide ParseIpv4, Ipv4Front, Ipv4Back, SumWords, Get16, Get32, Put16;
    ParsedFields(b, h, payload);
    var hdr := b[..IPV4_HEADER2_SIZE];
    FrontIs(h, |payload|, hdr);
    BackIs(h, hdr);
    PutGet16(hdr, 10);
    assert hdr == hdr[..10] + hdr[10..12] + hdr[12..];
  }

  lemma FrontIs(h: Ipv4Header, n: nat, hdr: Bytes)
    requires |hdr| == IPV4_HEADER2_SIZE && Ipv4Fits(h, n)
    requires hdr[0] == 0x45 && hdr[1] == h.dscp * 4 + h.ecn && Get16(hdr, 2) == IPV4_HEADER2_SIZE + n
    requires Get16(hdr, 4) == h.identification && Get16(hdr, 6) == h.flags * 0x2000
    requires hdr[8] == h.timeToLive && hdr[9] == ProtocolCode(h.protocol)
    ensures hdr[..10] == Ipv4Front(h, n)
  {
    hide Get16, Put16;
    PutGet16(hdr, 2);
    PutGet16(hdr, 4);
    PutGet16(hdr, 6);
    assert hdr[..10] == [hdr[0], hdr[1]] + hdr[2..4] + hdr[4..6] + hdr[6..8] + [hdr[8], hdr[9]];
  }

  lemma BackIs(h: Ipv4Header, hdr: Bytes)
    requires |hdr| == IPV4_HEADER2_SIZE && Get32(hdr, 12) == h.srcAddr && Get32(hdr, 16) == h.dstAddr
    ensures hdr[12..] == Ipv4Back(h)
  {
    PutGet32(hdr, 12);
    PutGet32(hdr, 16);
    assert hdr[12..] == hdr[12..16] + hdr[16..20];
  }

  lemma ParsedFields(b: Bytes, h: Ipv4Header, payload: Bytes)
    requires ParseIpv4(b) == Ok((h, payload))
    ensures |b| >= 20 && payload <= b[20..]
    ensures var hdr := b[..20];
      && hdr[0] == 0x45 && hdr[1] == h.dscp * 4 + h.ecn && h.dscp < 64 && h.ecn < 4
      && Get16(hdr, 2) == IPV4_HEADER2_SIZE + |payload| && Get16(hdr, 4) == h.identification
      && Get16(hdr, 6) == h.flags * 0x2000 && h.fragmentOffset == 0 && h.flags < 8
      && hdr[8] == h.timeToLive && hdr[9] == ProtocolCode(h.protocol)
      && Get32(hdr, 12) == h.srcAddr && Get32(hdr, 16) == h.dstAddr
      && Get16(hdr, 10) == Ipv4Checksum(hdr)
  {
    hide Get16, Get32, Ipv4Checksum;
  }
}
