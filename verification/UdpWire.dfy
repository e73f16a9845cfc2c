/** UDP datagrams as Ethernet frames. */
module UdpWire {
  import opened Base
  import opened Checksum
  import opened Wire
  import opened TcpWire

  const UDP_HEADER2_SIZE: nat := 8

  datatype UdpHeader = UdpHeader(srcPort: Option<Port>, dstPort: Port)

  /** Everything the UDP checksum adds up: the pseudo header and all words but the checksum field. */
  function UdpSum(ip: Ipv4Header, front: Bytes, data: Bytes): nat {
    PseudoSum(ip, Udp, UDP_HEADER2_SIZE + |data|) + SumWords(front) + SumWords(data)
  }

  function UdpFront(h: UdpHeader, dataLen: nat): (r: Bytes)
    ensures |r| == 6
  {
    Put16(if h.srcPort.Some? then h.srcPort.value else 0) + Put16(h.dstPort) +
    Put16((UDP_HEADER2_SIZE + dataLen) % 0x1_0000)
  }

  function UdpBytes(h: UdpHeader, ip: Ipv4Header, data: Bytes): (r: Bytes)
    ensures |r| == UDP_HEADER2_SIZE
  {
    UdpFront(h, |data|) + Put16(Complement(UdpSum(ip, UdpFront(h, |data|), data)))
  }

  /** A zero checksum field means that there is no checksum. */
  function ParseUdp(ip: Ipv4Header, b: Bytes): (r: Result<(UdpHeader, Bytes)>)
    ensures r.Ok? ==> |b| == UDP_HEADER2_SIZE + |r.value.1|
  {
    if |b| < UDP_HEADER2_SIZE then Err(Malformed)
    else
      var hdr, data := b[..UDP_HEADER2_SIZE], b[UDP_HEADER2_SIZE..];
      var srcPort := if Get16(hdr, 0) == 0 then None else Some(Get16(hdr, 0));
      var dstPort :- ParsePort(Get16(hdr, 2));
      if Get16(hdr, 4) != |b| then Err(Malformed)
      else if Get16(hdr, 6) != 0 && Get16(hdr, 6) != Complement(UdpSum(ip, hdr[..6], data)) then Err(Malformed)
      else Ok((UdpHeader(srcPort, dstPort), data))
  }

  lemma UdpFrontReads(h: UdpHeader, dataLen: nat, hdr: Bytes)
    requires |hdr| == UDP_HEADER2_SIZE && hdr[..6] == UdpFront(h, dataLen)
    ensures Get16(hdr, 0) == (if h.srcPort.Some? then h.srcPort.value else 0) && Get16(hdr, 2) == h.dstPort
    ensures Get16(hdr, 4) == (UDP_HEADER2_SIZE + dataLen) % 0x1_0000
  {
    hide Put16, Get16;
    var front := hdr[..6];
    var src: U16 := if h.srcPort.Some? then h.srcPort.value else 0;
    assert hdr[0..2] == front[0..2] == Put16(src);
    assert hdr[2..4] == front[2..4] == Put16(h.dstPort);
    assert hdr[4..6] == front[4..6] == Put16((UDP_HEADER2_SIZE + dataLen) % 0x1_0000);
    Reads16(hdr, 0, src);
    Reads16(hdr, 2, h.dstPort);
    Reads16(hdr, 4, (UDP_HEADER2_SIZE + dataLen) % 0x1_0000);
  }

  lemma UdpHeaderReads(h: UdpHeader, ip: Ipv4Header, data: Bytes)
    ensures var hdr := UdpBytes(h, ip, data);
      && Get16(hdr, 0) == (if h.srcPort.Some? then h.srcPort.value else 0) && Get16(hdr, 2) == h.dstPort
      && Get16(hdr, 4) == (UDP_HEADER2_SIZE + |data|) % 0x1_0000
      && Get16(hdr, 6) == Complement(UdpSum(ip, hdr[..6], data))
  {
    hide Put16, Get16, UdpSum, UdpFront;
    var hdr := UdpBytes(h, ip, data);
    var front := UdpFront(h, |data|);
    assert hdr[..6] == front;
    assert hdr[6..8] == Put16(Complement(UdpSum(ip, front, data)));
    UdpFrontReads(h, |data|, hdr);
    Reads16(hdr, 6, Complement(UdpSum(ip, front, data)));
  }

  lemma UdpRoundTrip(h: UdpHeader, ip: Ipv4Header, data: Bytes)
    requires UDP_HEADER2_SIZE + |data| < 0x1_0000
    ensures ParseUdp(ip, UdpBytes(h, ip, data) + data) == Ok((h, data))
  {
    hide UdpBytes, Get16, UdpSum;
    var hdr := UdpBytes(h, ip, data);
    var b := hdr + data;
    assert b[..8] == hdr && b[8..] == data;
    UdpHeaderReads(h, ip, data);
  }

  datatype UdpDatagram = UdpDatagram(ethernet: EthernetHeader, ip: Ipv4Header, udp: UdpHeader, data: Bytes)

  function UdpFrame(d: UdpDatagram): Bytes {
    Frame(d.ethernet, d.ip, UdpBytes(d.udp, d.ip, d.data) + d.data)
  }

  function ParseUdpFrame(b: Bytes): Result<UdpDatagram> {
    var (ethernet, ip, payload) :- ParseFrame(b);
    var (udp, data) :- ParseUdp(ip, payload);
    Ok(UdpDatagram(ethernet, ip, udp, data))
  }

  /** Full-frame round trip: parsing a serialised UDP frame gives back the datagram, the padding
      of a short frame stripped, if and only if the IPv4 fields and the length fit. */
  lemma UdpFrameRoundTrip(d: UdpDatagram)
    ensures ParseUdpFrame(UdpFrame(d)) == Ok(d) <==> Ipv4Fits(d.ip, UDP_HEADER2_SIZE + |d.data|)
  {
    hide ParseFrame, Frame, ParseUdp, UdpBytes;
    var payload := UdpBytes(d.udp, d.ip, d.data) + d.data;
    FrameReads(d.ethernet, d.ip, payload);
    if UDP_HEADER2_SIZE + |d.data| < 0x1_0000 {
      UdpRoundTrip(d.udp, d.ip, d.data);
    }
  }

  /** The checksum's 32-bit accumulator cannot overflow on anything IPv4 can carry. */
  lemma UdpSumBounded(ip: Ipv4Header, front: Bytes, data: Bytes)
    requires |front| == 6 && IPV4_HEADER2_SIZE + UDP_HEADER2_SIZE + |data| < 0x1_0000
    ensures 0xFFFF + UdpSum(ip, front, data) < 0x1_0000_0000
  {
    hide SumWords;
    SumWordsBound(front);
    SumWordsBound(data);
  }

  lemma ZeroField()
    ensures Put16(0) == [0, 0]
  {
  }

  /** A datagram of which one word, other than the checksum, was changed is refused, unless the
      change was between all zeros and all ones, or the datagram has no checksum. */
  lemma CorruptionIsRefused(ip: Ipv4Header, b: Bytes, j: nat, x: Byte, y: Byte)
    requires ParseUdp(ip, b).Ok? && j % 2 == 0 && j + 2 <= |b| && j != 6 && Get16(b, 6) != 0
    requires Word(x, y) % 0xFFFF != Word(b[j], b[j + 1]) % 0xFFFF
    ensures ParseUdp(ip, b[j := x][j + 1 := y]).Err?
  {
    hide ParseUdp, SumWords, PseudoSum, Complement, Word;
    var c := b[j := x][j + 1 := y];
    ParsedUdpChecksum(ip, b);
    SameField(b, c, 6);
    if ParseUdp(ip, c).Ok? {
      ParsedUdpChecksum(ip, c);
      if j < 6 {
        assert c[..6] == b[..6][j := x][j + 1 := y] && c[8..] == b[8..];
        SumWordsReplaced(b[..6], j, x, y);
      } else {
        assert c[..6] == b[..6] && c[8..] == b[8..][j - 8 := x][j - 7 := y];
        SumWordsReplaced(b[8..], j - 8, x, y);
      }
      ChecksumDetects(UdpSum(ip, c[..6], c[8..]), UdpSum(ip, b[..6], b[8..]));
      SameResidueClass(Word(x, y), Word(b[j], b[j + 1]));
    }
  }

  lemma ParsedUdpChecksum(ip: Ipv4Header, b: Bytes)
    requires ParseUdp(ip, b).Ok?
    ensures |b| >= UDP_HEADER2_SIZE && (Get16(b, 6) == 0 || Get16(b, 6) == Complement(UdpSum(ip, b[..6], b[8..])))
  {
    hide UdpSum, Complement, Get16;
    assert b[..8][..6] == b[..6];
    SameField(b[..8], b, 6);
  }

  /** A checksum that came out as zero is no checksum at all to the parser, so that any data of
      the right length is accepted with it. */
  lemma ZeroChecksumIsUnchecked(ip: Ipv4Header, h: UdpHeader, data: Bytes)
    requires UDP_HEADER2_SIZE + |data| < 0x1_0000
    ensures ParseUdp(ip, UdpFront(h, |data|) + [0, 0] + data) == Ok((h, data))
  {
    hide UdpSum, UdpFront, Get16, Put16;
    var b := UdpFront(h, |data|) + [0, 0] + data;
    var hdr := b[..8];
    assert hdr[..6] == UdpFront(h, |data|);
    ZeroField();
    assert hdr[6..8] == [0, 0];
    UdpFrontReads(h, |data|, hdr);
    Reads16(hdr, 6, 0);
    assert b[8..] == data;
  }
}
