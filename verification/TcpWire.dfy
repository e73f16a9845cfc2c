/** TCP segments as Ethernet frames. */
module TcpWire {
  import opened Base
  import opened Checksum
  import opened SeqNumbers
  import opened Wire
  import opened TcpOptions

  const MIN_TCP_HEADER2_SIZE: nat := 20
  const MAX_TCP_HEADER2_SIZE: nat := 60

  datatype Flags = Flags(
    cwr: bool, ece: bool, urg: bool, ack: bool, psh: bool, rst: bool, syn: bool, fin: bool)

  datatype TcpHeader = TcpHeader(
    srcPort: Port, dstPort: Port, seqNum: U32, ackNum: U32, ns: bool, flags: Flags,
    windowSize: U16, urgentPointer: U16, options: seq<TcpOption>)

  /** What the header record can hold: five options, four ranges in each. */
  predicate ValidHeader(h: TcpHeader) {
    |h.options| <= MAX_TCP_OPTIONS && forall o | o in h.options :: ValidOption(o)
  }

  function Bit(b: bool, weight: nat): nat { if b then weight else 0 }

  predicate BitAt(n: nat, k: nat) { if k == 0 then n % 2 == 1 else BitAt(n / 2, k - 1) }

  /** A list of bits as a number, the first the most significant. */
  function Pack(bits: seq<bool>): nat {
    if bits == [] then 0 else 2 * Pack(bits[..|bits| - 1]) + Bit(bits[|bits| - 1], 1)
  }

  lemma {:induction false} BitAtPack(bits: seq<bool>, k: nat)
    requires k < |bits|
    ensures BitAt(Pack(bits), k) == bits[|bits| - 1 - k]
  {
    var n := Pack(bits[..|bits| - 1]);
    assert Pack(bits) / 2 == n;
    if k > 0 { BitAtPack(bits[..|bits| - 1], k - 1); }
  }

  lemma {:induction false} PackBound(bits: seq<bool>)
    ensures Pack(bits) < Power2(|bits|)
  {
    if bits != [] { PackBound(bits[..|bits| - 1]); }
  }

  function FlagList(f: Flags): seq<bool> { [f.cwr, f.ece, f.urg, f.ack, f.psh, f.rst, f.syn, f.fin] }

  function FlagByte(f: Flags): Byte {
    PackBound(FlagList(f));
    assert Power2(3) == 8 && Power2(6) == 64 && Power2(8) == 256;
    Pack(FlagList(f))
  }

  function ReadFlags(b: Byte): Flags {
    Flags(BitAt(b, 7), BitAt(b, 6), BitAt(b, 5), BitAt(b, 4), BitAt(b, 3), BitAt(b, 2), BitAt(b, 1), BitAt(b, 0))
  }

  lemma FlagsRoundTrip(f: Flags)
    ensures ReadFlags(FlagByte(f)) == f
  {
    hide Pack, BitAt;
    BitAtPack(FlagList(f), 0);
    BitAtPack(FlagList(f), 1);
    BitAtPack(FlagList(f), 2);
    BitAtPack(FlagList(f), 3);
    BitAtPack(FlagList(f), 4);
    BitAtPack(FlagList(f), 5);
    BitAtPack(FlagList(f), 6);
    BitAtPack(FlagList(f), 7);
  }

  /** Header size: the fixed part, the options and their end marker, rounded up to whole words. */
  function HeaderSize(h: TcpHeader): (r: nat)
    ensures r % 4 == 0 && r >= MIN_TCP_HEADER2_SIZE + AllSizes(h.options) + (if h.options == [] then 0 else 1)
    ensures h.options == [] ==> r == MIN_TCP_HEADER2_SIZE
  {
    var size := MIN_TCP_HEADER2_SIZE + AllSizes(h.options) + if h.options == [] then 0 else 1;
    (size + 3) / 4 * 4
  }

  function PseudoSum(ip: Ipv4Header, protocol: Protocol, length: nat): nat {
    ip.srcAddr / 0x1_0000 + ip.srcAddr % 0x1_0000 + ip.dstAddr / 0x1_0000 + ip.dstAddr % 0x1_0000 +
    ProtocolCode(protocol) + length
  }

  /** Everything the TCP checksum adds up: the pseudo header and all words but the checksum field. */
  function TcpSum(ip: Ipv4Header, hdr: Bytes, data: Bytes): nat
    requires |hdr| >= MIN_TCP_HEADER2_SIZE
  {
    PseudoSum(ip, Tcp, |hdr| + |data|) + SumWords(hdr[..16]) + SumWords(hdr[18..]) + SumWords(data)
  }

  /** The bytes before the checksum field; the data offset is cut to its four bits. */
  function TcpFront(h: TcpHeader): (r: Bytes)
    ensures |r| == 16
  {
    Put16(h.srcPort) + Put16(h.dstPort) + Put32(h.seqNum) + Put32(h.ackNum) +
    [HeaderSize(h) / 4 % 16 * 16 + Bit(h.ns, 1), FlagByte(h.flags)] + Put16(h.windowSize)
  }

  /** The option area: the options, the end marker, and zeros up to the header size. */
  function OptionArea(h: TcpHeader): (r: Bytes)
    requires ValidHeader(h)
    ensures |r| == HeaderSize(h) - MIN_TCP_HEADER2_SIZE
  {
    if h.options == [] then []
    else AllBytes(h.options) + [0] + Zeros(HeaderSize(h) - MIN_TCP_HEADER2_SIZE - AllSizes(h.options) - 1)
  }

  function TcpBack(h: TcpHeader): (r: Bytes)
    requires ValidHeader(h)
    ensures |r| == HeaderSize(h) - 18
  {
    Put16(h.urgentPointer) + OptionArea(h)
  }

  function TcpBytes(h: TcpHeader, ip: Ipv4Header, data: Bytes): (r: Bytes)
    requires ValidHeader(h)
    ensures |r| == HeaderSize(h)
  {
    var checksum := Complement(PseudoSum(ip, Tcp, HeaderSize(h) + |data|) +
                               SumWords(TcpFront(h)) + SumWords(TcpBack(h)) + SumWords(data));
    TcpFront(h) + Put16(checksum) + TcpBack(h)
  }

  function ParsePort(n: U16): Result<Port> { if n == 0 then Err(OutOfRange) else Ok(n) }

  function ParseTcp(ip: Ipv4Header, b: Bytes): (r: Result<(TcpHeader, Bytes)>)
    ensures r.Ok? ==> ValidHeader(r.value.0) && |b| >= MIN_TCP_HEADER2_SIZE && b[12] / 16 * 4 <= |b| && r.value.1 == b[b[12] / 16 * 4..]
  {
    if |b| < MIN_TCP_HEADER2_SIZE then Err(Malformed)
    else
      var dataOffset := b[12] / 16 * 4;
      if |b| < dataOffset then Err(Malformed)
      else if dataOffset < MIN_TCP_HEADER2_SIZE then Err(Malformed)
      else if dataOffset > MAX_TCP_HEADER2_SIZE then Err(Malformed)
      else
        var hdr, data := b[..dataOffset], b[dataOffset..];
        var srcPort :- ParsePort(Get16(hdr, 0));
        var dstPort :- ParsePort(Get16(hdr, 2));
        if Get16(hdr, 16) != Complement(TcpSum(ip, hdr, data)) then Err(Malformed)
        else
          var options :- if dataOffset > MIN_TCP_HEADER2_SIZE then ReadOptions(hdr[20..], []) else Ok([]);
          Ok((TcpHeader(srcPort, dstPort, Get32(hdr, 4), Get32(hdr, 8), hdr[12] % 2 == 1, ReadFlags(hdr[13]),
                        Get16(hdr, 14), Get16(hdr, 18), options), data))
  }

  /** The header as it comes back: without no-operations. */
  function Received(h: TcpHeader): TcpHeader { h.(options := Kept(h.options)) }

  lemma TcpFrontReads(h: TcpHeader, hdr: Bytes)
    requires |hdr| >= 20 && hdr[..16] == TcpFront(h)
    ensures Get16(hdr, 0) == h.srcPort && Get16(hdr, 2) == h.dstPort
    ensures Get32(hdr, 4) == h.seqNum && Get32(hdr, 8) == h.ackNum
    ensures hdr[12] == HeaderSize(h) / 4 % 16 * 16 + Bit(h.ns, 1) && hdr[13] == FlagByte(h.flags)
    ensures Get16(hdr, 14) == h.windowSize
  {
    hide Put16, Put32, Get16, Get32, HeaderSize, FlagByte;
    var front := hdr[..16];
    assert hdr[12] == front[12] && hdr[13] == front[13];
    assert hdr[0..2] == front[0..2] == Put16(h.srcPort);
    assert hdr[2..4] == front[2..4] == Put16(h.dstPort);
    assert hdr[4..8] == front[4..8] == Put32(h.seqNum);
    assert hdr[8..12] == front[8..12] == Put32(h.ackNum);
    assert hdr[14..16] == front[14..16] == Put16(h.windowSize);
    Reads16(hdr, 0, h.srcPort);
    Reads16(hdr, 2, h.dstPort);
    Reads32(hdr, 4, h.seqNum);
    Reads32(hdr, 8, h.ackNum);
    Reads16(hdr, 14, h.windowSize);
  }

  /** What a parser reads from a serialised header. */
  lemma TcpHeaderReads(h: TcpHeader, ip: Ipv4Header, data: Bytes)
    requires ValidHeader(h)
    ensures var hdr := TcpBytes(h, ip, data);
      && Get16(hdr, 0) == h.srcPort && Get16(hdr, 2) == h.dstPort
      && Get32(hdr, 4) == h.seqNum && Get32(hdr, 8) == h.ackNum
      && hdr[12] == HeaderSize(h) / 4 % 16 * 16 + Bit(h.ns, 1) && hdr[13] == FlagByte(h.flags)
      && Get16(hdr, 14) == h.windowSize
      && Get16(hdr, 16) == Complement(TcpSum(ip, hdr, data))
      && Get16(hdr, 18) == h.urgentPointer
      && hdr[20..] == OptionArea(h)
  {
    hide Put16, Put32, Get16, Get32, FlagByte, TcpFront, OptionArea, SumWords, PseudoSum;
    var hdr := TcpBytes(h, ip, data);
    var checksum := Complement(PseudoSum(ip, Tcp, HeaderSize(h) + |data|) +
                               SumWords(TcpFront(h)) + SumWords(TcpBack(h)) + SumWords(data));
    assert hdr[..16] == TcpFront(h) && hdr[16..18] == Put16(checksum) && hdr[18..] == TcpBack(h);
    assert hdr[18..20] == Put16(h.urgentPointer) && hdr[20..] == OptionArea(h);
    TcpFrontReads(h, hdr);
    Reads16(hdr, 16, checksum);
    Reads16(hdr, 18, h.urgentPointer);
  }

  /** Parsing a serialised segment gives back the header without no-operations, and the data. */
  lemma TcpRoundTrip(h: TcpHeader, ip: Ipv4Header, data: Bytes)
    requires ValidHeader(h) && HeaderSize(h) <= MAX_TCP_HEADER2_SIZE
    ensures ParseTcp(ip, TcpBytes(h, ip, data) + data) ==
      if HasEmptySack(h.options) then Err(Malformed) else Ok((Received(h), data))
  {
    hide TcpBytes, Get16, Get32, FlagByte, ReadFlags, TcpSum, ReadOptions, HeaderSize;
    var hdr := TcpBytes(h, ip, data);
    var b := hdr + data;
    assert b[..|hdr|] == hdr && b[|hdr|..] == data;
    TcpHeaderReads(h, ip, data);
    FlagsRoundTrip(h.flags);
    OffsetReads(HeaderSize(h), h.ns);
    if h.options == [] {
      assert h.options == Kept(h.options);
      NoEmptySack();
    } else {
      var padding := Zeros(HeaderSize(h) - MIN_TCP_HEADER2_SIZE - AllSizes(h.options) - 1);
      OptionsRoundTrip(h.options, padding, []);
      assert [] + Kept(h.options) == Kept(h.options);
    }
  }

  lemma OffsetReads(size: nat, ns: bool)
    requires size % 4 == 0
    ensures var b := size / 4 % 16 * 16 + Bit(ns, 1);
      && b / 16 * 4 <= size && b / 16 * 4 < 64 && (b % 2 == 1 <==> ns)
      && (b / 16 * 4 == size <==> size <= 60)
  {
  }

  // ----- Frames -----

  datatype TcpSegment = TcpSegment(ethernet: EthernetHeader, ip: Ipv4Header, tcp: TcpHeader, data: Bytes)

  /** What one layer puts in front of the next, and the zeros behind a short frame. */
  function Frame(ethernet: EthernetHeader, ip: Ipv4Header, payload: Bytes): Bytes {
    var size := ETHERNET2_HEADER2_SIZE + IPV4_HEADER2_SIZE + |payload|;
    EthernetBytes(ethernet) + (Ipv4Bytes(ip, |payload|) + payload +
    Zeros(if size < MIN_PAYLOAD_SIZE then MIN_PAYLOAD_SIZE - size else 0))
  }

  function TcpFrame(s: TcpSegment): Bytes
    requires ValidHeader(s.tcp)
  {
    Frame(s.ethernet, s.ip, TcpBytes(s.tcp, s.ip, s.data) + s.data)
  }

  function ParseFrame(b: Bytes): Result<(EthernetHeader, Ipv4Header, Bytes)> {
    var (ethernet, rest) :- ParseEthernet(b);
    var (ip, payload) :- ParseIpv4(rest);
    Ok((ethernet, ip, payload))
  }

  function ParseTcpFrame(b: Bytes): Result<TcpSegment> {
    var (ethernet, ip, payload) :- ParseFrame(b);
    var (tcp, data) :- ParseTcp(ip, payload);
    Ok(TcpSegment(ethernet, ip, tcp, data))
  }

  /** The IPv4 layer of a frame: if it parses to the same header at all, then the payload is cut
      at the length field, which is the payload's own length if that fits. */
  lemma FrameReads(ethernet: EthernetHeader, ip: Ipv4Header, payload: Bytes)
    ensures Ipv4Fits(ip, |payload|) ==> ParseFrame(Frame(ethernet, ip, payload)) == Ok((ethernet, ip, payload))
    ensures var r := ParseFrame(Frame(ethernet, ip, payload));
      r.Ok? && r.value.1 == ip ==>
        && r.value.0 == ethernet && Ipv4Fits(ip, |r.value.2|)
        && IPV4_HEADER2_SIZE + |r.value.2| == (IPV4_HEADER2_SIZE + |payload|) % 0x1_0000
        && |r.value.2| <= |payload| && r.value.2 == payload[..|r.value.2|]
  {
    hide EthernetBytes, ParseEthernet, ParseIpv4, Ipv4Bytes, Get16, Get32, Ipv4Checksum;
    var size := ETHERNET2_HEADER2_SIZE + IPV4_HEADER2_SIZE + |payload|;
    var padding := Zeros(if size < MIN_PAYLOAD_SIZE then MIN_PAYLOAD_SIZE - size else 0);
    var rest := Ipv4Bytes(ip, |payload|) + payload + padding;
    var b := Frame(ethernet, ip, payload);
    EthernetExact(b, ethernet, rest);
    Ipv4RoundTrip(ip, payload, padding);
    var r := ParseFrame(b);
    if r.Ok? && r.value.1 == ip {
      assert ParseEthernet(b) == Ok((ethernet, rest));
      var p := ParseIpv4(rest);
      assert p == Ok((p.value.0, p.value.1));
      ParsedFields(rest, ip, r.value.2);
      HeaderReads(ip, |payload|);
      assert rest[..20] == Ipv4Bytes(ip, |payload|);
      assert rest[20..] == payload + padding;
      assert (payload + padding)[..|r.value.2|] == payload[..|r.value.2|];
    }
  }

  predicate TcpFits(s: TcpSegment) {
    && Ipv4Fits(s.ip, HeaderSize(s.tcp) + |s.data|)
    && HeaderSize(s.tcp) <= MAX_TCP_HEADER2_SIZE && !HasEmptySack(s.tcp.options)
  }

  lemma {:induction false} SizesBound(os: seq<TcpOption>)
    requires forall o | o in os :: ValidOption(o)
    ensures AllSizes(os) <= 34 * |os|
  {
    if os != [] {
      assert os[0] in os;
      SizesBound(os[1..]);
    }
  }

  /** Full-frame round trip: parsing a serialised TCP frame through Ethernet, IPv4 and TCP gives
      back the same headers, without no-operations, and exactly the data, without padding, if
      and only if every field fits its place on the wire. */
  lemma TcpFrameRoundTrip(s: TcpSegment)
    requires ValidHeader(s.tcp)
    ensures ParseTcpFrame(TcpFrame(s)) == Ok(s.(tcp := Received(s.tcp))) <==> TcpFits(s)
  {
    hide ParseFrame, Frame, ParseTcp, TcpBytes, HeaderSize, HasEmptySack, Kept;
    var payload := TcpBytes(s.tcp, s.ip, s.data) + s.data;
    FrameReads(s.ethernet, s.ip, payload);
    if HeaderSize(s.tcp) <= MAX_TCP_HEADER2_SIZE {
      TcpRoundTrip(s.tcp, s.ip, s.data);
    }
    if ParseTcpFrame(TcpFrame(s)) == Ok(s.(tcp := Received(s.tcp))) {
      var got := ParseFrame(TcpFrame(s)).value.2;
      CutSegment(s, got);
      assert got == payload;
    }
  }

  /** A segment cut at `got` that still parses to the same data was not cut. */
  lemma CutSegment(s: TcpSegment, got: Bytes)
    requires ValidHeader(s.tcp) && |got| <= HeaderSize(s.tcp) + |s.data|
    requires got == (TcpBytes(s.tcp, s.ip, s.data) + s.data)[..|got|]
    requires (IPV4_HEADER2_SIZE + HeaderSize(s.tcp) + |s.data|) % 0x1_0000 == IPV4_HEADER2_SIZE + |got|
    requires ParseTcp(s.ip, got).Ok? && ParseTcp(s.ip, got).value.1 == s.data
    ensures |got| == HeaderSize(s.tcp) + |s.data| && HeaderSize(s.tcp) <= MAX_TCP_HEADER2_SIZE
  {
    hide ParseTcp, TcpBytes, Get16, Get32, FlagByte, TcpSum, OptionArea, HeaderSize;
    TcpHeaderReads(s.tcp, s.ip, s.data);
    var size, offset := HeaderSize(s.tcp), got[12] / 16 * 4;
    assert |s.data| == |got| - offset;
    assert got[12] == TcpBytes(s.tcp, s.ip, s.data)[12];
    OffsetReads(size, s.tcp.ns);
    SizeBound(s.tcp);
    hide *;
    CutLengths(size, |s.data|, |got|, offset);
  }

  lemma SizeBound(h: TcpHeader)
    requires ValidHeader(h)
    ensures HeaderSize(h) < 0x1_0000
  {
    hide AllSizes;
    SizesBound(h.options);
  }

  lemma CutLengths(size: nat, data: nat, got: nat, offset: nat)
    requires size < 0x1_0000 && offset <= size && offset < 64 && (offset == size <==> size <= 60)
    requires data == got - offset && got <= size + data
    requires (IPV4_HEADER2_SIZE + size + data) % 0x1_0000 == IPV4_HEADER2_SIZE + got
    ensures got == size + data && size <= MAX_TCP_HEADER2_SIZE
  {
    assert (IPV4_HEADER2_SIZE + size + data) - (IPV4_HEADER2_SIZE + got) == size - offset;
  }

  /** The checksum's 32-bit accumulator cannot overflow on anything IPv4 can carry. */
  lemma TcpSumBounded(ip: Ipv4Header, hdr: Bytes, data: Bytes)
    requires |hdr| >= MIN_TCP_HEADER2_SIZE && IPV4_HEADER2_SIZE + |hdr| + |data| < 0x1_0000
    ensures 0xFFFF + TcpSum(ip, hdr, data) < 0x1_0000_0000
  {
    hide SumWords;
    SumWordsBound(hdr[..16]);
    SumWordsBound(hdr[18..]);
    SumWordsBound(data);
  }

  // ----- Corruption -----

  /** The checksum covers the same words wherever the data begins. */
  lemma TcpSumWhole(ip: Ipv4Header, b: Bytes, offset: nat)
    requires offset % 2 == 0 && MIN_TCP_HEADER2_SIZE <= offset <= |b|
    ensures TcpSum(ip, b[..offset], b[offset..]) == PseudoSum(ip, Tcp, |b|) + SumWords(b[..16]) + SumWords(b[18..])
  {
    hide SumWords, PseudoSum;
    assert b[..offset][..16] == b[..16] && b[..offset][18..] == b[18..offset];
    assert b[18..] == b[18..offset] + b[offset..];
    SumWordsConcat(b[18..offset], b[offset..]);
  }

  /** What parses has the checksum of all its other words. */
  lemma ParsedChecksum(ip: Ipv4Header, b: Bytes)
    requires ParseTcp(ip, b).Ok?
    ensures |b| >= MIN_TCP_HEADER2_SIZE
    ensures Get16(b, 16) == Complement(PseudoSum(ip, Tcp, |b|) + SumWords(b[..16]) + SumWords(b[18..]))
  {
    hide SumWords, PseudoSum, Complement, ReadOptions, TcpSum, Get16, Get32;
    var offset := b[12] / 16 * 4;
    TcpSumWhole(ip, b, offset);
    SameField(b[..offset], b, 16);
  }

  /** A segment of which one word, other than the checksum, was changed is refused, unless the
      change was between all zeros and all ones. */
  lemma CorruptionIsRefused(ip: Ipv4Header, b: Bytes, j: nat, x: Byte, y: Byte)
    requires ParseTcp(ip, b).Ok? && j % 2 == 0 && j + 2 <= |b| && j != 16
    requires Word(x, y) % 0xFFFF != Word(b[j], b[j + 1]) % 0xFFFF
    ensures ParseTcp(ip, b[j := x][j + 1 := y]).Err?
  {
    hide ParseTcp, SumWords, PseudoSum, Complement, Word;
    var c := b[j := x][j + 1 := y];
    ParsedChecksum(ip, b);
    if ParseTcp(ip, c).Ok? {
      ParsedChecksum(ip, c);
      SameField(b, c, 16);
      var rest := PseudoSum(ip, Tcp, |b|);
      if j < 16 {
        assert c[..16] == b[..16][j := x][j + 1 := y] && c[18..] == b[18..];
        SumWordsReplaced(b[..16], j, x, y);
      } else {
        assert c[..16] == b[..16] && c[18..] == b[18..][j - 18 := x][j - 17 := y];
        SumWordsReplaced(b[18..], j - 18, x, y);
      }
      ChecksumDetects(rest + SumWords(c[..16]) + SumWords(c[18..]), rest + SumWords(b[..16]) + SumWords(b[18..]));
      SameResidueClass(Word(x, y), Word(b[j], b[j + 1]));
    }
  }

  lemma SameResidueClass(v: nat, w: nat)
    requires (v - w) % 0xFFFF == 0
    ensures v % 0xFFFF == w % 0xFFFF
  {
    var k := (v - w) / 0xFFFF;
    assert v == w + 0xFFFF * k;
  }
}
