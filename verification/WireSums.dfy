/** What the checksums mean: the bytes they cover, taken as one number in network order, and
    that a change to an address, a header word or the data is refused. */
module WireSums {
  import opened Base
  import opened Checksum
  import opened SeqNumbers
  import opened Wire
  import opened TcpOptions
  import opened TcpWire
  import opened UdpWire

  // ----- Network order -----

  lemma BigEndianSnoc(b: Bytes, x: Byte, y: Byte)
    ensures BigEndian(b + [x, y]) == BigEndian(b) * 0x1_0000 + Word(x, y)
  {
    assert (b + [x, y])[..|b| + 1] == b + [x] && (b + [x])[..|b|] == b;
  }

  /** Fields are written in network order, section 3.1 of RFC 791. */
  lemma NetworkOrder(m: U16, n: U32)
    ensures BigEndian(Put16(m)) == m && BigEndian(Put32(n)) == n
  {
    hide Digits, BigEndian, Range;
    Ranges();
    NumberBack(m, 2);
    NumberBack(n, 4);
  }

  /** The words of an even number of bytes add up to the number they are, modulo 0xFFFF. */
  lemma {:induction false} SumIsNumber(b: Bytes)
    requires |b| % 2 == 0
    ensures (SumWords(b) - BigEndian(b)) % 0xFFFF == 0
  {
    if b != [] {
      var n := |b| - 2;
      var a, x, y := b[..n], b[n], b[n + 1];
      SumIsNumber(a);
      assert b == a + [x, y];
      hide SumWords, BigEndian;
      BigEndianSnoc(a, x, y);
      SumWordsConcat(a, [x, y]);
      PairSum(x, y);
      OneWordMore(SumWords(a), BigEndian(a), Word(x, y));
    }
  }

  lemma OneWordMore(sum: int, number: int, word: int)
    requires (sum - number) % 0xFFFF == 0
    ensures ((sum + word) - (number * 0x1_0000 + word)) % 0xFFFF == 0
  {
    MultipleDifference(sum - number, 0xFFFF * number);
    assert (sum + word) - (number * 0x1_0000 + word) == (sum - number) - 0xFFFF * number;
  }

  lemma PairSum(x: Byte, y: Byte)
    ensures SumWords([x, y]) == Word(x, y)
  {
    assert [x, y][2..] == [];
  }

  lemma WordBound(x: Byte, y: Byte)
    ensures Word(x, y) < 0x1_0000
  {
  }

  lemma {:induction false} PaddedSum(b: Bytes)
    ensures SumWords(b + [0]) == SumWords(b)
  {
    if |b| >= 2 {
      assert (b + [0])[2..] == b[2..] + [0];
      PaddedSum(b[2..]);
    } else if |b| == 1 {
      assert b + [0] == [b[0], 0];
      PairSum(b[0], 0);
    } else {
      assert b + [0] == [0];
    }
  }

  function Padded(b: Bytes): (r: Bytes)
    ensures |r| % 2 == 0
  {
    if |b| % 2 == 0 then b else b + [0]
  }

  /** The receiver's rule, section 1 of RFC 1071: adding up gives all ones exactly if the padded
      bytes, as one number, are a multiple of 0xFFFF. */
  lemma AllOnes(b: Bytes)
    ensures Residue(SumWords(b)) == 0xFFFF <==> BigEndian(Padded(b)) % 0xFFFF == 0
  {
    hide SumWords, BigEndian;
    PaddedSum(b);
    SumIsNumber(Padded(b));
    SameMultiple(SumWords(b), BigEndian(Padded(b)));
    MultipleIsAllOnes(SumWords(b));
  }

  lemma MultipleIsAllOnes(sum: nat)
    ensures Residue(sum) == 0xFFFF <==> sum % 0xFFFF == 0
  {
    hide Residue;
    ResidueIsModulo(sum);
    if sum % 0xFFFF == 0 { SameResidue(0xFFFF, sum); }
    if Residue(sum) == 0xFFFF { MultipleDifference(0xFFFF, 0xFFFF - sum); }
  }

  lemma SameMultiple(s: nat, n: nat)
    requires (s - n) % 0xFFFF == 0
    ensures s % 0xFFFF == 0 <==> n % 0xFFFF == 0
  {
    if s % 0xFFFF == 0 { MultipleDifference(s, s - n); }
    if n % 0xFFFF == 0 { SameResidueClass(s, n); }
  }

  // ----- The pseudo header -----

  /** Section 3.1 of RFC 793, and the same in RFC 768: both addresses, a zero byte, the protocol
      and the length. */
  function PseudoHeader(ip: Ipv4Header, protocol: Byte, length: U16): (r: Bytes)
    ensures |r| == 12
  {
    Put32(ip.srcAddr) + Put32(ip.dstAddr) + [0, protocol] + Put16(length)
  }

  lemma FieldSum(n: U16)
    ensures SumWords(Put16(n)) == n
  {
    var b := Put16(n);
    NetworkOrder(n, 0);
    hide Put16, BigEndian, SumWords;
    assert b == [b[0], b[1]];
    BigEndianPair(b[0], b[1]);
    PairSum(b[0], b[1]);
  }

  lemma AddressSum(n: U32)
    ensures SumWords(Put32(n)) == n / 0x1_0000 + n % 0x1_0000
  {
    var b := Put32(n);
    NetworkOrder(0, n);
    hide Put32, BigEndian, SumWords, Word;
    WordBound(b[2], b[3]);
    assert b == [b[0], b[1]] + [b[2], b[3]];
    BigEndianPair(b[0], b[1]);
    BigEndianSnoc([b[0], b[1]], b[2], b[3]);
    SumWordsConcat([b[0], b[1]], [b[2], b[3]]);
    PairSum(b[0], b[1]);
    PairSum(b[2], b[3]);
    HalvesOf(n, Word(b[0], b[1]), Word(b[2], b[3]));
  }

  lemma HalvesOf(n: nat, hi: nat, lo: nat)
    requires n == hi * 0x1_0000 + lo && lo < 0x1_0000
    ensures n / 0x1_0000 == hi && n % 0x1_0000 == lo
  {
  }

  lemma PseudoSumIsHeader(ip: Ipv4Header, protocol: Protocol, length: U16)
    ensures PseudoSum(ip, protocol, length) == SumWords(PseudoHeader(ip, ProtocolCode(protocol), length))
  {
    hide Put16, Put32, SumWords;
    var src, dst, code := Put32(ip.srcAddr), Put32(ip.dstAddr), ProtocolCode(protocol);
    SumWordsConcat(src + dst + [0, code], Put16(length));
    SumWordsConcat(src + dst, [0, code]);
    SumWordsConcat(src, dst);
    AddressSum(ip.srcAddr);
    AddressSum(ip.dstAddr);
    PairSum(0, code);
    FieldSum(length);
  }

  /** The checksum field of a sum is right exactly if adding it gives all ones, and it is not
      itself all ones. */
  lemma RightField(sum: nat, field: U16)
    ensures field == Complement(sum) <==> Residue(sum + field) == 0xFFFF && field != 0xFFFF
  {
    ChecksumVerifies(sum);
    if Residue(sum + field) == 0xFFFF && field != 0xFFFF {
      hide Residue;
      var c := Complement(sum);
      ResidueIsModulo(sum + field);
      ResidueIsModulo(sum + c);
      MultipleDifference(Residue(sum + field) - (sum + field), Residue(sum + c) - (sum + c));
      assert (Residue(sum + field) - (sum + field)) - (Residue(sum + c) - (sum + c)) == c - field;
    }
  }

  // ----- TCP -----

  /** Splitting a segment at its checksum field. */
  lemma SegmentSum(b: Bytes)
    requires |b| >= 18
    ensures SumWords(b) == SumWords(b[..16]) + Get16(b, 16) + SumWords(b[18..])
  {
    SumWordsSplit(b, 16);
    Get16IsWord(b, 16);
  }

  /** Everything the checksum of segment `b` covers, in the order of section 3.1 of RFC 793. */
  function Covered(ip: Ipv4Header, protocol: Byte, b: Bytes): Bytes
    requires |b| < 0x1_0000
  {
    PseudoHeader(ip, protocol, |b|) + b
  }

  lemma CoveredSum(ip: Ipv4Header, protocol: Protocol, b: Bytes)
    requires |b| < 0x1_0000
    ensures SumWords(Covered(ip, ProtocolCode(protocol), b)) == PseudoSum(ip, protocol, |b|) + SumWords(b)
  {
    hide SumWords, PseudoHeader;
    SumWordsConcat(PseudoHeader(ip, ProtocolCode(protocol), |b|), b);
    PseudoSumIsHeader(ip, protocol, |b|);
  }

  /** The options of a segment parse: there are none, or `ReadOptions` finds them. */
  predicate OptionsOk(b: Bytes, offset: nat)
    requires 20 <= offset <= |b|
  {
    offset > 20 ==> ReadOptions(b[20..offset], []).Ok?
  }

  /** A segment is accepted exactly if its data offset lies inside it, both ports are nonzero, its
      options parse, and the covered bytes add up to all ones with a checksum field that is not
      all ones. */
  lemma SegmentAccepted(ip: Ipv4Header, b: Bytes)
    requires |b| < 0x1_0000
    ensures ParseTcp(ip, b).Ok? <==>
      && |b| >= 20 && 20 <= b[12] / 16 * 4 <= |b|
      && BigEndian(b[0..2]) != 0 && BigEndian(b[2..4]) != 0
      && OptionsOk(b, b[12] / 16 * 4)
      && Residue(SumWords(Covered(ip, 6, b))) == 0xFFFF && BigEndian(b[16..18]) != 0xFFFF
  {
    hide ReadOptions, SumWords, PseudoSum, Complement, Residue, TcpSum;
    CoveredSum(ip, Tcp, b);
    hide Covered;
    if |b| >= 20 && 20 <= b[12] / 16 * 4 <= |b| {
      var offset := b[12] / 16 * 4;
      TcpSumWhole(ip, b, offset);
      SegmentSum(b);
      Field16(b, 0);
      Field16(b, 2);
      Field16(b, 16);
      hide Get16;
      HeadFields(b, offset);
      var sum := PseudoSum(ip, Tcp, |b|) + SumWords(b[..16]) + SumWords(b[18..]);
      RightField(sum, Get16(b, 16));
      assert b[..offset][20..] == b[20..offset];
    }
  }

  lemma Field16(b: Bytes, i: nat)
    requires i + 2 <= |b|
    ensures BigEndian(b[i..i + 2]) == Get16(b, i)
  {
  }

  lemma HeadFields(b: Bytes, offset: nat)
    requires 20 <= offset <= |b|
    ensures var hdr := b[..offset];
      Get16(hdr, 0) == Get16(b, 0) && Get16(hdr, 2) == Get16(b, 2) && Get16(hdr, 16) == Get16(b, 16)
  {
    hide Get16;
    SameField(b[..offset], b, 0);
    SameField(b[..offset], b, 2);
    SameField(b[..offset], b, 16);
  }

  /** Bytes with a checksum filled in, behind any others, add up to all ones. */
  lemma FilledVerifies(pseudo: Bytes, front: Bytes, tail: Bytes, sum: nat)
    requires |pseudo| % 2 == 0 && |front| % 2 == 0
    requires sum == SumWords(pseudo) + SumWords(front) + SumWords(tail)
    ensures Residue(SumWords(pseudo + (front + Put16(Complement(sum)) + tail))) == 0xFFFF
  {
    hide SumWords, Residue, Put16, Complement;
    var field := Put16(Complement(sum));
    SumWordsConcat(pseudo, front + field + tail);
    SumWordsConcat(front + field, tail);
    SumWordsConcat(front, field);
    FieldSum(Complement(sum));
    ChecksumVerifies(sum);
  }

  /** A serialised segment, behind its pseudo header, adds up to all ones. */
  lemma SegmentVerifies(h: TcpHeader, ip: Ipv4Header, data: Bytes)
    requires ValidHeader(h) && HeaderSize(h) + |data| < 0x1_0000
    ensures Residue(SumWords(Covered(ip, 6, TcpBytes(h, ip, data) + data))) == 0xFFFF
  {
    hide TcpFront, TcpBack, SumWords, PseudoSum, Residue, HeaderSize, Complement, Put16, PseudoHeader, ValidHeader;
    var pseudo := PseudoHeader(ip, 6, HeaderSize(h) + |data|);
    var front, back := TcpFront(h), TcpBack(h);
    SumWordsConcat(back, data);
    PseudoSumIsHeader(ip, Tcp, HeaderSize(h) + |data|);
    var sum := SumWords(pseudo) + SumWords(front) + SumWords(back + data);
    FilledVerifies(pseudo, front, back + data, sum);
    assert front + Put16(Complement(sum)) + (back + data) == TcpBytes(h, ip, data) + data;
  }

  /** Both addresses as bytes. */
  function Addresses(ip: Ipv4Header): (r: Bytes)
    ensures |r| == 8
  {
    Put32(ip.srcAddr) + Put32(ip.dstAddr)
  }

  lemma PseudoSumSplit(ip: Ipv4Header, protocol: Protocol, length: nat)
    ensures PseudoSum(ip, protocol, length) == SumWords(Addresses(ip)) + ProtocolCode(protocol) + length
  {
    hide SumWords, Put32;
    SumWordsConcat(Put32(ip.srcAddr), Put32(ip.dstAddr));
    AddressSum(ip.srcAddr);
    AddressSum(ip.dstAddr);
  }

  /** An accepted segment is accepted with other addresses exactly if they add up to the same,
      modulo 0xFFFF. */
  lemma AddressesCounted(ip: Ipv4Header, to: Ipv4Header, b: Bytes)
    requires ParseTcp(ip, b).Ok?
    ensures ParseTcp(to, b).Ok? <==> (SumWords(Addresses(to)) - SumWords(Addresses(ip))) % 0xFFFF == 0
  {
    hide ReadOptions, SumWords, PseudoSum, Complement, TcpSum, Addresses;
    var offset := b[12] / 16 * 4;
    TcpSumWhole(ip, b, offset);
    TcpSumWhole(to, b, offset);
    PseudoSumSplit(ip, Tcp, |b|);
    PseudoSumSplit(to, Tcp, |b|);
    ChecksumDetects(TcpSum(to, b[..offset], b[offset..]), TcpSum(ip, b[..offset], b[offset..]));
  }

  /** Replacing one address word by one that is not congruent changes the sum. */
  lemma AddressChanged(ip: Ipv4Header, to: Ipv4Header, j: nat, x: Byte, y: Byte)
    requires j % 2 == 0 && j + 2 <= 8 && Addresses(to) == Addresses(ip)[j := x][j + 1 := y]
    requires Word(x, y) % 0xFFFF != Word(Addresses(ip)[j], Addresses(ip)[j + 1]) % 0xFFFF
    ensures (SumWords(Addresses(to)) - SumWords(Addresses(ip))) % 0xFFFF != 0
  {
    hide SumWords, Addresses, Word;
    SumWordsReplaced(Addresses(ip), j, x, y);
    if (SumWords(Addresses(to)) - SumWords(Addresses(ip))) % 0xFFFF == 0 {
      SameResidueClass(Word(x, y), Word(Addresses(ip)[j], Addresses(ip)[j + 1]));
    }
  }

  /** A segment that was sent between other addresses is refused: one address word that is not
      the same modulo 0xFFFF suffices. */
  lemma MisaddressedSegment(ip: Ipv4Header, to: Ipv4Header, b: Bytes, j: nat, x: Byte, y: Byte)
    requires ParseTcp(ip, b).Ok?
    requires j % 2 == 0 && j + 2 <= 8 && Addresses(to) == Addresses(ip)[j := x][j + 1 := y]
    requires Word(x, y) % 0xFFFF != Word(Addresses(ip)[j], Addresses(ip)[j + 1]) % 0xFFFF
    ensures ParseTcp(to, b).Err?
  {
    hide ParseTcp, Addresses, SumWords, Word;
    AddressChanged(ip, to, j, x, y);
    AddressesCounted(ip, to, b);
  }

  // ----- An odd last byte -----

  lemma SumWordsLast(b: Bytes, x: Byte)
    requires |b| % 2 == 1
    ensures SumWords(b[|b| - 1 := x]) == SumWords(b) + (x - b[|b| - 1]) * 256
  {
    var n := |b| - 1;
    var c := b[n := x];
    SumWordsConcat(b[..n], [b[n]]);
    SumWordsConcat(c[..n], [x]);
    assert b == b[..n] + [b[n]] && c == c[..n] + [x] && c[..n] == b[..n];
  }

  lemma LastByteCounts(x: Byte, y: Byte)
    requires x != y
    ensures (x - y) * 256 % 0xFFFF != 0
  {
  }

  /** A segment of odd length whose last byte was changed is refused, without exception. */
  lemma LastByteCorruption(ip: Ipv4Header, b: Bytes, x: Byte)
    requires ParseTcp(ip, b).Ok? && |b| % 2 == 1 && x != b[|b| - 1]
    ensures ParseTcp(ip, b[|b| - 1 := x]).Err?
  {
    hide ParseTcp, SumWords, PseudoSum, Complement;
    var c := b[|b| - 1 := x];
    ParsedChecksum(ip, b);
    if ParseTcp(ip, c).Ok? {
      ParsedChecksum(ip, c);
      SameField(b, c, 16);
      assert c[..16] == b[..16] && c[18..] == b[18..][|b| - 19 := x];
      SumWordsLast(b[18..], x);
      ChecksumDetects(PseudoSum(ip, Tcp, |b|) + SumWords(c[..16]) + SumWords(c[18..]),
                      PseudoSum(ip, Tcp, |b|) + SumWords(b[..16]) + SumWords(b[18..]));
      LastByteCounts(x, b[|b| - 1]);
    }
  }

  lemma DatagramLastByteCorruption(ip: Ipv4Header, b: Bytes, x: Byte)
    requires ParseUdp(ip, b).Ok? && Get16(b, 6) != 0 && |b| % 2 == 1 && x != b[|b| - 1]
    ensures ParseUdp(ip, b[|b| - 1 := x]).Err?
  {
    hide ParseUdp, SumWords, PseudoSum, Complement;
    var c := b[|b| - 1 := x];
    ParsedUdpChecksum(ip, b);
    SameField(b, c, 6);
    if ParseUdp(ip, c).Ok? {
      ParsedUdpChecksum(ip, c);
      assert c[..6] == b[..6] && c[8..] == b[8..][|b| - 9 := x];
      SumWordsLast(b[8..], x);
      ChecksumDetects(UdpSum(ip, c[..6], c[8..]), UdpSum(ip, b[..6], b[8..]));
      LastByteCounts(x, b[|b| - 1]);
    }
  }

  // ----- UDP -----

  /** A datagram is accepted exactly if its destination port is nonzero, its length field is its
      length, and it carries no checksum or the covered bytes add up to all ones. */
  lemma DatagramAccepted(ip: Ipv4Header, b: Bytes)
    requires |b| < 0x1_0000
    ensures ParseUdp(ip, b).Ok? <==>
      && |b| >= 8 && BigEndian(b[2..4]) != 0 && BigEndian(b[4..6]) == |b|
      && (BigEndian(b[6..8]) == 0 ||
          (Residue(SumWords(Covered(ip, 17, b))) == 0xFFFF && BigEndian(b[6..8]) != 0xFFFF))
  {
    hide SumWords, PseudoSum, Complement, Residue;
    CoveredSum(ip, Udp, b);
    hide Covered;
    if |b| >= 8 {
      SumWordsSplit(b, 6);
      Field16(b, 2);
      Field16(b, 4);
      Field16(b, 6);
      UdpFields(b);
      assert b[..8][..6] == b[..6];
      RightField(UdpSum(ip, b[..6], b[8..]), Get16(b, 6));
    }
  }

  lemma UdpFields(b: Bytes)
    requires |b| >= 8
    ensures var hdr := b[..8];
      && Get16(hdr, 0) == Get16(b, 0) && Get16(hdr, 2) == Get16(b, 2)
      && Get16(hdr, 4) == Get16(b, 4) && Get16(hdr, 6) == Get16(b, 6) == Word(b[6], b[7])
  {
    hide Get16;
    SameField(b[..8], b, 0);
    SameField(b[..8], b, 2);
    SameField(b[..8], b, 4);
    SameField(b[..8], b, 6);
    Get16IsWord(b, 6);
  }

  /** A serialised datagram, behind its pseudo header, adds up to all ones. */
  lemma DatagramVerifies(h: UdpHeader, ip: Ipv4Header, data: Bytes)
    requires UDP_HEADER2_SIZE + |data| < 0x1_0000
    ensures Residue(SumWords(Covered(ip, 17, UdpBytes(h, ip, data) + data))) == 0xFFFF
  {
    hide UdpFront, SumWords, PseudoSum, Residue, Put16, PseudoHeader, Complement;
    var pseudo := PseudoHeader(ip, 17, 8 + |data|);
    var front := UdpFront(h, |data|);
    PseudoSumIsHeader(ip, Udp, 8 + |data|);
    var sum := SumWords(pseudo) + SumWords(front) + SumWords(data);
    FilledVerifies(pseudo, front, data, sum);
    assert front + Put16(Complement(sum)) + data == UdpBytes(h, ip, data) + data;
  }

  /** A datagram with a checksum, accepted between two addresses, is accepted between others
      exactly if they add up to the same, modulo 0xFFFF. */
  lemma DatagramAddressesCounted(ip: Ipv4Header, to: Ipv4Header, b: Bytes)
    requires ParseUdp(ip, b).Ok? && Get16(b, 6) != 0
    ensures ParseUdp(to, b).Ok? <==> (SumWords(Addresses(to)) - SumWords(Addresses(ip))) % 0xFFFF == 0
  {
    hide SumWords, PseudoSum, Complement, Addresses;
    UdpFields(b);
    assert b[..8][..6] == b[..6];
    hide Get16;
    PseudoSumSplit(ip, Udp, |b|);
    PseudoSumSplit(to, Udp, |b|);
    ChecksumDetects(UdpSum(to, b[..6], b[8..]), UdpSum(ip, b[..6], b[8..]));
  }

  lemma MisaddressedDatagram(ip: Ipv4Header, to: Ipv4Header, b: Bytes, j: nat, x: Byte, y: Byte)
    requires ParseUdp(ip, b).Ok? && Get16(b, 6) != 0
    requires j % 2 == 0 && j + 2 <= 8 && Addresses(to) == Addresses(ip)[j := x][j + 1 := y]
    requires Word(x, y) % 0xFFFF != Word(Addresses(ip)[j], Addresses(ip)[j + 1]) % 0xFFFF
    ensures ParseUdp(to, b).Err?
  {
    hide ParseUdp, Addresses, SumWords, Word;
    AddressChanged(ip, to, j, x, y);
    DatagramAddressesCounted(ip, to, b);
  }

  // ----- IPv4 -----

  lemma HeaderSum(hdr: Bytes)
    requires |hdr| == IPV4_HEADER2_SIZE
    ensures SumWords(hdr) == SumWords(hdr[..10]) + Get16(hdr, 10) + SumWords(hdr[12..])
  {
    SumWordsSplit(hdr, 10);
    Get16IsWord(hdr, 10);
  }

  /** A serialised IPv4 header adds up to all ones, and only headers that do are accepted. */
  lemma HeaderVerifies(h: Ipv4Header, payloadLen: nat, b: Bytes)
    ensures Residue(SumWords(Ipv4Bytes(h, payloadLen))) == 0xFFFF
    ensures ParseIpv4(b).Ok? ==> |b| >= 20 && Residue(SumWords(b[..20])) == 0xFFFF
  {
    hide SumWords, Residue, Get16, Get32, Ipv4Bytes;
    var hdr := Ipv4Bytes(h, payloadLen);
    HeaderSum(hdr);
    HeaderReads(h, payloadLen);
    ChecksumVerifies(SumWords(hdr[..10]) + SumWords(hdr[12..]));
    if ParseIpv4(b).Ok? {
      var got := b[..20];
      HeaderSum(got);
      ChecksumVerifies(SumWords(got[..10]) + SumWords(got[12..]));
    }
  }

  /** A header of which one word was changed is refused, unless the change was between all zeros
      and all ones. */
  lemma HeaderCorruptionIsRefused(b: Bytes, j: nat, x: Byte, y: Byte)
    requires ParseIpv4(b).Ok? && j % 2 == 0 && j + 2 <= 20
    requires |b| >= 20 && Word(x, y) % 0xFFFF != Word(b[j], b[j + 1]) % 0xFFFF
    ensures ParseIpv4(b[j := x][j + 1 := y]).Err?
  {
    hide SumWords, Word, ParseIpv4, Residue;
    var c := b[j := x][j + 1 := y];
    var any := Ipv4Header(0, 0, 0, 0, 0, 0, Tcp, 0, 0);
    HeaderVerifies(any, 0, b);
    if ParseIpv4(c).Ok? {
      HeaderVerifies(any, 0, c);
      assert c[..20] == b[..20][j := x][j + 1 := y];
      SumWordsReplaced(b[..20], j, x, y);
      var s, t := SumWords(b[..20]), SumWords(c[..20]);
      ResidueIsModulo(s);
      ResidueIsModulo(t);
      MultipleDifference(Residue(s) - s, Residue(t) - t);
      assert (Residue(s) - s) - (Residue(t) - t) == Word(x, y) - Word(b[j], b[j + 1]);
      SameResidueClass(Word(x, y), Word(b[j], b[j + 1]));
    }
  }
}
