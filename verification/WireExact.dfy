/** The parsers accept exactly what the formats say, and find each field in its place. */
module WireExact {
  import opened Base
  import opened SeqNumbers
  import opened Wire
  import opened TcpOptions
  import opened TcpWire
  import opened UdpWire
  import opened WireSums

  lemma Field32(b: Bytes, i: nat)
    requires i + 4 <= |b|
    ensures BigEndian(b[i..i + 4]) == Get32(b, i)
  {
  }

  // ----- Places -----

  /** Ethernet II: destination, source, then the type. */
  lemma EthernetLayout(b: Bytes, h: EthernetHeader, rest: Bytes)
    requires ParseEthernet(b) == Ok((h, rest))
    ensures |b| >= 14 && h.dst == b[..6] && h.src == b[6..12] && rest == b[14..]
    ensures BigEndian(b[12..14]) == match h.etherType case Ipv4 => 0x0800 case Arp => 0x0806
  {
    Field16(b, 12);
    assert b[0..6] == b[..6];
  }

  /** Section 3.1 of RFC 791. */
  lemma Ipv4Layout(b: Bytes, h: Ipv4Header, payload: Bytes)
    requires ParseIpv4(b) == Ok((h, payload))
    ensures |b| >= 20 && b[0] == 0x45 && h.dscp == b[1] / 4 && h.ecn == b[1] % 4
    ensures BigEndian(b[2..4]) == 20 + |payload| <= |b| && payload == b[20..20 + |payload|]
    ensures BigEndian(b[4..6]) == h.identification && BigEndian(b[6..8]) == h.flags * 0x2000
    ensures h.timeToLive == b[8] && b[9] == match h.protocol case Icmpv4 => 1 case Tcp => 6 case Udp => 17
    ensures BigEndian(b[12..16]) == h.srcAddr && BigEndian(b[16..20]) == h.dstAddr
  {
    ParsedFields(b, h, payload);
    var hdr := b[..20];
    assert hdr[0] == b[0] && hdr[1] == b[1] && hdr[8] == b[8] && hdr[9] == b[9];
    assert hdr[2..4] == b[2..4] && hdr[4..6] == b[4..6] && hdr[6..8] == b[6..8];
    assert hdr[12..16] == b[12..16] && hdr[16..20] == b[16..20];
    hide ParseIpv4, Ipv4Checksum, Get16, Get32, BigEndian;
    Field16(hdr, 2);
    Field16(hdr, 4);
    Field16(hdr, 6);
    Field32(hdr, 12);
    Field32(hdr, 16);
    assert b[20..][..|payload|] == payload == b[20..20 + |payload|];
  }

  lemma {:induction false} BitAtIs(n: nat, k: nat)
    ensures Power2(k) > 0 && (BitAt(n, k) <==> n / Power2(k) % 2 == 1)
  {
    if k > 0 {
      BitAtIs(n / 2, k - 1);
      HalfTwice(n, Power2(k - 1));
    }
  }

  lemma HalfTwice(n: nat, d: nat)
    requires d > 0
    ensures n / 2 / d == n / (2 * d)
  {
    var q, r := n / 2 / d, n / 2 % d;
    assert n / 2 == d * q + r;
    var m := n % 2 + 2 * r;
    assert n == 2 * d * q + m && 0 <= m < 2 * d;
    Quotient(n, 2 * d, q, m);
  }

  lemma Quotient(n: nat, d: nat, q: nat, m: nat)
    requires d > 0 && n == d * q + m && m < d
    ensures n / d == q
  {
    var p, r := n / d, n % d;
    assert n == d * p + r;
    Distributes(d, p, q);
    OnlyZero(d, p - q, m - r);
  }

  lemma Distributes(d: int, p: int, q: int)
    ensures d * (p - q) == d * p - d * q
  {
  }

  lemma OnlyZero(d: int, k: int, x: int)
    requires x == d * k && -d < x < d
    ensures k == 0
  {
    AtLeast(d, k);
    AtLeast(d, -k);
  }

  lemma AtLeast(d: int, k: int)
    ensures d > 0 && k >= 1 ==> d * k >= d
  {
  }

  /** The flag bits of section 3.1 of RFC 793 and of RFC 3168, from the last to the first. */
  lemma FlagLayout(b: Byte)
    ensures var f := ReadFlags(b);
      && f.fin == (b % 2 == 1) && f.syn == (b / 2 % 2 == 1) && f.rst == (b / 4 % 2 == 1) && f.psh == (b / 8 % 2 == 1)
      && f.ack == (b / 16 % 2 == 1) && f.urg == (b / 32 % 2 == 1) && f.ece == (b / 64 % 2 == 1) && f.cwr == (b / 128 == 1)
  {
    hide BitAt;
    BitAtIs(b, 0);
    BitAtIs(b, 1);
    BitAtIs(b, 2);
    BitAtIs(b, 3);
    BitAtIs(b, 4);
    BitAtIs(b, 5);
    BitAtIs(b, 6);
    BitAtIs(b, 7);
    assert Power2(2) == 4 && Power2(4) == 16 && Power2(6) == 64;
  }

  /** Section 3.1 of RFC 793. */
  lemma TcpLayout(ip: Ipv4Header, b: Bytes, h: TcpHeader, data: Bytes)
    requires ParseTcp(ip, b) == Ok((h, data))
    ensures |b| >= 20 && BigEndian(b[0..2]) == h.srcPort && BigEndian(b[2..4]) == h.dstPort
    ensures BigEndian(b[4..8]) == h.seqNum && BigEndian(b[8..12]) == h.ackNum
    ensures h.ns == (b[12] % 2 == 1) && h.flags == ReadFlags(b[13]) && BigEndian(b[14..16]) == h.windowSize
    ensures BigEndian(b[18..20]) == h.urgentPointer
    ensures var offset := b[12] / 16 * 4;
      && 20 <= offset <= |b| && data == b[offset..]
      && (if offset == 20 then h.options == [] else ReadOptions(b[20..offset], []) == Ok(h.options))
  {
    hide ReadOptions, TcpSum, ReadFlags, Get16, Get32;
    var offset := b[12] / 16 * 4;
    var hdr := b[..offset];
    assert hdr[20..] == b[20..offset];
    hide BigEndian;
    HeadSlices(b, offset);
    Field16(hdr, 0);
    Field16(hdr, 2);
    Field32(hdr, 4);
    Field32(hdr, 8);
    Field16(hdr, 14);
    Field16(hdr, 18);
  }

  lemma HeadSlices(b: Bytes, offset: nat)
    requires 20 <= offset <= |b|
    ensures var hdr := b[..offset];
      && hdr[0..2] == b[0..2] && hdr[2..4] == b[2..4] && hdr[4..8] == b[4..8] && hdr[8..12] == b[8..12]
      && hdr[14..16] == b[14..16] && hdr[18..20] == b[18..20] && hdr[12] == b[12] && hdr[13] == b[13]
  {
    forall i, j | 0 <= i <= j <= 20 ensures b[..offset][i..j] == b[i..j] {}
  }

  /** RFC 768: a source port of zero means that there is none. */
  lemma UdpLayout(ip: Ipv4Header, b: Bytes, h: UdpHeader, data: Bytes)
    requires ParseUdp(ip, b) == Ok((h, data))
    ensures |b| >= 8 && BigEndian(b[0..2]) == (match h.srcPort case None => 0 case Some(port) => port)
    ensures BigEndian(b[2..4]) == h.dstPort && BigEndian(b[4..6]) == |b| && data == b[8..]
  {
    hide UdpSum;
    UdpFields(b);
    Field16(b, 0);
    Field16(b, 2);
    Field16(b, 4);
  }

  /** A frame is padded with zeros to 46 bytes, its own headers included. */
  lemma FrameLayout(ethernet: EthernetHeader, ip: Ipv4Header, payload: Bytes)
    ensures var f := Frame(ethernet, ip, payload);
      && |f| == (if 34 + |payload| < 46 then 46 else 34 + |payload|)
      && f[34..34 + |payload|] == payload
      && forall i | 34 + |payload| <= i < |f| :: f[i] == 0
  {
    hide EthernetBytes, Ipv4Bytes;
  }

  // ----- Options -----

  lemma {:induction false} SacksParsed(b: Bytes, n: nat)
    requires ReadSacks(b, n).Ok?
    ensures b == SackBytes(ReadSacks(b, n).value.0) + ReadSacks(b, n).value.1
  {
    if n > 0 {
      var (more, rest) := ReadSacks(b[8..], n - 1).value;
      SacksParsed(b[8..], n - 1);
      var pair := (Get32(b, 0), Get32(b, 4));
      assert ReadSacks(b, n).value.0[1..] == more;
      PutGet32(b, 0);
      PutGet32(b, 4);
      hide Get32, Put32, ReadSacks;
      assert b == b[0..4] + b[4..8] + b[8..];
    }
  }

  /** One option is read exactly where its bytes stand. */
  lemma OptionExact(b: Bytes, o: TcpOption, rest: Bytes)
    requires b != [] && b[0] != 0
    ensures ReadOption(b) == Ok((Some(o), rest)) <==>
      ValidOption(o) && !o.NoOperation? && !(o.Sack? && o.sacks == []) && b == OptionBytes(o) + rest
  {
    if ValidOption(o) && b == OptionBytes(o) + rest { OptionRoundTrip(o, rest); }
    if ReadOption(b) == Ok((Some(o), rest)) { OptionParsed(b, o, rest); }
  }

  lemma OptionParsed(b: Bytes, o: TcpOption, rest: Bytes)
    requires b != [] && b[0] != 0 && ReadOption(b) == Ok((Some(o), rest))
    ensures ValidOption(o) && !o.NoOperation? && !(o.Sack? && o.sacks == []) && b == OptionBytes(o) + rest
  {
    hide Put16, Get16, Put32, Get32, ReadSacks, SackBytes;
    match o
    case MaximumSegmentSize(mss) =>
      PutGet16(b, 2);
      assert b == [2, 4] + b[2..4] + b[4..];
    case WindowScale(_) =>
      assert b == [3, 3, b[2]] + b[3..];
    case SackPermitted =>
      assert b == [4, 2] + b[2..];
    case Sack(sacks) =>
      SacksParsed(b[2..], (b[1] - 2) / 8);
      assert b == [b[0], b[1]] + b[2..];
    case Timestamp(_, _) =>
      PutGet32(b, 2);
      PutGet32(b, 6);
      assert b == [8, 10] + b[2..6] + b[6..10] + b[10..];
  }

  lemma NoOperationExact(b: Bytes, rest: Bytes)
    requires b != [] && b[0] != 0
    ensures ReadOption(b) == Ok((None, rest)) <==> b == OptionBytes(NoOperation) + rest
  {
    if b == [1] + rest { OptionRoundTrip(NoOperation, rest); }
    if ReadOption(b) == Ok((None, rest)) { assert b == [1] + b[1..]; }
  }

  /** `b` is the list `os` with its end marker, and `options` is what counts of it. */
  ghost predicate Lists(b: Bytes, os: seq<TcpOption>, padding: Bytes, options: seq<TcpOption>) {
    && (forall o | o in os :: ValidOption(o)) && !HasEmptySack(os)
    && options == Kept(os) && |options| <= MAX_TCP_OPTIONS
    && b == AllBytes(os) + [0] + padding
  }

  lemma {:induction false} OptionsParsed(b: Bytes, found: seq<TcpOption>) returns (os: seq<TcpOption>, padding: Bytes)
    requires |found| <= MAX_TCP_OPTIONS && (forall o | o in found :: ValidOption(o)) && ReadOptions(b, found).Ok?
    ensures forall o | o in os :: ValidOption(o)
    ensures !HasEmptySack(os) && ReadOptions(b, found).value == found + Kept(os)
    ensures b == AllBytes(os) + [0] + padding
    decreases |b|
  {
    hide ReadOption, OptionBytes, HasEmptySack, ValidOption, OptionSize;
    if b[0] == 0 {
      os, padding := [], b[1..];
      NoEmptySack();
      assert found + Kept(os) == found;
      assert b == [0] + padding;
    } else {
      var (option, rest) := ReadOption(b).value;
      var o := if option.None? then NoOperation else option.value;
      var more;
      if option.None? {
        NoOperationExact(b, rest);
        more, padding := OptionsParsed(rest, found);
        NoRanges();
      } else {
        OptionExact(b, o, rest);
        more, padding := OptionsParsed(rest, found + [o]);
      }
      os := [o] + more;
      ConsOption(o, more, padding);
      EmptySackStep(os);
      assert found + [o] + Kept(more) == found + ([o] + Kept(more));
    }
  }

  lemma NoRanges()
    ensures ValidOption(NoOperation)
  {
  }

  lemma ConsOption(o: TcpOption, more: seq<TcpOption>, padding: Bytes)
    requires ValidOption(o) && forall x | x in more :: ValidOption(x)
    ensures var os := [o] + more;
      && os[1..] == more && (forall x | x in os :: ValidOption(x))
      && OptionBytes(o) + (AllBytes(more) + [0] + padding) == AllBytes(os) + [0] + padding
      && Kept(os) == if o.NoOperation? then Kept(more) else [o] + Kept(more)
  {
    hide OptionBytes, ValidOption, OptionSize;
    var os := [o] + more;
    assert os[1..] == more;
    forall x | x in os ensures ValidOption(x) { assert x == o || x in more; }
  }

  /** The option list of a header parses to `options` exactly if it is a list of well-formed
      options followed by the end marker and anything, and `options` is that list without the
      no-operations, at most five. */
  lemma OptionsExact(b: Bytes, options: seq<TcpOption>)
    ensures ReadOptions(b, []) == Ok(options) <==> exists os, padding :: Lists(b, os, padding, options)
  {
    hide ReadOptions, AllBytes, HasEmptySack, ValidOption;
    if ReadOptions(b, []) == Ok(options) {
      var os, padding := OptionsParsed(b, []);
      assert [] + Kept(os) == Kept(os);
      ReadAtMostFive(b);
      assert Lists(b, os, padding, options);
    }
    if os, padding :| Lists(b, os, padding, options) {
      OptionsRoundTrip(os, padding, []);
      assert [] + Kept(os) == Kept(os);
    }
  }

  lemma ReadAtMostFive(b: Bytes)
    ensures ReadOptions(b, []).Ok? ==> |ReadOptions(b, []).value| <= MAX_TCP_OPTIONS
  {
  }
}
