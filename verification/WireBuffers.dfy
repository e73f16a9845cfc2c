/** Serialisation in place: headers are written into a frame buffer, checksums last. */
module WireBuffers {
  import opened Base
  import opened Checksum
  import opened Wire
  import opened TcpOptions
  import opened TcpWire
  import opened UdpWire

  /** `now` is `was` with `bytes` written at `pos`. */
  ghost predicate Written(was: Bytes, now: Bytes, pos: nat, bytes: Bytes) {
    && pos + |bytes| <= |was| == |now|
    && forall i | 0 <= i < |now| :: now[i] == if pos <= i < pos + |bytes| then bytes[i - pos] else was[i]
  }

  lemma NothingWritten(a: Bytes, pos: nat)
    requires pos <= |a|
    ensures Written(a, a, pos, [])
  {
  }

  /** Two writes side by side are one. */
  lemma WrittenTwice(a: Bytes, b: Bytes, c: Bytes, pos: nat, x: Bytes, y: Bytes)
    requires Written(a, b, pos, x) && Written(b, c, pos + |x|, y)
    ensures Written(a, c, pos, x + y)
  {
  }

  /** Two written parts with `gap` bytes between them, read back from the place of the first. */
  lemma TwoParts(a: Bytes, b: Bytes, c: Bytes, pos: nat, x: Bytes, gap: nat, y: Bytes)
    requires Written(a, b, pos, x) && Written(b, c, pos + |x| + gap, y)
    ensures var hdr := c[pos..pos + |x| + gap + |y|]; hdr[..|x|] == x && hdr[|x| + gap..] == y
  {
    var hdr := c[pos..pos + |x| + gap + |y|];
    assert forall i | 0 <= i < |x| :: hdr[i] == c[pos + i] == b[pos + i] == x[i];
    assert forall i | 0 <= i < |y| :: hdr[|x| + gap + i] == c[pos + |x| + gap + i] == y[i];
  }

  /** Filling a gap between two written parts. */
  lemma WrittenGap(a: Bytes, b: Bytes, c: Bytes, d: Bytes, pos: nat, x: Bytes, gap: Bytes, y: Bytes)
    requires Written(a, b, pos, x) && Written(b, c, pos + |x| + |gap|, y) && Written(c, d, pos + |x|, gap)
    ensures Written(a, d, pos, x + gap + y)
  {
    WrittenTwice(a, b, b[..pos + |x|] + gap + b[pos + |x| + |gap|..], pos, x, gap);
    WrittenTwice(a, b[..pos + |x|] + gap + b[pos + |x| + |gap|..], d, pos, x + gap, y);
  }

  method Write(buf: array<Byte>, pos: nat, bytes: Bytes)
    requires pos + |bytes| <= buf.Length
    modifies buf
    ensures Written(old(buf[..]), buf[..], pos, bytes)
  {
    for i := 0 to |bytes|
      invariant forall k | 0 <= k < buf.Length :: buf[k] == if pos <= k < pos + i then bytes[k - pos] else old(buf[k])
    {
      buf[pos + i] := bytes[i];
    }
  }

  /** The loop of `ipv4_checksum`: every word of the header but the sixth. */
  method AddHeaderWords(hdr: Bytes) returns (r: nat)
    requires |hdr| == IPV4_HEADER2_SIZE
    ensures r == Ipv4Checksum(hdr)
  {
    var state := 0;
    var i := 0;
    while i < 10
      invariant 0 <= i <= 10
      invariant state == SumWords(hdr[..if i < 5 then 2 * i else 10]) + if i <= 6 then 0 else SumWords(hdr[12..2 * i])
    {
      if i != 5 {
        if i < 5 {
          assert hdr[..2 * i + 2] == hdr[..2 * i] + [hdr[2 * i], hdr[2 * i + 1]];
          SumWordsConcat(hdr[..2 * i], [hdr[2 * i], hdr[2 * i + 1]]);
        } else {
          assert hdr[12..2 * i + 2] == hdr[12..2 * i] + [hdr[2 * i], hdr[2 * i + 1]];
          SumWordsConcat(hdr[12..2 * i], [hdr[2 * i], hdr[2 * i + 1]]);
        }
        state := state + Word(hdr[2 * i], hdr[2 * i + 1]);
      }
      i := i + 1;
    }
    assert hdr[12..20] == hdr[12..];
    r := SubtractingLoop(state);
  }

  method WriteIpv4(buf: array<Byte>, pos: nat, h: Ipv4Header, payloadLen: nat)
    requires pos + IPV4_HEADER2_SIZE <= buf.Length
    modifies buf
    ensures Written(old(buf[..]), buf[..], pos, Ipv4Bytes(h, payloadLen))
  {
    hide Ipv4Front, Ipv4Back, SumWords, Put16, Complement, Written;
    var front, back := Ipv4Front(h, payloadLen), Ipv4Back(h);
    Write(buf, pos, front);
    ghost var b := buf[..];
    Write(buf, pos + 12, back);
    ghost var c := buf[..];
    var hdr := buf[pos..pos + 20];
    TwoParts(old(buf[..]), b, c, pos, front, 2, back);
    var checksum := AddHeaderWords(hdr);
    Write(buf, pos + 10, Put16(checksum));
    WrittenGap(old(buf[..]), b, c, buf[..], pos, front, Put16(checksum), back);
  }

  /** Options, end marker and zeros of a TCP header. */
  method WriteOptions(buf: array<Byte>, pos: nat, h: TcpHeader)
    requires ValidHeader(h) && pos + HeaderSize(h) - MIN_TCP_HEADER2_SIZE <= buf.Length
    modifies buf
    ensures Written(old(buf[..]), buf[..], pos, OptionArea(h))
  {
    hide OptionBytes, OptionSize, ValidOption, Written, AllSizes, AllBytes;
    NothingWritten(buf[..], pos);
    NoOptions(h.options);
    if h.options == [] {
      return;
    }
    var cur := pos;
    for i := 0 to |h.options|
      invariant Sizes(h.options, i) == cur - pos
      invariant Written(old(buf[..]), buf[..], pos, AllBytes(h.options[..i]))
    {
      SizesStep(h.options, i);
      AllBytesStep(h.options, i);
      ghost var b := buf[..];
      Write(buf, cur, OptionBytes(h.options[i]));
      WrittenTwice(old(buf[..]), b, buf[..], pos, AllBytes(h.options[..i]), OptionBytes(h.options[i]));
      cur := cur + OptionSize(h.options[i]);
    }
    assert h.options[..|h.options|] == h.options;
    ghost var b := buf[..];
    Write(buf, cur, [0]);
    WrittenTwice(old(buf[..]), b, buf[..], pos, AllBytes(h.options), [0]);
    ghost var c := buf[..];
    var zeros := HeaderSize(h) - MIN_TCP_HEADER2_SIZE - AllSizes(h.options) - 1;
    Write(buf, cur + 1, Zeros(zeros));
    WrittenTwice(old(buf[..]), c, buf[..], pos, AllBytes(h.options) + [0], Zeros(zeros));
  }

  function Sizes(os: seq<TcpOption>, i: nat): nat
    requires i <= |os|
  {
    AllSizes(os[..i])
  }

  lemma {:induction false} SizesConcat(a: seq<TcpOption>, b: seq<TcpOption>)
    ensures AllSizes(a + b) == AllSizes(a) + AllSizes(b)
  {
    if a == [] {
      assert a + b == b;
    } else {
      assert (a + b)[1..] == a[1..] + b;
      SizesConcat(a[1..], b);
    }
  }

  lemma OneOption(o: TcpOption)
    ensures AllSizes([o]) == OptionSize(o)
    ensures ValidOption(o) ==> AllBytes([o]) == OptionBytes(o)
  {
    hide OptionSize, OptionBytes;
    assert [o][1..] == [];
  }

  lemma NoOptions(os: seq<TcpOption>)
    ensures Sizes(os, 0) == 0 && Sizes(os, |os|) == AllSizes(os)
    ensures AllBytes(os[..0]) == []
  {
    assert os[..|os|] == os;
  }

  lemma SizesStep(os: seq<TcpOption>, i: nat)
    requires i < |os|
    ensures Sizes(os, i + 1) == Sizes(os, i) + OptionSize(os[i]) && Sizes(os, i + 1) <= AllSizes(os)
  {
    hide AllSizes, OptionSize;
    assert os[..i + 1] == os[..i] + [os[i]];
    SizesConcat(os[..i], [os[i]]);
    OneOption(os[i]);
    assert os == os[..i + 1] + os[i + 1..];
    SizesConcat(os[..i + 1], os[i + 1..]);
  }

  lemma {:induction false} AllBytesConcat(a: seq<TcpOption>, b: seq<TcpOption>)
    requires (forall o | o in a :: ValidOption(o)) && (forall o | o in b :: ValidOption(o))
    ensures forall o | o in a + b :: ValidOption(o)
    ensures AllBytes(a + b) == AllBytes(a) + AllBytes(b)
  {
    if a == [] {
      assert a + b == b;
    } else {
      assert (a + b)[1..] == a[1..] + b;
      AllBytesConcat(a[1..], b);
    }
  }

  lemma AllBytesStep(os: seq<TcpOption>, i: nat)
    requires i < |os| && forall o | o in os :: ValidOption(o)
    ensures AllBytes(os[..i + 1]) == AllBytes(os[..i]) + OptionBytes(os[i])
  {
    hide AllBytes, OptionBytes;
    assert os[..i + 1] == os[..i] + [os[i]];
    AllBytesConcat(os[..i], [os[i]]);
    OneOption(os[i]);
  }

  /** The loops of `tcp_checksum`; the 32-bit accumulator overflows, and aborts, exactly if the
      sum does not fit. */
  method AddSegmentWords(ip: Ipv4Header, hdr: Bytes, data: Bytes) returns (ok: bool, r: nat)
    requires |hdr| >= MIN_TCP_HEADER2_SIZE
    ensures ok <==> 0xFFFF + TcpSum(ip, hdr, data) < 0x1_0000_0000
    ensures ok ==> r == Complement(TcpSum(ip, hdr, data))
  {
    hide SumWords, PseudoSum, Complement;
    r := 0;
    var state := 0xFFFF + PseudoSum(ip, Tcp, |hdr| + |data|);
    ok, state := AddWords(state, hdr[..16]);
    if ok {
      ok, state := AddWords(state, hdr[18..]);
      if ok {
        ok, state := AddWords(state, data);
        if ok {
          r := SubtractingLoop(state - 0xFFFF);
        }
      }
    }
  }

  method WriteTcp(buf: array<Byte>, pos: nat, h: TcpHeader, ip: Ipv4Header, data: Bytes) returns (ok: bool)
    requires ValidHeader(h) && pos + HeaderSize(h) <= buf.Length
    modifies buf
    ensures IPV4_HEADER2_SIZE + HeaderSize(h) + |data| < 0x1_0000 ==> ok
    ensures ok ==> Written(old(buf[..]), buf[..], pos, TcpBytes(h, ip, data))
  {
    hide TcpFront, OptionArea, SumWords, Put16, Complement, HeaderSize, PseudoSum, Written;
    var n := HeaderSize(h);
    Write(buf, pos, TcpFront(h));
    ghost var b := buf[..];
    Write(buf, pos + 18, Put16(h.urgentPointer));
    ghost var c := buf[..];
    WriteOptions(buf, pos + 20, h);
    WrittenTwice(b, c, buf[..], pos + 18, Put16(h.urgentPointer), OptionArea(h));
    ghost var d := buf[..];
    var hdr := buf[pos..pos + n];
    TwoParts(old(buf[..]), b, d, pos, TcpFront(h), 2, TcpBack(h));
    if IPV4_HEADER2_SIZE + n + |data| < 0x1_0000 {
      TcpSumBounded(ip, hdr, data);
    }
    var checksum;
    ok, checksum := AddSegmentWords(ip, hdr, data);
    if ok {
      Write(buf, pos + 16, Put16(checksum));
      WrittenGap(old(buf[..]), b, d, buf[..], pos, TcpFront(h), Put16(checksum), TcpBack(h));
    }
  }

  /** A TCP frame written into a buffer of its size: every byte is the frame's, whatever the
      buffer held before, and the checksum does not overflow on what IPv4 can carry. */
  method SerializeTcp(buf: array<Byte>, s: TcpSegment) returns (ok: bool)
    requires ValidHeader(s.tcp) && buf.Length == |TcpFrame(s)|
    modifies buf
    ensures IPV4_HEADER2_SIZE + HeaderSize(s.tcp) + |s.data| < 0x1_0000 ==> ok
    ensures ok ==> buf[..] == TcpFrame(s)
  {
    hide EthernetBytes, Ipv4Bytes, TcpBytes, HeaderSize, Zeros;
    var n := HeaderSize(s.tcp);
    ghost var a := buf[..];
    Write(buf, 0, EthernetBytes(s.ethernet));
    ghost var b := buf[..];
    WriteIpv4(buf, 14, s.ip, n + |s.data|);
    ghost var c := buf[..];
    WrittenTwice(a, b, c, 0, EthernetBytes(s.ethernet), Ipv4Bytes(s.ip, n + |s.data|));
    ok := WriteTcp(buf, 34, s.tcp, s.ip, s.data);
    if ok {
      ghost var d := buf[..];
      Write(buf, 34 + n, s.data);
      ghost var e := buf[..];
      WrittenTwice(c, d, e, 34, TcpBytes(s.tcp, s.ip, s.data), s.data);
      var end := 34 + n + |s.data|;
      Write(buf, end, Zeros(buf.Length - end));
      ghost var f := buf[..];
      WrittenTwice(c, e, f, 34, TcpBytes(s.tcp, s.ip, s.data) + s.data, Zeros(buf.Length - end));
      WrittenTwice(a, c, f, 0, EthernetBytes(s.ethernet) + Ipv4Bytes(s.ip, n + |s.data|),
                   TcpBytes(s.tcp, s.ip, s.data) + s.data + Zeros(buf.Length - end));
      assert f == f[0..|f|];
    }
  }

  /** The loops of `udp_checksum`. */
  method AddDatagramWords(ip: Ipv4Header, front: Bytes, data: Bytes) returns (ok: bool, r: nat)
    ensures ok <==> 0xFFFF + UdpSum(ip, front, data) < 0x1_0000_0000
    ensures ok ==> r == Complement(UdpSum(ip, front, data))
  {
    hide SumWords, PseudoSum, Complement;
    r := 0;
    var state := 0xFFFF + PseudoSum(ip, Udp, UDP_HEADER2_SIZE + |data|);
    ok, state := AddWords(state, front);
    if ok {
      ok, state := AddWords(state, data);
      if ok {
        r := SubtractingLoop(state - 0xFFFF);
      }
    }
  }

  method WriteUdp(buf: array<Byte>, pos: nat, h: UdpHeader, ip: Ipv4Header, data: Bytes) returns (ok: bool)
    requires pos + UDP_HEADER2_SIZE <= buf.Length
    modifies buf
    ensures IPV4_HEADER2_SIZE + UDP_HEADER2_SIZE + |data| < 0x1_0000 ==> ok
    ensures ok ==> Written(old(buf[..]), buf[..], pos, UdpBytes(h, ip, data))
  {
    hide UdpFront, UdpSum, Put16, Complement;
    Write(buf, pos, UdpFront(h, |data|));
    ghost var b := buf[..];
    var front := buf[pos..pos + 6];
    if IPV4_HEADER2_SIZE + UDP_HEADER2_SIZE + |data| < 0x1_0000 {
      UdpSumBounded(ip, front, data);
    }
    var checksum;
    ok, checksum := AddDatagramWords(ip, front, data);
    if ok {
      assert front == UdpFront(h, |data|);
      Write(buf, pos + 6, Put16(checksum));
      WrittenTwice(old(buf[..]), b, buf[..], pos, UdpFront(h, |data|), Put16(checksum));
    }
  }

  /** A UDP frame written into a buffer of its size. */
  method SerializeUdp(buf: array<Byte>, d: UdpDatagram) returns (ok: bool)
    requires buf.Length == |UdpFrame(d)|
    modifies buf
    ensures IPV4_HEADER2_SIZE + UDP_HEADER2_SIZE + |d.data| < 0x1_0000 ==> ok
    ensures ok ==> buf[..] == UdpFrame(d)
  {
    hide EthernetBytes, Ipv4Bytes, UdpBytes, Zeros;
    ghost var a := buf[..];
    Write(buf, 0, EthernetBytes(d.ethernet));
    ghost var b := buf[..];
    WriteIpv4(buf, 14, d.ip, UDP_HEADER2_SIZE + |d.data|);
    ghost var c := buf[..];
    WrittenTwice(a, b, c, 0, EthernetBytes(d.ethernet), Ipv4Bytes(d.ip, UDP_HEADER2_SIZE + |d.data|));
    ok := WriteUdp(buf, 34, d.udp, d.ip, d.data);
    if ok {
      ghost var e := buf[..];
      Write(buf, 42, d.data);
      ghost var f := buf[..];
      WrittenTwice(c, e, f, 34, UdpBytes(d.udp, d.ip, d.data), d.data);
      var end := 42 + |d.data|;
      Write(buf, end, Zeros(buf.Length - end));
      ghost var g := buf[..];
      WrittenTwice(c, f, g, 34, UdpBytes(d.udp, d.ip, d.data) + d.data, Zeros(buf.Length - end));
      WrittenTwice(a, c, g, 0, EthernetBytes(d.ethernet) + Ipv4Bytes(d.ip, UDP_HEADER2_SIZE + |d.data|),
                   UdpBytes(d.udp, d.ip, d.data) + d.data + Zeros(buf.Length - end));
      assert g == g[0..|g|];
    }
  }
}
