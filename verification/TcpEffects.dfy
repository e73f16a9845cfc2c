/** Exactly what each action does to an endpoint, in terms of segments, byte counts and
    deadlines, with everything it leaves alone. */
module TcpEffects {
  import opened Base
  import opened SeqNumbers
  import opened TcpState
  import opened TcpNetwork
  import opened TcpSafety
  import opened TcpTheorems
  import Rto

  /** Bytes assigned to sequence numbers and not acknowledged. */
  function InFlight(x: Node): nat { Total(Live(x.cb.snd.unacked)) }

  /** Free bytes in the receive window. */
  function Room(x: Node): int { x.cb.rcv.maxWindow - Total(x.cb.rcv.recvQueue) }

  predicate SameSending(x: Node, x': Node) {
    x'.cb.snd == x.cb.snd && x'.cb.loop == x.cb.loop && x'.sent == x.sent && x'.pushed == x.pushed && x'.probes == x.probes
  }

  predicate SameReceiving(x: Node, x': Node) {
    x'.cb.rcv == x.cb.rcv && x'.pops == x.pops && x'.ackedIx == x.ackedIx
  }

  predicate SameConnection(x: Node, x': Node) { x'.isn == x.isn && x'.peerIsn == x.peerIsn && x'.cb.clock == x.cb.clock }

  /** Does an outgoing data segment carry an acknowledgement? Exactly if something received is not
      acknowledged, unless a multiple of 2^32 lies between. */
  predicate Piggybacks(x: Node)
    requires x.ackedIx <= |Got(x)|
  {
    x.ackedIx < |Got(x)| && AckPos(x) / MOD == RecvPos(x) / MOD
  }

  /** `x` transmitted `seg`, stamped `ix`: it advertises the free window, and it acknowledges
      everything received or nothing. */
  predicate Sends(x: Node, x': Node, seg: Segment, ix: nat) {
    && x'.out == x.out + {Packet(seg, ix, |Got(x)|)}
    && seg.header.windowSize == Room(x) % 0x1_0000
    && if seg.header.ack then
         && seg.header.ackNum == x.cb.rcv.recv && x'.ackedIx == |Got(x)| && x'.pops == x.pops
         && x'.cb.rcv == x.cb.rcv.(ackDeadline := None, ack := x.cb.rcv.recv)
       else SameReceiving(x, x')
  }

  /** The retransmission deadline after a send: the old one, or a timeout from now. */
  function ArmedDeadline(x: Node): real {
    match x.cb.snd.retransmitDeadline
    case Some(t) => t
    case None => x.cb.clock + x.cb.snd.rto.rto
  }

  lemma CompareAcks(x: Node, y: Node)
    requires Inv(x, y)
    ensures x.ackedIx <= |Got(x)| && (x.cb.rcv.ack < x.cb.rcv.recv <==> Piggybacks(x))
    ensures x.cb.rcv.ack != x.cb.rcv.recv <==> x.ackedIx < |Got(x)|
  {
    hide Wrap, WrappingSub, Total, Live, Offset, SenderOk, PacketsOk, TimerOk, ProbeOk, Link;
    UnacknowledgedBounded(x, y);
    PlainCompare(AckPos(x), RecvPos(x));
  }

  /** What is transmitted: the given number and data, the free window, and the acknowledgement. */
  lemma TransmitExact(x: Node, cb: ControlBlock, seqNum: U32, data: Bytes)
    requires ReceiverOk(x) && cb.rcv == x.cb.rcv
    ensures Transmit(cb, seqNum, data).Done?
    ensures var e := Transmit(cb, seqNum, data).value;
      && e.out.Some? && e.popped.None?
      && e.out.value.data == data && e.out.value.header.seqNum == seqNum
      && e.out.value.header.windowSize == Room(x) % 0x1_0000
      && (e.out.value.header.ack <==> cb.rcv.ack < cb.rcv.recv)
      && (e.out.value.header.ack ==> e.out.value.header.ackNum == cb.rcv.recv)
      && e.cb == cb.(rcv := if e.out.value.header.ack
                            then cb.rcv.(ackDeadline := None, ack := cb.rcv.recv) else cb.rcv)
  {
    hide Wrap, Total;
    OutstandingIsQueued(x);
  }

  // ----- Push -----

  /** A push is sent at once exactly if it fits the open window beside what is in flight, and the
      link address is cached. */
  predicate AtOnce(x: Node, buf: Bytes, arpHit: bool) {
    arpHit && x.cb.snd.windowSize > 0 && InFlight(x) + |buf| <= x.cb.snd.windowSize
  }

  /** The sender after it assigned and sent `data`. */
  predicate SentNow(x: Node, x': Node, data: Bytes, waiting: seq<Bytes>, deadline: Option<real>) {
    && x'.sent == x.sent + IfAny(data)
    && x'.cb.snd == x.cb.snd.(
       sent := x'.cb.snd.sent, unsent := x'.cb.snd.unsent, unsentQueue := waiting,
       unacked := x.cb.snd.unacked + [Unacked(data, Some(x.cb.clock))], retransmitDeadline := deadline)
  }

  /** What a push does: the buffer goes out as the next segment and the timer is armed, or it
      waits behind the others. */
  lemma PushExact(x: Node, y: Node, buf: Bytes, arpHit: bool, x': Node) returns (seg: Segment)
    requires Inv(x, y) && |buf| < MOD && NodeStep(x, Action.Push(buf, arpHit)) == Done(x')
    ensures SameConnection(x, x') && x'.cb.loop == x.cb.loop && x'.probes == x.probes && x'.pushed == x.pushed + [buf]
    ensures AtOnce(x, buf, arpHit) ==>
      && Sends(x, x', seg, |x.sent|) && seg.data == buf && seg.header.seqNum == x.cb.snd.sent
      && (seg.header.ack <==> Piggybacks(x))
      && SentNow(x, x', buf, x.cb.snd.unsentQueue, Some(ArmedDeadline(x)))
    ensures !AtOnce(x, buf, arpHit) ==>
      && SameReceiving(x, x') && x'.sent == x.sent && x'.out == x.out
      && x'.cb.snd == x.cb.snd.(unsent := x'.cb.snd.unsent, unsentQueue := x.cb.snd.unsentQueue + [buf])
  {
    hide Wrap, Total, Live, Offset, Transmit;
    CompareAcks(x, y);
    InFlightIsUnacked(x);
    TransmitExact(x, x.cb, x.cb.snd.sent, buf);
    seg := Transmit(x.cb, x.cb.snd.sent, buf).value.out.value;
  }

  // ----- Sender turn -----

  /** There are bytes that have not been sent. */
  predicate HasUnsent(x: Node) { Wrap(Total(x.cb.snd.unsentQueue)) != 0 }

  lemma UnsentExact(x: Node)
    requires SenderOk(x)
    ensures x.cb.snd.sent != x.cb.snd.unsent <==> HasUnsent(x)
  {
    hide Wrap, Live, Offset, Total;
    SameNumber(x.isn + Total(x.sent), Total(x.cb.snd.unsentQueue));
  }

  lemma SameNumber(p: int, n: nat)
    ensures Wrap(p) == Wrap(p + n) <==> Wrap(n) == 0
  {
    var k, m := p / MOD, (p + n) / MOD;
    if Wrap(p) == Wrap(p + n) { assert n == MOD * (m - k); }
    if Wrap(n) == 0 { assert p + n == MOD * (k + n / MOD) + p % MOD; }
  }

  /** What a turn of the sender does at the top of its loop while the remote window is closed: the
      first unsent byte goes out as a probe, the rest of its buffer stays in front, and the timer
      is left alone. */
  lemma ProbeExact(x: Node, y: Node, x': Node) returns (seg: Segment)
    requires Inv(x, y) && NodeStep(x, Action.SenderTurn) == Done(x')
    requires x.cb.loop.Top? && HasUnsent(x) && x.cb.snd.windowSize == 0
    ensures SameConnection(x, x') && x'.pushed == x.pushed && x'.probes == x.probes + {|x.sent|}
    ensures x.cb.snd.unsentQueue != [] && x.cb.snd.unsentQueue[0] != []
    ensures Sends(x, x', seg, |x.sent|) && (seg.header.ack <==> Piggybacks(x))
    ensures seg.header.seqNum == x.cb.snd.sent && seg.data == x.cb.snd.unsentQueue[0][..1]
    ensures SentNow(x, x', seg.data, [x.cb.snd.unsentQueue[0][1..]] + x.cb.snd.unsentQueue[1..], x.cb.snd.retransmitDeadline)
    ensures x'.cb.loop == Probing(x.cb.snd.sent, seg.data, false)
  {
    hide Wrap, Total, Live, Offset, Transmit;
    CompareAcks(x, y);
    UnsentExact(x);
    var cb, s := x.cb, x.cb.snd;
    var (s1, buf) := PopOneUnsentByte(s).value;
    var cb1 := cb.(snd := Assign(s1, buf, cb.clock), loop := Probing(s.sent, buf, false));
    TransmitExact(x, cb1, s.sent, buf);
    seg := Transmit(cb1, s.sent, buf).value.out.value;
  }

  /** The bytes that a windowed send takes off the front buffer: all of it, if the window and the
      segment size allow, or as much as they do. */
  function Share(x: Node): nat
    requires x.cb.snd.unsentQueue != []
  {
    var front, room := |x.cb.snd.unsentQueue[0]|, x.cb.snd.windowSize - InFlight(x);
    if front <= room && front <= x.cb.snd.mss then front
    else if x.cb.snd.mss <= room then x.cb.snd.mss
    else if room >= 0 then room else 0
  }

  /** What a turn does while the window has room: it sends as many bytes of the front buffer as
      window and segment size allow, and arms the timer. */
  lemma WindowedExact(x: Node, y: Node, x': Node) returns (seg: Segment)
    requires Inv(x, y) && NodeStep(x, Action.SenderTurn) == Done(x')
    requires x.cb.loop.Top? && HasUnsent(x) && x.cb.snd.windowSize > InFlight(x)
    ensures SameConnection(x, x') && x'.pushed == x.pushed && x'.probes == x.probes && x'.cb.loop == Top
    ensures x.cb.snd.unsentQueue != [] && 0 < Share(x) <= |x.cb.snd.unsentQueue[0]|
    ensures Sends(x, x', seg, |x.sent|) && (seg.header.ack <==> Piggybacks(x))
    ensures seg.header.seqNum == x.cb.snd.sent && seg.data == x.cb.snd.unsentQueue[0][..Share(x)]
    ensures var q, n := x.cb.snd.unsentQueue, Share(x);
      SentNow(x, x', seg.data, if n == |q[0]| then q[1..] else [q[0][n..]] + q[1..], Some(ArmedDeadline(x)))
  {
    hide Wrap, Total, Live, Offset, Transmit;
    CompareAcks(x, y);
    UnsentExact(x);
    InFlightIsUnacked(x);
    var cb, s := x.cb, x.cb.snd;
    var max := Min(s.windowSize - WrappingSub(s.sent, s.base), s.mss);
    var (s1, buf) := PopUnsent(s, max).value;
    assert |buf| == Share(x);
    var cb1 := cb.(snd := ArmTimer(Assign(s1, buf, cb.clock), cb.clock));
    TransmitExact(x, cb1, s.sent, buf);
    seg := Transmit(cb1, s.sent, buf).value.out.value;
  }

  /** What every other turn does: it ends the probing once the window has been written, and
      nothing else. */
  lemma IdleTurnExact(x: Node, y: Node, x': Node)
    requires Inv(x, y) && NodeStep(x, Action.SenderTurn) == Done(x')
    requires x.cb.loop.Top? ==> !HasUnsent(x) || 0 < x.cb.snd.windowSize <= InFlight(x)
    ensures x' == x.(cb := x.cb.(loop := if x.cb.loop.Probing? && x.cb.loop.windowChanged then Top else x.cb.loop))
  {
    hide Wrap, Total, Live, Offset;
    UnsentExact(x);
    InFlightIsUnacked(x);
  }

  // ----- Timers -----

  /** The probe timer repeats the probe, the newest segment, until the window is written. */
  lemma ProbeTimerExact(x: Node, y: Node, x': Node) returns (seg: Segment)
    requires Inv(x, y) && NodeStep(x, Action.ProbeTimer) == Done(x')
    ensures !(x.cb.loop.Probing? && !x.cb.loop.windowChanged) ==> x' == x
    ensures x.cb.loop.Probing? && !x.cb.loop.windowChanged ==>
      && SameConnection(x, x') && SameSending(x, x')
      && |x.sent| > 0 && Sends(x, x', seg, |x.sent| - 1) && (seg.header.ack <==> Piggybacks(x))
      && seg.data == x.sent[|x.sent| - 1] && seg.header.seqNum == Wrap(x.isn + Offset(x.sent, |x.sent| - 1))
  {
    hide Wrap, Total, Live, Offset, Transmit;
    CompareAcks(x, y);
    var seqNum, data := 0, [];
    if x.cb.loop.Probing? { seqNum, data := x.cb.loop.seqNum, x.cb.loop.probe; }
    TransmitExact(x, x.cb, seqNum, data);
    seg := Transmit(x.cb, seqNum, data).value.out.value;
  }

  /** The clock is at the deadline or past it. */
  predicate Reached(deadline: Option<real>, clock: real) {
    match deadline
    case None => false
    case Some(time) => clock >= time
  }

  /** At its deadline, and not before, the retransmission timer sends the front segment again,
      takes its timestamp away, doubles the timeout and starts over with it. */
  lemma RetransmitExact(x: Node, y: Node, x': Node) returns (seg: Segment)
    requires Inv(x, y) && NodeStep(x, Action.RetransmitTimer) == Done(x')
    ensures !Reached(x.cb.snd.retransmitDeadline, x.cb.clock) ==> x' == x
    ensures Reached(x.cb.snd.retransmitDeadline, x.cb.clock) ==>
      var s, s' := x.cb.snd, x'.cb.snd;
      && SameConnection(x, x') && x'.cb.loop == x.cb.loop
      && x'.sent == x.sent && x'.pushed == x.pushed && x'.probes == x.probes
      && s.unacked != [] && Sends(x, x', seg, BaseIx(x)) && (seg.header.ack <==> Piggybacks(x))
      && seg.data == s.unacked[0].bytes && seg.header.seqNum == s.base
      && s' == s.(unacked := [s.unacked[0].(initialTx := None)] + s.unacked[1..], rto := s'.rto,
                  retransmitDeadline := Some(x.cb.clock + s'.rto.rto))
      && s'.rto == s.rto.(rto := s'.rto.rto)
      && s'.rto.rto == (if 2.0 * s.rto.rto > 60.0 then 60.0 else if 2.0 * s.rto.rto < 0.001 then 0.001 else 2.0 * s.rto.rto)
  {
    hide Wrap, Total, Live, Offset, Transmit;
    CompareAcks(x, y);
    BaseIsIndex(x);
    var cb, s := x.cb, x.cb.snd;
    var rto := Rto.RecordFailure(s.rto);
    var front := if s.unacked == [] then Unacked([], None) else s.unacked[0];
    var s1 := if s.unacked == [] then s else
      s.(unacked := [front.(initialTx := None)] + s.unacked[1..], rto := rto,
         retransmitDeadline := Some(cb.clock + rto.rto));
    TransmitExact(x, cb.(snd := s1), s.base, front.bytes);
    seg := Transmit(cb.(snd := s1), s.base, front.bytes).value.out.value;
  }

  /** At its deadline, and not before, the acknowledgement timer sends an empty segment that
      acknowledges everything received. */
  lemma AckTimerExact(x: Node, y: Node, x': Node) returns (seg: Segment)
    requires Inv(x, y) && NodeStep(x, Action.AckTimer) == Done(x')
    ensures !Reached(x.cb.rcv.ackDeadline, x.cb.clock) ==> x' == x
    ensures Reached(x.cb.rcv.ackDeadline, x.cb.clock) ==>
      && SameConnection(x, x') && SameSending(x, x') && Sends(x, x', seg, |x.sent|)
      && seg.header.ack && seg.header.seqNum == 0 && seg.data == []
  {
    hide Wrap, Total, Live, Offset;
    CompareAcks(x, y);
    OutstandingIsQueued(x);
    var window := x.cb.rcv.maxWindow - Total(x.cb.rcv.recvQueue);
    seg := Segment(Header(0, x.cb.rcv.recv, true, window % 0x1_0000), []);
  }

  // ----- Pop -----

  /** A pop hands out the oldest buffer not handed out yet, if there is one. */
  lemma PopExact(x: Node, y: Node, x': Node)
    requires Inv(x, y) && NodeStep(x, Action.Pop) == Done(x')
    ensures SameConnection(x, x') && SameSending(x, x') && x'.out == x.out && x'.ackedIx == x.ackedIx
    ensures var q := x.cb.rcv.recvQueue;
      if q == [] then x' == x
      else
        && x'.pops == x.pops + [q[0]]
        && x'.cb.rcv == x.cb.rcv.(base := x'.cb.rcv.base, recvQueue := q[1..])
  {
    hide Wrap, Live, Offset, SenderOk, PacketsOk;
    var r := x.cb.rcv;
    OutstandingIsQueued(x);
    if r.recvQueue != [] {
      assert Got(x)[|x.pops|] == r.recvQueue[0];
      SubZero(r.recv, r.base);
    }
  }

  lemma SubZero(a: U32, b: U32)
    ensures WrappingSub(a, b) == 0 <==> a == b
  {
  }

  // ----- Receive -----

  /** A data packet is accepted exactly if it carries the next segment of the peer's stream and
      the segment fits the free window. */
  predicate Accepts(x: Node, p: Packet) {
    p.seg.data != [] && p.ix == |Got(x)| && |p.seg.data| <= Room(x)
  }

  /** What a received packet does to the receiver: an accepted segment is queued whole, and its
      acknowledgement falls due at the old deadline, or half a second from now; any other changes
      nothing. */
  lemma ReceiveExact(x: Node, y: Node, p: Packet, x': Node)
    requires Inv(x, y) && Enabled(x, y, Action.Receive(p)) && NodeStep(x, Action.Receive(p)) == Done(x')
    ensures SameConnection(x, x') && x'.out == x.out && x'.pops == x.pops && x'.ackedIx == x.ackedIx
    ensures Accepts(x, p) ==>
      && Got(x') == Got(x) + [p.seg.data]
      && x'.cb.rcv.ackDeadline == Some(if x.cb.rcv.ackDeadline.Some? then x.cb.rcv.ackDeadline.value else x.cb.clock + 0.5)
      && x'.cb.rcv == x.cb.rcv.(recv := x'.cb.rcv.recv, recvQueue := x.cb.rcv.recvQueue + [p.seg.data],
                                ackDeadline := x'.cb.rcv.ackDeadline)
    ensures !Accepts(x, p) ==> x'.cb.rcv == x.cb.rcv
  {
    hide Wrap, Total, Live, Offset, PopAcked, RemoteAck, UpdateRemoteWindow, SenderOk, PacketsOk, ReceiverOk, NodeOk;
    if p.seg.data != [] {
      NextExact(x, y, p);
    }
    assert x'.cb.rcv ==
      if p.seg.data == [] then x.cb.rcv else ReceiveData(x.cb.rcv, p.seg.header.seqNum, p.seg.data, x.cb.clock);
    assert x.pops + (x.cb.rcv.recvQueue + [p.seg.data]) == Got(x) + [p.seg.data];
  }

  /** A packet's number is the expected one exactly if it carries the next segment. */
  lemma NextExact(x: Node, y: Node, p: Packet)
    requires Inv(x, y) && p in y.out && FreshPacket(x, y, p) && p.seg.data != []
    ensures p.seg.header.seqNum == x.cb.rcv.recv <==> p.ix == |Got(x)|
  {
    hide Wrap, Total, Live, Offset;
    assert DataStamped(y, p);
    if p.ix == |Got(x)| {
      PrefixOffset(Got(x), y.sent, p.ix);
      OffsetFull(Got(x));
    }
    if p.seg.header.seqNum == x.cb.rcv.recv {
      ReceiveDataExact(x, y, p);
    }
  }

  /** A packet acknowledges segments that were not acknowledged. */
  predicate Advances(x: Node, p: Packet) { p.seg.header.ack && p.ackIx > BaseIx(x) }

  /** What a received packet does to the sender. An acknowledgement of segments that were not
      acknowledged removes them, and leaves the timer off if nothing is in flight, and a timeout
      from now otherwise; any other changes nothing. Then the window becomes the advertised one,
      scaled, unless the scale is out of range; and a probing sender is told. */
  lemma ReceiveSendingExact(x: Node, y: Node, p: Packet, x': Node)
    requires Inv(x, y) && Enabled(x, y, Action.Receive(p)) && NodeStep(x, Action.Receive(p)) == Done(x')
    ensures x'.sent == x.sent && x'.pushed == x.pushed && x'.probes == x.probes
    ensures var s, s', h := x.cb.snd, x'.cb.snd, p.seg.header;
      && BaseIx(x') == (if Advances(x, p) then p.ackIx else BaseIx(x))
      && s'.retransmitDeadline == (if !Advances(x, p) then s.retransmitDeadline
                                   else if p.ackIx == |x.sent| then None else Some(x.cb.clock + s.rto.rto))
      && (!Advances(x, p) ==> s'.unacked == s.unacked && s'.rto == s.rto && s'.base == s.base)
      && s' == s.(base := s'.base, unacked := s'.unacked, rto := s'.rto,
                  retransmitDeadline := s'.retransmitDeadline, windowSize := s'.windowSize)
      && s'.windowSize == (if s.windowScale < 32 then Scaled(h.windowSize, s.windowScale) else s.windowSize)
      && x'.cb.loop == (if x.cb.loop.Probing? && s.windowScale < 32 then x.cb.loop.(windowChanged := true) else x.cb.loop)
  {
    hide Wrap, Total, Live, Offset, RemoteAck, PacketsOk, NodeStep, AckedUpTo, Power2;
    ReceiveKeepsSending(x, y, p, x');
    ReceiveParts(x, p, x');
    if p.seg.header.ack {
      AckStampInSender(x, y, p);
      RemoteAckExact(x, p.ackIx, x.cb.clock);
      if Advances(x, p) { AckDeadline(x, p.ackIx, x.cb.clock); }
      AckFrame(x.cb.snd, p.seg.header.ackNum, x.cb.clock);
    }
  }

  /** A 16-bit window shifted left, in 32 bits. */
  function Scaled(window: nat, scale: nat): nat { window * Power2(scale) % 0x1_0000_0000 }

  lemma ReceiveParts(x: Node, p: Packet, x': Node)
    requires NodeStep(x, Action.Receive(p)) == Done(x')
    ensures x'.sent == x.sent && x'.pushed == x.pushed && x'.probes == x.probes
    ensures var s := if p.seg.header.ack then RemoteAck(x.cb.snd, p.seg.header.ackNum, x.cb.clock) else x.cb.snd;
      && x'.cb.snd == s.(windowSize := x'.cb.snd.windowSize)
      && x'.cb.snd.windowSize == (if s.windowScale < 32 then Scaled(p.seg.header.windowSize, s.windowScale) else s.windowSize)
      && x'.cb.loop == (if x.cb.loop.Probing? && s.windowScale < 32 then x.cb.loop.(windowChanged := true) else x.cb.loop)
  {
    hide Power2, RemoteAck, ReceiveData;
  }

  lemma AckFrame(s: Sender, ackNum: U32, now: real)
    ensures var r := RemoteAck(s, ackNum, now);
      r == s.(base := r.base, unacked := r.unacked, rto := r.rto, retransmitDeadline := r.retransmitDeadline)
  {
    hide Wrap, PopAcked;
  }

  /** The timer after an acknowledgement of the first `k` segments. */
  lemma AckDeadline(x: Node, k: nat, now: real)
    requires SenderOk(x) && TimerOk(x) && BaseIx(x) < k <= |x.sent| && Total(x.sent) - Offset(x.sent, k) < MOD
    ensures RemoteAck(x.cb.snd, Wrap(x.isn + Offset(x.sent, k)), now).retransmitDeadline ==
      if k == |x.sent| then None else Some(now + x.cb.snd.rto.rto)
  {
    hide Wrap, PopAcked, Total, Live, Offset;
    RemoteAckExact(x, k, now);
    OffsetFull(x.sent);
    OffsetOrder(x.sent, k, |x.sent|);
    WrapInjective(x.isn, Offset(x.sent, k), Total(x.sent));
    RemoteAckTaken(x.cb.snd, Wrap(x.isn + Offset(x.sent, k)), now);
    OffsetOrder(x.sent, BaseIx(x), k);
    SubPositions(x.isn, Offset(x.sent, BaseIx(x)), Offset(x.sent, k));
    SubPositions(x.isn, Offset(x.sent, BaseIx(x)), Total(x.sent));
  }

  lemma RemoteAckTaken(s: Sender, ackNum: U32, now: real)
    requires 0 < WrappingSub(ackNum, s.base) <= WrappingSub(s.sent, s.base)
    ensures RemoteAck(s, ackNum, now).retransmitDeadline == if ackNum == s.sent then None else Some(now + s.rto.rto)
  {
    hide Wrap, WrappingSub, PopAcked;
  }

  // ----- The retransmission timer over whole runs -----

  /** While something other than window probes is in flight, the timer is armed. */
  predicate Guarded(x: Node) {
    x.cb.snd.retransmitDeadline.None? ==> forall ix | BaseIx(x) <= ix < |x.sent| :: ix in x.probes
  }

  lemma AssignedBase(x: Node, x': Node, data: Bytes, waiting: seq<Bytes>, deadline: Option<real>)
    requires SentNow(x, x', data, waiting, deadline)
    ensures BaseIx(x') == BaseIx(x)
  {
    LiveSnoc(x.cb.snd.unacked, Unacked(data, Some(x.cb.clock)));
  }

  lemma StepKeepsGuarded(x: Node, y: Node, a: Action, x': Node)
    requires Inv(x, y) && Enabled(x, y, a) && NodeStep(x, a) == Done(x') && Guarded(x)
    ensures Guarded(x')
  {
    hide Wrap, Total, Live, Offset, NodeOk, Link, NodeStep, Enabled, Sends, Piggybacks, HasUnsent, SameReceiving;
    match a {
      case Push(buf, arpHit) =>
        if |buf| >= MOD {
          HugePush(x, buf, arpHit, x');
        } else {
          var seg := PushExact(x, y, buf, arpHit, x');
        }
      case SenderTurn => TurnKeepsGuarded(x, y, x');
      case ProbeTimer => var seg := ProbeTimerExact(x, y, x');
      case RetransmitTimer => var seg := RetransmitExact(x, y, x');
      case AckTimer => var seg := AckTimerExact(x, y, x');
      case Receive(p) => ReceiveSendingExact(x, y, p, x');
      case Pop => PopExact(x, y, x');
      case Tick(_) => TickExact(x, a, x');
    }
  }

  lemma HugePush(x: Node, buf: Bytes, arpHit: bool, x': Node)
    requires |buf| >= MOD && NodeStep(x, Action.Push(buf, arpHit)) == Done(x')
    ensures x' == x
  {
  }

  /** Time passes, and nothing else happens. */
  lemma TickExact(x: Node, a: Action, x': Node)
    requires a.Tick? && NodeStep(x, a) == Done(x')
    ensures x' == x.(cb := x.cb.(clock := x.cb.clock + if a.elapsed > 0.0 then a.elapsed else 0.0))
  {
  }

  lemma TurnKeepsGuarded(x: Node, y: Node, x': Node)
    requires Inv(x, y) && NodeStep(x, Action.SenderTurn) == Done(x') && Guarded(x)
    ensures Guarded(x')
  {
    hide Wrap, Total, Live, Offset, NodeOk, Link, NodeStep, Sends, Piggybacks, HasUnsent, InFlight;
    if x.cb.loop.Top? && HasUnsent(x) && x.cb.snd.windowSize == 0 {
      var seg := ProbeExact(x, y, x');
      AssignedBase(x, x', seg.data, x'.cb.snd.unsentQueue, x'.cb.snd.retransmitDeadline);
    } else if x.cb.loop.Top? && HasUnsent(x) && x.cb.snd.windowSize > InFlight(x) {
      var seg := WindowedExact(x, y, x');
    } else {
      IdleTurnExact(x, y, x');
    }
  }

  /** In every state of every run, at both ends: as long as a segment that was not sent as a window
      probe is unacknowledged, the retransmission timer is armed; so that (`RetransmitExact`) the
      oldest unacknowledged segment is sent again once the deadline has come. */
  lemma {:induction false} TimerGuards(states: seq<System>, moves: seq<Move>, i: nat)
    requires Run(states, moves) && i < |states|
    ensures Guarded(states[i].a) && Guarded(states[i].b)
  {
    hide NodeStep, Enabled, Guarded, Inv, IsNew;
    if i == 0 {
      NewGuarded(states[0].a);
      NewGuarded(states[0].b);
    } else {
      TimerGuards(states, moves, i - 1);
      RunInv(states, moves, i - 1);
      var s, m, s' := states[i - 1], moves[i - 1], states[i];
      assert Next(s, m, s');
      InvSwaps(s.a, s.b);
      if m.atA {
        StepKeepsGuarded(s.a, s.b, m.action, s'.a);
      } else {
        StepKeepsGuarded(s.b, s.a, m.action, s'.b);
      }
    }
  }

  lemma NewGuarded(x: Node)
    requires IsNew(x)
    ensures Guarded(x)
  {
  }

  lemma InvSwaps(x: Node, y: Node)
    requires Inv(x, y)
    ensures Inv(y, x)
  {
    hide NodeOk, Link;
  }

  // ----- The window over whole runs -----

  /** The window that the moves of one end leave it with: that of the last packet it received. */
  function LastHeard(start: nat, scale: nat, moves: seq<Move>, atA: bool): nat
    decreases |moves|
  {
    if moves == [] then start
    else
      var m := moves[|moves| - 1];
      if m.atA == atA && m.action.Receive? && scale < 32 then Scaled(m.action.packet.seg.header.windowSize, scale)
      else LastHeard(start, scale, moves[..|moves| - 1], atA)
  }

  lemma StepWindow(x: Node, y: Node, a: Action, x': Node)
    requires Inv(x, y) && Enabled(x, y, a) && NodeStep(x, a) == Done(x')
    ensures x'.cb.snd.windowScale == x.cb.snd.windowScale
    ensures x'.cb.snd.windowSize ==
      if a.Receive? && x.cb.snd.windowScale < 32 then Scaled(a.packet.seg.header.windowSize, x.cb.snd.windowScale)
      else x.cb.snd.windowSize
  {
    hide Wrap, Total, Live, Offset, NodeOk, Link, NodeStep, Enabled, Sends, Piggybacks, HasUnsent, InFlight, BaseIx;
    match a {
      case Push(buf, arpHit) =>
        if |buf| >= MOD {
          HugePush(x, buf, arpHit, x');
        } else {
          var seg := PushExact(x, y, buf, arpHit, x');
        }
      case SenderTurn =>
        if x.cb.loop.Top? && HasUnsent(x) && x.cb.snd.windowSize == 0 {
          var seg := ProbeExact(x, y, x');
        } else if x.cb.loop.Top? && HasUnsent(x) && x.cb.snd.windowSize > InFlight(x) {
          var seg := WindowedExact(x, y, x');
        } else {
          IdleTurnExact(x, y, x');
        }
      case ProbeTimer => var seg := ProbeTimerExact(x, y, x');
      case RetransmitTimer => var seg := RetransmitExact(x, y, x');
      case AckTimer => var seg := AckTimerExact(x, y, x');
      case Receive(p) => ReceiveSendingExact(x, y, p, x');
      case Pop => PopExact(x, y, x');
      case Tick(_) => TickExact(x, a, x');
    }
  }

  /** In every state of every run, the window a sender works with is the one it started with or
      that of the last packet it received, scaled. Every packet carries the free window its sender
      had when it was transmitted (`Sends`). */
  lemma {:induction false} WindowIsLastHeard(states: seq<System>, moves: seq<Move>, i: nat)
    requires Run(states, moves) && i < |states|
    ensures var s0, s := states[0].a.cb.snd, states[i].a.cb.snd;
      s.windowScale == s0.windowScale && s.windowSize == LastHeard(s0.windowSize, s0.windowScale, moves[..i], true)
    ensures var s0, s := states[0].b.cb.snd, states[i].b.cb.snd;
      s.windowScale == s0.windowScale && s.windowSize == LastHeard(s0.windowSize, s0.windowScale, moves[..i], false)
  {
    hide NodeStep, Enabled, Inv, Start, Scaled;
    if i > 0 {
      WindowIsLastHeard(states, moves, i - 1);
      RunInv(states, moves, i - 1);
      var s, m, s' := states[i - 1], moves[i - 1], states[i];
      assert Next(s, m, s');
      assert moves[..i][..i - 1] == moves[..i - 1];
      InvSwaps(s.a, s.b);
      if m.atA {
        StepWindow(s.a, s.b, m.action, s'.a);
      } else {
        StepWindow(s.b, s.a, m.action, s'.b);
      }
    }
  }
}
