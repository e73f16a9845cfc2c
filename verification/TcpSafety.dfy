/** The invariant of `TcpNetwork` is kept by every step of either endpoint. */
module TcpSafety {
  import opened Base
  import opened SeqNumbers
  import opened TcpState
  import opened TcpNetwork

  // ----- Queues of unacknowledged segments -----

  lemma {:induction false} LiveConcat(q: seq<Unacked>, r: seq<Unacked>)
    ensures Live(q + r) == Live(q) + Live(r)
  {
    if q == [] {
      assert q + r == r;
    } else {
      assert (q + r)[1..] == q[1..] + r;
      LiveConcat(q[1..], r);
    }
  }

  lemma LiveSnoc(q: seq<Unacked>, u: Unacked)
    ensures Live(q + [u]) == Live(q) + IfAny(u.bytes)
  {
    LiveConcat(q, [u]);
  }

  /** An acknowledgement that ends at the `k`-th live segment removes exactly `k` of them and
      never takes the branch that drops a segment. */
  lemma {:induction false} PopAckedExact(q: seq<Unacked>, n: nat, now: real, rto: Rto.Estimator, k: nat)
    requires 0 < k <= |Live(q)| && n == Offset(Live(q), k)
    ensures PopAcked(q, n, now, rto).onBoundary
    ensures Live(PopAcked(q, n, now, rto).rest) == Live(q)[k..]
    decreases |q|
  {
    hide Rto.AddSample, PopAcked, Live, Offset;
    LiveFront(q);
    var b, tail := q[0].bytes, q[1..];
    var rto1 := if q[0].initialTx.Some? then Rto.AddSample(rto, now - q[0].initialTx.value) else rto;
    PopStep(q, n, now, rto);
    OffsetIncreases(Live(q), 0, k);
    NoOffset(Live(q));
    if b == [] {
      PopAckedExact(tail, n, now, rto1, k);
    } else {
      OffsetCons(b, Live(tail), k - 1);
      assert Live(q)[k..] == Live(tail)[k - 1..];
      NoOffset(Live(tail));
      if k > 1 {
        OffsetIncreases(Live(tail), 0, k - 1);
        PopAckedExact(tail, n - |b|, now, rto1, k - 1);
      }
    }
  }

  lemma LiveFront(q: seq<Unacked>)
    ensures q == [] ==> Live(q) == []
    ensures q != [] ==> Live(q) == (if q[0].bytes == [] then Live(q[1..]) else [q[0].bytes] + Live(q[1..]))
  {
  }

  lemma NoOffset(l: seq<Bytes>)
    ensures Offset(l, 0) == 0
  {
  }

  // ----- Receiving half -----

  lemma OutstandingIsQueued(x: Node)
    requires ReceiverOk(x)
    ensures WrappingSub(x.cb.rcv.recv, x.cb.rcv.base) == Total(x.cb.rcv.recvQueue)
  {
    FlatConcat(x.pops, x.cb.rcv.recvQueue);
    SubPositions(x.peerIsn, Total(x.pops), Total(Got(x)));
  }

  /** In a state that satisfies receiver accounting no transmission aborts; it changes the
      receiver only by recording an acknowledgement of everything received. */
  lemma TransmitDone(x: Node, cb: ControlBlock, seqNum: U32, data: Bytes)
    requires ReceiverOk(x) && cb.rcv == x.cb.rcv
    ensures Transmit(cb, seqNum, data).Done?
    ensures var e := Transmit(cb, seqNum, data).value;
      && e.out.Some? && e.popped.None? && e.out.value.data == data
      && e.out.value.header.seqNum == seqNum
      && e.cb == cb.(rcv := e.cb.rcv)
      && (e.out.value.header.ack ==> e.out.value.header.ackNum == cb.rcv.recv)
      && e.cb.rcv == if e.out.value.header.ack
                     then cb.rcv.(ackDeadline := None, ack := cb.rcv.recv) else cb.rcv
  {
    OutstandingIsQueued(x);
  }

  /** The receiver of `x` is unchanged, or everything it received was just acknowledged. */
  predicate AckOnly(x: Node, x': Node) {
    && x'.peerIsn == x.peerIsn && x'.isn == x.isn && x'.pops == x.pops
    && (|| (x'.cb.rcv == x.cb.rcv && x'.ackedIx == x.ackedIx)
        || (x'.cb.rcv == x.cb.rcv.(ackDeadline := None, ack := x.cb.rcv.recv) && x'.ackedIx == |Got(x)|))
  }

  lemma AckOnlyKeepsReceiver(x: Node, x': Node)
    requires ReceiverOk(x) && AckOnly(x, x')
    ensures ReceiverOk(x') && Got(x') == Got(x) && x.ackedIx <= x'.ackedIx
  {
    OffsetFull(Got(x));
  }

  /** The packet that action `a` adds to the network, and what it does to the receiver. */
  predicate AddsPacket(x: Node, a: Action, x': Node, seg: Segment) {
    && AckOnly(x, x')
    && x'.out == x.out + {Packet(seg, StampIx(x, a), |Got(x)|)}
    && (seg.header.ack ==> seg.header.ackNum == x.cb.rcv.recv && x'.ackedIx == |Got(x)|)
  }

  /** Every action but a receive or a pop leaves the receiver alone up to acknowledging, and
      transmits at most one packet. */
  lemma NonReceiveShape(x: Node, a: Action, x': Node)
    requires ReceiverOk(x) && !a.Receive? && !a.Pop? && NodeStep(x, a) == Done(x')
    ensures AckOnly(x, x')
    ensures x'.out == x.out || exists seg :: AddsPacket(x, a, x', seg)
  {
    hide Wrap, Total, Live, Offset;
    var cb, s := x.cb, x.cb.snd;
    var e := Step(cb, EventOf(a)).value;
    match a {
      case Push(buf, arpHit) =>
        TransmitDone(x, cb, s.sent, buf);
      case SenderTurn =>
        if cb.loop.Top? && s.sent != s.unsent {
          if s.windowSize == 0 {
            var (s1, buf) := PopOneUnsentByte(s).value;
            TransmitDone(x, cb.(snd := Assign(s1, buf, cb.clock), loop := Probing(s.sent, buf, false)), s.sent, buf);
          } else if s.windowSize > WrappingSub(s.sent, s.base) {
            var (s1, buf) := PopUnsent(s, Min(s.windowSize - WrappingSub(s.sent, s.base), s.mss)).value;
            TransmitDone(x, cb.(snd := ArmTimer(Assign(s1, buf, cb.clock), cb.clock)), s.sent, buf);
          }
        }
      case ProbeTimer =>
        if cb.loop.Probing? {
          TransmitDone(x, cb, cb.loop.seqNum, cb.loop.probe);
        }
      case RetransmitTimer =>
        if Due(s.retransmitDeadline, cb.clock) {
          var rto := Rto.RecordFailure(s.rto);
          var s1 := s.(unacked := [s.unacked[0].(initialTx := None)] + s.unacked[1..], rto := rto,
          retransmitDeadline := Some(cb.clock + rto.rto));
          TransmitDone(x, cb.(snd := s1), s.base, s.unacked[0].bytes);
        }
      case AckTimer =>
        OutstandingIsQueued(x);
      case Tick(_) =>
    }
    if e.out.Some? {
      assert AddsPacket(x, a, x', e.out.value);
    }
  }

  lemma MoveFront(pops: seq<Bytes>, q: seq<Bytes>)
    requires q != []
    ensures (pops + [q[0]]) + q[1..] == pops + q
    ensures Total(pops + [q[0]]) == Total(pops) + |q[0]|
    ensures Total(q[1..]) <= Total(q)
  {
    FlatSnoc(pops, q[0]);
  }

  lemma PopKeepsReceiver(x: Node, x': Node)
    requires ReceiverOk(x) && NodeStep(x, Action.Pop) == Done(x')
    ensures ReceiverOk(x') && Got(x') == Got(x)
    ensures x' == x.(cb := x.cb.(rcv := x'.cb.rcv), pops := x'.pops)
  {
    hide Wrap, Total, Offset;
    var r := x.cb.rcv;
    if r.base != r.recv {
      MoveFront(x.pops, r.recvQueue);
      AddPosition(x.peerIsn, Total(x.pops), |r.recvQueue[0]|);
    }
  }

  // ----- Sending half -----

  lemma InFlightIsUnacked(x: Node)
    requires SenderOk(x)
    ensures WrappingSub(x.cb.snd.sent, x.cb.snd.base) == Total(Live(x.cb.snd.unacked))
    ensures Total(Live(x.cb.snd.unacked)) == Total(x.sent) - Offset(x.sent, BaseIx(x))
  {
    OffsetSplit(x.sent, BaseIx(x));
    SubPositions(x.isn, Offset(x.sent, BaseIx(x)), Total(x.sent));
  }

  lemma AppendAny(sent: seq<Bytes>, buf: Bytes)
    ensures Total(sent + IfAny(buf)) == Total(sent) + |buf|
  {
    if buf == [] {
      assert sent + IfAny(buf) == sent;
    } else {
      FlatSnoc(sent, buf);
    }
  }

  /** `x'` is `x` after it assigned `seg.data` to the next sequence numbers and sent it. */
  predicate Assigned(x: Node, x': Node, seg: Segment) {
    var s, s' := x.cb.snd, x'.cb.snd;
    && x'.isn == x.isn && x'.sent == x.sent + IfAny(seg.data)
    && s'.unacked == s.unacked + [Unacked(seg.data, Some(x.cb.clock))]
    && s'.base == s.base && s'.sent == WrappingAdd(s.sent, |seg.data|)
    && seg.header.seqNum == s.sent
    && x'.out == x.out + {Packet(seg, |x.sent|, |Got(x)|)}
  }

  lemma AssignedKeepsQueue(x: Node, x': Node, seg: Segment)
    requires QueueOk(x) && Assigned(x, x', seg)
    requires Total(Live(x.cb.snd.unacked)) + |seg.data| < MOD
    ensures QueueOk(x') && BaseIx(x') == BaseIx(x) && x.sent <= x'.sent
    ensures Total(x'.sent) == Total(x.sent) + |seg.data|
    ensures Offset(x'.sent, BaseIx(x)) == Offset(x.sent, BaseIx(x))
    ensures Offset(x'.sent, |x.sent|) == Total(x.sent)
    ensures Total(Live(x'.cb.snd.unacked)) == Total(Live(x.cb.snd.unacked)) + |seg.data|
  {
    LiveSnoc(x.cb.snd.unacked, Unacked(seg.data, Some(x.cb.clock)));
    AppendAny(x.sent, seg.data);
    AppendAny(Live(x.cb.snd.unacked), seg.data);
    OffsetExtend(x.sent, IfAny(seg.data), BaseIx(x));
    OffsetExtend(x.sent, IfAny(seg.data), |x.sent|);
    OffsetFull(x.sent);
    OffsetSplit(x.sent, BaseIx(x));
    assert x'.sent[BaseIx(x)..] == x.sent[BaseIx(x)..] + IfAny(seg.data);
  }

  /** Assigning a buffer to the next sequence numbers keeps sender accounting, provided the
      bytes in flight stay below 2^32, and the packet carries the stream at its number. */
  lemma AssignedKeepsSender(x: Node, x': Node, seg: Segment)
    requires SenderOk(x) && Assigned(x, x', seg)
    requires x'.cb.snd.unsent == Wrap(x.isn + Total(x.sent) + |seg.data| + Total(x'.cb.snd.unsentQueue))
    requires WrappingSub(x.cb.snd.sent, x.cb.snd.base) + |seg.data| < MOD
    ensures SenderOk(x') && BaseIx(x') == BaseIx(x) && x.sent <= x'.sent
    ensures DataStamped(x', Packet(seg, |x.sent|, |Got(x)|))
    ensures Total(Live(x'.cb.snd.unacked)) == WrappingSub(x.cb.snd.sent, x.cb.snd.base) + |seg.data|
  {
    hide Wrap, Total, Live;
    InFlightIsUnacked(x);
    AssignedKeepsQueue(x, x', seg);
    AddPosition(x.isn, Total(x.sent), |seg.data|);
  }

  predicate SendingOk(x: Node) { SenderOk(x) && TimerOk(x) && ProbeOk(x) && ReceiverOk(x) }

  /** What an action other than a receive does to the sending half. */
  predicate SendingKept(x: Node, x': Node) {
    && SenderOk(x') && TimerOk(x') && ProbeOk(x')
    && x'.isn == x.isn && x.sent <= x'.sent && BaseIx(x') == BaseIx(x)
    && (forall p | p in x'.out && p !in x.out :: DataStamped(x', p))
  }

  /** The shape of a push: refused, sent at once, or queued. */
  lemma PushShape(x: Node, buf: Bytes, arpHit: bool, x': Node) returns (seg: Segment)
    requires ReceiverOk(x) && NodeStep(x, Action.Push(buf, arpHit)) == Done(x')
    ensures x'.cb.loop == x.cb.loop && x'.isn == x.isn
    ensures x'.pushed == if |buf| < MOD then x.pushed + [buf] else x.pushed
    ensures |seg.data| < MOD
    ensures |buf| >= MOD ==> x' == x
    ensures |buf| < MOD && FastPath(x.cb.snd, |buf|) == Done(true) && arpHit ==>
              && seg.data == buf && Assigned(x, x', seg) && TimerOk(x')
              && x'.cb.snd.unsentQueue == x.cb.snd.unsentQueue
              && x'.cb.snd.unsent == WrappingAdd(x.cb.snd.unsent, |buf|)
              && x.cb.snd.windowSize > 0 && x'.cb.snd.windowSize == x.cb.snd.windowSize
    ensures |buf| < MOD && !(FastPath(x.cb.snd, |buf|) == Done(true) && arpHit) ==>
              x'.cb == x.cb.(snd := Enqueue(x.cb.snd, buf)) && x'.sent == x.sent && x'.out == x.out
  {
    TransmitDone(x, x.cb, x.cb.snd.sent, buf);
    seg := Transmit(x.cb, x.cb.snd.sent, buf).value.out.value;
    if |buf| >= MOD {
      seg := seg.(data := []);
    }
  }

  lemma PushKeepsSending(x: Node, buf: Bytes, arpHit: bool, x': Node)
    requires SendingOk(x) && NodeStep(x, Action.Push(buf, arpHit)) == Done(x')
    ensures SendingKept(x, x')
  {
    hide NodeStep, ReceiverOk, SenderOk, TimerOk, ProbeOk, Assigned, FastPath, SendingKept, Enqueue;
    var seg := PushShape(x, buf, arpHit, x');
    if |buf| >= MOD {
      RefusedPush(x);
    } else if FastPath(x.cb.snd, |buf|) == Done(true) && arpHit {
      FastPathFits(x.cb.snd, |buf|);
      FastPush(x, buf, x', seg);
    } else {
      SlowPush(x, buf, x');
    }
  }

  lemma RefusedPush(x: Node)
    requires SendingOk(x)
    ensures SendingKept(x, x)
  {
    hide SenderOk, ReceiverOk;
  }

  lemma FastPush(x: Node, buf: Bytes, x': Node, seg: Segment)
    requires SendingOk(x) && seg.data == buf && Assigned(x, x', seg) && TimerOk(x') && x'.cb.loop == x.cb.loop
    requires x'.cb.snd.unsentQueue == x.cb.snd.unsentQueue
    requires x'.cb.snd.unsent == WrappingAdd(x.cb.snd.unsent, |buf|)
    requires x.cb.snd.windowSize > 0 && x'.cb.snd.windowSize == x.cb.snd.windowSize && x'.isn == x.isn
    requires WrappingSub(x.cb.snd.sent, x.cb.snd.base) + |buf| < MOD
    ensures SendingKept(x, x')
  {
    hide Wrap, Live, Offset, ReceiverOk, Total, QueueOk;
    AddPosition(x.isn, Total(x.sent) + Total(x.cb.snd.unsentQueue), |buf|);
    AssignedKeepsSender(x, x', seg);
  }

  lemma SlowPush(x: Node, buf: Bytes, x': Node)
    requires SendingOk(x) && x'.cb == x.cb.(snd := Enqueue(x.cb.snd, buf)) && x'.sent == x.sent && x'.out == x.out
    requires x'.isn == x.isn
    ensures SendingKept(x, x')
  {
    hide Wrap, Live, Offset, ReceiverOk, Total, QueueOk;
    AddPosition(x.isn, Total(x.sent) + Total(x.cb.snd.unsentQueue), |buf|);
    FlatSnoc(x.cb.snd.unsentQueue, buf);
    SameQueue(x, x');
  }

  lemma FastPathFits(s: Sender, len: nat)
    requires FastPath(s, len) == Done(true)
    ensures s.windowSize > 0 && WrappingSub(s.sent, s.base) + len < MOD
  {
  }

  lemma SameQueue(x: Node, x': Node)
    requires QueueOk(x) && x'.sent == x.sent && x'.cb.snd.unacked == x.cb.snd.unacked
    ensures QueueOk(x') && BaseIx(x') == BaseIx(x)
  {
  }

  lemma SplitFront(q: seq<Bytes>, n: nat)
    requires q != [] && n <= |q[0]|
    ensures n + Total([q[0][n..]] + q[1..]) == Total(q)
    ensures q[0][..n] + Flat([q[0][n..]] + q[1..]) == Flat(q)
    ensures n == |q[0]| ==> n + Total(q[1..]) == Total(q) && q[0][..n] + Flat(q[1..]) == Flat(q)
  {
    var r := [q[0][n..]] + q[1..];
    assert r[1..] == q[1..];
    assert q[0][..n] + (q[0][n..] + Flat(q[1..])) == q[0] + Flat(q[1..]);
  }

  lemma ProbeShape(x: Node, x': Node) returns (seg: Segment)
    requires ReceiverOk(x) && NodeStep(x, Action.SenderTurn) == Done(x')
    requires x.cb.loop.Top? && x.cb.snd.sent != x.cb.snd.unsent && x.cb.snd.windowSize == 0
    ensures Assigned(x, x', seg) && |seg.data| == 1
    ensures x'.cb.loop == Probing(x.cb.snd.sent, seg.data, false)
    ensures x'.cb.snd.unsent == x.cb.snd.unsent && x'.cb.snd.windowSize == 0
    ensures x'.cb.snd.unsentQueue != []
    ensures 1 + Total(x'.cb.snd.unsentQueue) == Total(x.cb.snd.unsentQueue)
    ensures seg.data + Flat(x'.cb.snd.unsentQueue) == Flat(x.cb.snd.unsentQueue)
    ensures x'.pushed == x.pushed
    ensures TimerOk(x')
  {
    var cb, s := x.cb, x.cb.snd;
    var (s1, buf) := PopOneUnsentByte(s).value;
    var cb1 := cb.(snd := Assign(s1, buf, cb.clock), loop := Probing(s.sent, buf, false));
    TransmitDone(x, cb1, s.sent, buf);
    seg := Transmit(cb1, s.sent, buf).value.out.value;
    SplitFront(s.unsentQueue, 1);
  }

  lemma ProbeKeepsSending(x: Node, x': Node)
    requires SendingOk(x) && NodeStep(x, Action.SenderTurn) == Done(x')
    requires x.cb.loop.Top? && x.cb.snd.sent != x.cb.snd.unsent && x.cb.snd.windowSize == 0
    requires WrappingSub(x.cb.snd.sent, x.cb.snd.base) < MOD - 1
    ensures SendingKept(x, x')
  {
    hide Wrap, Live, Total, NodeStep, Offset, ReceiverOk;
    var seg := ProbeShape(x, x');
    AssignedKeepsSender(x, x', seg);
  }

  lemma WindowedShape(x: Node, x': Node) returns (seg: Segment)
    requires ReceiverOk(x) && NodeStep(x, Action.SenderTurn) == Done(x')
    requires x.cb.loop.Top? && x.cb.snd.sent != x.cb.snd.unsent
    requires x.cb.snd.windowSize > WrappingSub(x.cb.snd.sent, x.cb.snd.base)
    ensures Assigned(x, x', seg) && x'.cb.loop == Top
    ensures 0 < |seg.data| <= x.cb.snd.windowSize - WrappingSub(x.cb.snd.sent, x.cb.snd.base)
    ensures x'.cb.snd.unsent == x.cb.snd.unsent && x'.cb.snd.windowSize == x.cb.snd.windowSize
    ensures |seg.data| + Total(x'.cb.snd.unsentQueue) == Total(x.cb.snd.unsentQueue)
    ensures seg.data + Flat(x'.cb.snd.unsentQueue) == Flat(x.cb.snd.unsentQueue)
    ensures x'.pushed == x.pushed
    ensures TimerOk(x')
  {
    var cb, s := x.cb, x.cb.snd;
    hide Wrap, Live, Offset, ReceiverOk, Total, Flat;
    var max := Min(s.windowSize - WrappingSub(s.sent, s.base), s.mss);
    var (s1, buf) := PopUnsent(s, max).value;
    var cb1 := cb.(snd := ArmTimer(Assign(s1, buf, cb.clock), cb.clock));
    TransmitDone(x, cb1, s.sent, buf);
    seg := Transmit(cb1, s.sent, buf).value.out.value;
    SplitFront(s.unsentQueue, |buf|);
  }

  lemma WindowedSendKeepsSending(x: Node, x': Node)
    requires SendingOk(x) && NodeStep(x, Action.SenderTurn) == Done(x')
    requires x.cb.loop.Top? && x.cb.snd.sent != x.cb.snd.unsent
    requires x.cb.snd.windowSize > WrappingSub(x.cb.snd.sent, x.cb.snd.base)
    ensures SendingKept(x, x')
  {
    hide Wrap, Live, Total, NodeStep, Offset, ReceiverOk;
    var seg := WindowedShape(x, x');
    AssignedKeepsSender(x, x', seg);
  }

  lemma ProbeTimerKeepsSending(x: Node, x': Node)
    requires SendingOk(x) && NodeStep(x, Action.ProbeTimer) == Done(x')
    ensures SendingKept(x, x')
  {
    hide Wrap, Total, Live;
    if x.cb.loop.Probing? && !x.cb.loop.windowChanged {
      TransmitDone(x, x.cb, x.cb.loop.seqNum, x.cb.loop.probe);
    }
  }

  lemma RetransmitShape(x: Node, x': Node) returns (seg: Segment)
    requires ReceiverOk(x) && NodeStep(x, Action.RetransmitTimer) == Done(x')
    requires Due(x.cb.snd.retransmitDeadline, x.cb.clock)
    ensures x.cb.snd.unacked != [] && x'.cb.loop == x.cb.loop && x'.sent == x.sent && x'.isn == x.isn
    ensures x'.cb.snd == x.cb.snd.(unacked := x'.cb.snd.unacked, rto := x'.cb.snd.rto, retransmitDeadline := x'.cb.snd.retransmitDeadline)
    ensures x'.cb.snd.unacked == [x.cb.snd.unacked[0].(initialTx := None)] + x.cb.snd.unacked[1..]
    ensures x'.out == x.out + {Packet(seg, StampIx(x, Action.RetransmitTimer), |Got(x)|)}
    ensures seg.data == x.cb.snd.unacked[0].bytes && seg.header.seqNum == x.cb.snd.base
  {
    hide Wrap, Total, Live, Offset;
    var cb, s := x.cb, x.cb.snd;
    var rto := Rto.RecordFailure(s.rto);
    var q := [s.unacked[0].(initialTx := None)] + s.unacked[1..];
    var s1 := s.(unacked := q, rto := rto, retransmitDeadline := Some(cb.clock + rto.rto));
    TransmitDone(x, cb.(snd := s1), s.base, s.unacked[0].bytes);
    seg := Transmit(cb.(snd := s1), s.base, s.unacked[0].bytes).value.out.value;
  }

  /** The retransmission timer repeats the oldest unacknowledged segment, unchanged. */
  lemma RetransmitKeepsSending(x: Node, x': Node)
    requires SendingOk(x) && NodeStep(x, Action.RetransmitTimer) == Done(x')
    ensures SendingKept(x, x')
  {
    hide Wrap, Total, Offset;
    if Due(x.cb.snd.retransmitDeadline, x.cb.clock) {
      hide NodeStep;
      var seg := RetransmitShape(x, x');
      var q, q' := x.cb.snd.unacked, x'.cb.snd.unacked;
      assert q'[1..] == q[1..];
      assert Live(q') == Live(q);
      if q[0].bytes != [] {
        assert Live(q)[0] == q[0].bytes;
      }
    }
  }

  /** The remaining actions do not touch the sender's numbers or queues. */
  lemma IdleKeepsSending(x: Node, a: Action, x': Node)
    requires SendingOk(x) && NodeStep(x, a) == Done(x')
    requires a.Tick? || a.AckTimer? || a.Pop? || (a.SenderTurn? && x'.cb.snd == x.cb.snd)
    ensures SendingKept(x, x')
  {
    hide Wrap, Total, Live;
    OutstandingIsQueued(x);
    assert x'.sent == x.sent && x'.cb.snd == x.cb.snd;
  }

  /** Every action but a receive keeps the sending half. */
  lemma NonReceiveKeepsSending(x: Node, y: Node, a: Action, x': Node)
    requires SendingOk(x) && !a.Receive? && NodeStep(x, a) == Done(x') && Enabled(x, y, a)
    ensures SendingKept(x, x')
  {
    match a {
      case Push(buf, arpHit) => PushKeepsSending(x, buf, arpHit, x');
      case SenderTurn =>
        if x.cb.loop.Top? && x.cb.snd.sent != x.cb.snd.unsent && x.cb.snd.windowSize == 0 {
          ProbeKeepsSending(x, x');
        } else if x.cb.loop.Top? && x.cb.snd.sent != x.cb.snd.unsent
                  && x.cb.snd.windowSize > WrappingSub(x.cb.snd.sent, x.cb.snd.base) {
          WindowedSendKeepsSending(x, x');
        } else {
          IdleKeepsSending(x, a, x');
        }
      case ProbeTimer => ProbeTimerKeepsSending(x, x');
      case RetransmitTimer => RetransmitKeepsSending(x, x');
      case AckTimer => IdleKeepsSending(x, a, x');
      case Tick(_) => IdleKeepsSending(x, a, x');
      case Pop => IdleKeepsSending(x, a, x');
    }
  }

  // ----- Receiving a packet -----

  lemma PrefixOffset(l: seq<Bytes>, whole: seq<Bytes>, i: nat)
    requires l <= whole && i <= |l|
    ensures Offset(l, i) == Offset(whole, i)
  {
    assert l[..i] == whole[..i];
  }

  lemma OffsetTail(l: seq<Bytes>, i: nat, j: nat)
    requires i <= j <= |l|
    ensures Offset(l[i..], j - i) == Offset(l, j) - Offset(l, i)
  {
    assert l[..j] == l[..i] + l[i..][..j - i];
    FlatConcat(l[..i], l[i..][..j - i]);
  }

  /** Two offsets compare as the indices do. */
  lemma OffsetOrder(l: seq<Bytes>, i: nat, j: nat)
    requires i <= |l| && j <= |l| && AllNonEmpty(l)
    ensures i < j <==> Offset(l, i) < Offset(l, j)
    ensures i == j <==> Offset(l, i) == Offset(l, j)
  {
    if i < j { OffsetIncreases(l, i, j); }
    if j < i { OffsetIncreases(l, j, i); }
  }

  /** Sender accounting after an acknowledgement of the first `k` segments. */
  predicate AckedUpTo(x: Node, s: Sender, k: nat) {
    && k <= |x.sent|
    && Live(s.unacked) == x.sent[k..]
    && s.base == Wrap(x.isn + Offset(x.sent, k))
    && s == x.cb.snd.(base := s.base, unacked := s.unacked, rto := s.rto, retransmitDeadline := s.retransmitDeadline)
    && (s.retransmitDeadline.Some? ==> s.unacked != [])
  }

  /** The wrapping acknowledgement test, on the index an acknowledgement stands for: it is
      taken exactly when it is ahead of the base, and then removes exactly the segments it
      covers, so it always falls on a segment boundary; otherwise nothing changes. */
  lemma RemoteAckExact(x: Node, k: nat, now: real)
    requires SenderOk(x) && TimerOk(x) && k <= |x.sent|
    requires Total(x.sent) - Offset(x.sent, k) < MOD
    ensures var s := RemoteAck(x.cb.snd, Wrap(x.isn + Offset(x.sent, k)), now);
      if k <= BaseIx(x) then s == x.cb.snd else AckedUpTo(x, s, k)
    ensures k > BaseIx(x) ==>
              PopAcked(x.cb.snd.unacked, WrappingSub(Wrap(x.isn + Offset(x.sent, k)), x.cb.snd.base),
                       now, x.cb.snd.rto).onBoundary
    ensures k <= BaseIx(x) ==>
              var acked := WrappingSub(Wrap(x.isn + Offset(x.sent, k)), x.cb.snd.base);
              acked == 0 || acked > WrappingSub(x.cb.snd.sent, x.cb.snd.base)
  {
    hide Wrap, WrappingSub, WrappingAdd, PopAcked, Total, Live;
    var s, b := x.cb.snd, BaseIx(x);
    var ackNum := Wrap(x.isn + Offset(x.sent, k));
    var acked := WrappingSub(ackNum, s.base);
    OffsetOrder(x.sent, b, k);
    InFlightIsUnacked(x);
    OffsetSplit(x.sent, k);
    AckTestExact(x.isn, Offset(x.sent, b), Total(x.sent), Offset(x.sent, k));
    SubPositions(x.isn, Offset(x.sent, b), Offset(x.sent, k));
    if k > b {
      OffsetTail(x.sent, b, k);
      PopAckedExact(s.unacked, acked, now, s.rto, k - b);
      AddPosition(x.isn, Offset(x.sent, b), acked);
      assert x.sent[b..][k - b..] == x.sent[k..];
      if k == |x.sent| {
        OffsetFull(x.sent);
      }
    }
  }

  /** A packet of `y` acknowledges a number of segments that `y` has accepted, hence a boundary
      of the stream of `x`. */
  lemma AckStampInSender(x: Node, y: Node, p: Packet)
    requires NodeOk(y) && Link(x, y) && p in y.out && p.seg.header.ack
    ensures p.ackIx <= y.ackedIx <= |x.sent|
    ensures p.seg.header.ackNum == Wrap(x.isn + Offset(x.sent, p.ackIx))
  {
    hide Wrap, Total, Live, Offset, SenderOk, ReceiverOk, ProbeOk, TimerOk;
    assert AckStamped(y, p);
    PrefixOffset(Got(y), x.sent, p.ackIx);
  }

  lemma ReceiveKeepsSending(x: Node, y: Node, p: Packet, x': Node)
    requires SendingOk(x) && NodeOk(y) && Link(x, y) && p in y.out && FreshPacket(x, y, p)
    requires NodeStep(x, Action.Receive(p)) == Done(x')
    ensures SenderOk(x') && TimerOk(x') && ProbeOk(x')
    ensures x'.sent == x.sent && x'.isn == x.isn
    ensures BaseIx(x') == if p.seg.header.ack && p.ackIx > BaseIx(x) then p.ackIx else BaseIx(x)
    ensures BaseIx(x') <= y.ackedIx
  {
    hide Wrap, Total, Live, Offset, RemoteAck, ReceiverOk, PacketsOk, NodeStep, SenderOk, TimerOk, AckedUpTo;
    var s := ReceivedSender(x, p, x');
    var k := if p.seg.header.ack && p.ackIx > BaseIx(x) then p.ackIx else BaseIx(x);
    if p.seg.header.ack {
      AckStampInSender(x, y, p);
      RemoteAckExact(x, p.ackIx, x.cb.clock);
    }
    BaseIsIndex(x);
    if k == BaseIx(x) { NothingAcked(x); }
    AckedKeepsSender(x, x', s, k);
  }

  /** What a received packet does to the sender: the acknowledgement, then the window. */
  lemma ReceivedSender(x: Node, p: Packet, x': Node) returns (s: Sender)
    requires NodeStep(x, Action.Receive(p)) == Done(x')
    ensures s == if p.seg.header.ack then RemoteAck(x.cb.snd, p.seg.header.ackNum, x.cb.clock) else x.cb.snd
    ensures x'.cb.snd == s.(windowSize := x'.cb.snd.windowSize) && x'.sent == x.sent && x'.isn == x.isn
    ensures x'.cb.loop.Probing? && !x'.cb.loop.windowChanged ==> x'.cb.snd == s && x'.cb.loop == x.cb.loop
  {
    hide Wrap, Power2, RemoteAck, ReceiveData;
    s := if p.seg.header.ack then RemoteAck(x.cb.snd, p.seg.header.ackNum, x.cb.clock) else x.cb.snd;
  }

  lemma BaseIsIndex(x: Node)
    requires SenderOk(x)
    ensures 0 <= BaseIx(x)
  {
  }

  lemma NothingAcked(x: Node)
    requires SenderOk(x) && TimerOk(x)
    ensures AckedUpTo(x, x.cb.snd, BaseIx(x))
  {
    hide Wrap, Total, Live, Offset;
  }

  lemma AckedKeepsSender(x: Node, x': Node, s: Sender, k: nat)
    requires SenderOk(x) && ProbeOk(x) && BaseIx(x) <= k && AckedUpTo(x, s, k)
    requires x'.cb.snd == s.(windowSize := x'.cb.snd.windowSize) && x'.sent == x.sent && x'.isn == x.isn
    requires x'.cb.loop.Probing? && !x'.cb.loop.windowChanged ==> x'.cb.snd == s && x'.cb.loop == x.cb.loop
    ensures SenderOk(x') && TimerOk(x') && ProbeOk(x') && BaseIx(x') == k
  {
    hide Wrap, Total, Live, Offset;
    OffsetOrder(x.sent, BaseIx(x), k);
  }

  /** A data segment is accepted only if it is the next one of the peer's stream. */
  lemma ReceiveDataExact(x: Node, y: Node, p: Packet)
    requires ReceiverOk(x) && NodeOk(y) && Link(y, x) && p in y.out && FreshPacket(x, y, p)
    requires p.seg.data != [] && p.seg.header.seqNum == x.cb.rcv.recv
    ensures p.ix == |Got(x)| < |y.sent| && p.seg.data == y.sent[p.ix]
  {
    hide Wrap, Total, Live;
    assert DataStamped(y, p);
    var n := |Got(x)|;
    PrefixOffset(Got(x), y.sent, n);
    OffsetFull(Got(x));
    OffsetOrder(y.sent, BaseIx(y), n);
    OffsetSplit(y.sent, p.ix);
    WrapInjective(y.isn, Offset(y.sent, p.ix), Offset(y.sent, n));
    OffsetOrder(y.sent, p.ix, n);
  }

  lemma AcceptKeepsReceiver(x: Node, x': Node, buf: Bytes)
    requires ReceiverOk(x) && buf != [] && x'.peerIsn == x.peerIsn && x'.pops == x.pops && x'.ackedIx == x.ackedIx
    requires x'.cb.rcv == ReceiveData(x.cb.rcv, x.cb.rcv.recv, buf, x.cb.clock) && x'.cb.rcv != x.cb.rcv
    ensures ReceiverOk(x') && Got(x') == Got(x) + [buf]
  {
    hide Wrap, Total;
    var q := x.cb.rcv.recvQueue;
    assert Got(x') == Got(x) + [buf];
    FlatSnoc(q, buf);
    FlatSnoc(Got(x), buf);
    AddPosition(x.peerIsn, Total(Got(x)), |buf|);
    OffsetExtend(Got(x), [buf], x.ackedIx);
  }

  lemma ReceiveKeepsReceiver(x: Node, y: Node, p: Packet, x': Node)
    requires ReceiverOk(x) && NodeOk(y) && Link(y, x) && p in y.out && FreshPacket(x, y, p)
    requires NodeStep(x, Action.Receive(p)) == Done(x')
    ensures ReceiverOk(x') && Got(x) <= Got(x') <= y.sent
    ensures x'.ackedIx == x.ackedIx && x'.out == x.out && x'.peerIsn == x.peerIsn && x'.pops == x.pops
  {
    hide Wrap, Total, PopAcked, RemoteAck, UpdateRemoteWindow, SenderOk, PacketsOk;
    if x'.cb.rcv != x.cb.rcv {
      ReceiveDataExact(x, y, p);
      AcceptKeepsReceiver(x, x', p.seg.data);
    }
  }

  // ----- One step, and whole runs -----

  lemma OldPacketsKept(x: Node, x': Node)
    requires PacketsOk(x) && x.sent <= x'.sent && Got(x) <= Got(x') && x.ackedIx <= x'.ackedIx <= |Got(x')|
    requires x'.isn == x.isn && x'.peerIsn == x.peerIsn
    ensures forall p | p in x.out :: DataStamped(x', p) && AckStamped(x', p)
  {
    hide Wrap, Total, Live;
    forall p | p in x.out
      ensures DataStamped(x', p) && AckStamped(x', p)
    {
      assert DataStamped(x, p) && AckStamped(x, p);
      if p.seg.data != [] {
        PrefixOffset(x.sent, x'.sent, p.ix);
      }
      if p.seg.header.ack {
        PrefixOffset(Got(x), Got(x'), p.ackIx);
      }
    }
  }

  lemma NonReceiveKeepsReceiver(x: Node, a: Action, x': Node)
    requires ReceiverOk(x) && !a.Receive? && NodeStep(x, a) == Done(x')
    ensures ReceiverOk(x') && Got(x') == Got(x) && x.ackedIx <= x'.ackedIx
    ensures x'.isn == x.isn && x'.peerIsn == x.peerIsn && x.out <= x'.out
    ensures forall p | p in x'.out && p !in x.out :: AckStamped(x', p)
  {
    hide Wrap, Total, Live, NodeStep;
    if a.Pop? {
      PopKeepsReceiver(x, x');
    } else {
      NonReceiveShape(x, a, x');
      AckOnlyKeepsReceiver(x, x');
      OffsetFull(Got(x));
    }
  }

  /** Every step of one endpoint, whatever the other has done, keeps the invariant. */
  lemma StepKeepsInv(x: Node, y: Node, a: Action, x': Node)
    requires Inv(x, y) && Enabled(x, y, a) && NodeStep(x, a) == Done(x')
    ensures Inv(x', y)
    ensures x.sent <= x'.sent && Got(x) <= Got(x') && BaseIx(x) <= BaseIx(x')
  {
    hide Wrap, Total, Live, NodeStep, SenderOk, TimerOk, ProbeOk;
    if a.Receive? {
      ReceiveKeepsSending(x, y, a.packet, x');
      ReceiveKeepsReceiver(x, y, a.packet, x');
    } else {
      NonReceiveKeepsSending(x, y, a, x');
      NonReceiveKeepsReceiver(x, a, x');
    }
    OldPacketsKept(x, x');
  }
}
