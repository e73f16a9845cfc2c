/** Exactly when a step of an endpoint aborts the process. */
module TcpAborts {
  import opened Base
  import opened SeqNumbers
  import opened TcpState
  import opened TcpNetwork
  import opened TcpSafety
  import opened TcpTheorems
  import opened TcpOrder

  predicate FrontIsEmpty(s: Sender) { s.unsentQueue != [] && s.unsentQueue[0] == [] }

  /** The states in which action `a` aborts: a push whose length overflows the bytes in flight;
      a turn of the sender that meets an empty buffer, or a zero segment size; and an
      acknowledgement that has to cover a multiple of 2^32. */
  predicate Aborts(x: Node, a: Action)
    requires x.ackedIx <= |Got(x)|
  {
    var s := x.cb.snd;
    match a
    case Push(buf, _) =>
      |buf| < MOD && s.windowSize > 0 && Total(Live(s.unacked)) + |buf| >= MOD
    case SenderTurn =>
      && x.cb.loop.Top? && Wrap(Total(s.unsentQueue)) != 0
      && if s.windowSize == 0 then FrontIsEmpty(s)
         else s.windowSize > Total(Live(s.unacked)) && (FrontIsEmpty(s) || s.mss == 0)
    case AckTimer =>
      Due(x.cb.rcv.ackDeadline, x.cb.clock) && AckPos(x) / MOD != RecvPos(x) / MOD
    case _ => false
  }

  lemma PushAborts(x: Node, buf: Bytes, arpHit: bool)
    requires SenderOk(x) && ReceiverOk(x)
    ensures NodeStep(x, Action.Push(buf, arpHit)).Panic? <==> Aborts(x, Action.Push(buf, arpHit))
  {
    hide Wrap, WrappingSub, Total, Live, Offset;
    InFlightIsUnacked(x);
    TransmitDone(x, x.cb, x.cb.snd.sent, buf);
  }

  lemma UnsentGap(x: Node)
    requires SenderOk(x)
    ensures x.cb.snd.sent == x.cb.snd.unsent <==> Wrap(Total(x.cb.snd.unsentQueue)) == 0
    ensures x.cb.snd.sent != x.cb.snd.unsent ==> x.cb.snd.unsentQueue != []
  {
    hide Live, Offset;
    SubPositions(x.isn, Total(x.sent), Total(x.sent) + Total(x.cb.snd.unsentQueue));
  }

  lemma TurnAborts(x: Node)
    requires SenderOk(x) && ReceiverOk(x)
    ensures NodeStep(x, Action.SenderTurn).Panic? <==> Aborts(x, Action.SenderTurn)
  {
    hide Wrap, WrappingSub, Total, Live, Offset;
    InFlightIsUnacked(x);
    UnsentGap(x);
    var cb, s := x.cb, x.cb.snd;
    if cb.loop.Top? && s.sent != s.unsent {
      if s.windowSize == 0 {
        if s.unsentQueue[0] != [] {
          var (s1, buf) := PopOneUnsentByte(s).value;
          TransmitDone(x, cb.(snd := Assign(s1, buf, cb.clock), loop := Probing(s.sent, buf, false)), s.sent, buf);
        }
      } else if s.windowSize > WrappingSub(s.sent, s.base) {
        var (s1, buf) := PopUnsent(s, Min(s.windowSize - WrappingSub(s.sent, s.base), s.mss)).value;
        TransmitDone(x, cb.(snd := ArmTimer(Assign(s1, buf, cb.clock), cb.clock)), s.sent, buf);
      }
    }
  }

  lemma AckTimerAborts(x: Node, y: Node)
    requires Inv(x, y)
    ensures NodeStep(x, Action.AckTimer).Panic? <==> Aborts(x, Action.AckTimer)
  {
    hide Wrap, WrappingSub, Total, Live, Offset, SenderOk, PacketsOk, ProbeOk, TimerOk, Link;
    UnacknowledgedBounded(x, y);
    PlainCompare(AckPos(x), RecvPos(x));
    OutstandingIsQueued(x);
  }

  lemma TimersNeverAbort(x: Node, a: Action)
    requires SendingOk(x) && (a.ProbeTimer? || a.RetransmitTimer?)
    ensures NodeStep(x, a).Done?
  {
    hide Wrap, Total, Live, Offset;
    var cb, s := x.cb, x.cb.snd;
    if a.ProbeTimer? {
      if cb.loop.Probing? {
        TransmitDone(x, cb, cb.loop.seqNum, cb.loop.probe);
      }
    } else if Due(s.retransmitDeadline, cb.clock) {
      var rto := Rto.RecordFailure(s.rto);
      var s1 := s.(unacked := [s.unacked[0].(initialTx := None)] + s.unacked[1..], rto := rto,
      retransmitDeadline := Some(cb.clock + rto.rto));
      TransmitDone(x, cb.(snd := s1), s.base, s.unacked[0].bytes);
    }
  }

  lemma PopNeverAborts(x: Node)
    requires ReceiverOk(x)
    ensures NodeStep(x, Action.Pop).Done?
  {
    if x.cb.rcv.recvQueue == [] {
      assert Got(x) == x.pops;
    }
  }

  lemma IdleNeverAborts(x: Node, a: Action)
    requires a.Tick? || a.Receive?
    ensures NodeStep(x, a).Done?
  {}

  /** In every state that satisfies the invariant, so in every reachable one, an action aborts
      exactly in the three situations of `Aborts`. In particular the retransmission timer never
      finds an empty queue, no emitted acknowledgement differs from `recv`, the advertised
      window never underflows, and neither queue is ever found empty. */
  lemma AbortsExactly(x: Node, y: Node, a: Action)
    requires Inv(x, y)
    ensures NodeStep(x, a).Panic? <==> Aborts(x, a)
  {
    hide NodeStep, SenderOk, TimerOk, ProbeOk, ReceiverOk, PacketsOk;
    match a {
      case Push(buf, arpHit) => PushAborts(x, buf, arpHit);
      case SenderTurn => TurnAborts(x);
      case AckTimer => AckTimerAborts(x, y);
      case ProbeTimer => TimersNeverAbort(x, a);
      case RetransmitTimer => TimersNeverAbort(x, a);
      case Pop => PopNeverAborts(x);
      case Tick(_) => IdleNeverAborts(x, a);
      case Receive(_) => IdleNeverAborts(x, a);
    }
  }

  /** A segment that a push or an unprobed turn newly assigns leaves the bytes in flight
      within the window. */
  lemma NewSendWithinWindow(x: Node, y: Node, a: Action, x': Node)
    requires Inv(x, y) && Enabled(x, y, a) && AssignsNew(a) && NodeStep(x, a) == Done(x')
    requires x'.cb.snd.unacked != x.cb.snd.unacked && x.cb.snd.windowSize > 0
    ensures WrappingSub(x'.cb.snd.sent, x'.cb.snd.base) <= x'.cb.snd.windowSize
  {
    hide Wrap, WrappingSub, Total, Live, Offset, TimerOk, ProbeOk, PacketsOk, Link, ReceiverOk;
    NonReceiveKeepsSending(x, y, a, x');
    InFlightIsUnacked(x);
    InFlightIsUnacked(x');
    var s := x.cb.snd;
    var seg: Segment;
    if a.Push? {
      seg := PushShape(x, a.buf, a.arpHit, x');
      AddPosition(x.isn, Total(x.sent) + Total(s.unsentQueue), |a.buf|);
    } else {
      seg := WindowedShape(x, x');
    }
    AssignedInFlight(x, x', seg);
  }

  lemma AssignedInFlight(x: Node, x': Node, seg: Segment)
    requires Assigned(x, x', seg)
    ensures Total(Live(x'.cb.snd.unacked)) == Total(Live(x.cb.snd.unacked)) + |seg.data|
  {
    LiveSnoc(x.cb.snd.unacked, Unacked(seg.data, Some(x.cb.clock)));
    AppendAny(Live(x.cb.snd.unacked), seg.data);
  }

  // ----- Where empty buffers come from -----

  /** The two ways to an empty buffer in the unsent queue are avoided: no empty buffer is pushed,
      and no buffer of one byte is probed. */
  predicate Tame(x: Node, a: Action) {
    && (a.Push? ==> a.buf != [])
    && (a.SenderTurn? && x.cb.loop.Top? && x.cb.snd.windowSize == 0 && x.cb.snd.unsentQueue != [] ==>
          |x.cb.snd.unsentQueue[0]| != 1)
  }

  lemma StepKeepsBuffers(x: Node, a: Action, x': Node)
    requires AllNonEmpty(x.cb.snd.unsentQueue) && Tame(x, a) && NodeStep(x, a) == Done(x')
    ensures AllNonEmpty(x'.cb.snd.unsentQueue) && x'.cb.snd.mss == x.cb.snd.mss
  {
    hide Wrap, WrappingSub, WrappingAdd, Total, Live, Offset, PopAcked, Power2, TcpHeader, AckSent;
  }

  ghost predicate TameRun(states: seq<System>, moves: seq<Move>) {
    && |states| == |moves| + 1
    && forall i | 0 <= i < |moves| :: Tame(if moves[i].atA then states[i].a else states[i].b, moves[i].action)
  }

  lemma {:induction false} RunKeepsBuffers(states: seq<System>, moves: seq<Move>, i: nat)
    requires Run(states, moves) && TameRun(states, moves) && i < |states|
    ensures AllNonEmpty(states[i].a.cb.snd.unsentQueue) && AllNonEmpty(states[i].b.cb.snd.unsentQueue)
    ensures states[i].a.cb.snd.mss == states[0].a.cb.snd.mss && states[i].b.cb.snd.mss == states[0].b.cb.snd.mss
  {
    hide NodeStep, Enabled, Tame;
    if i > 0 {
      RunKeepsBuffers(states, moves, i - 1);
      var s, m, s' := states[i - 1], moves[i - 1], states[i];
      assert Next(s, m, s');
      if m.atA {
        StepKeepsBuffers(s.a, m.action, s'.a);
      } else {
        StepKeepsBuffers(s.b, m.action, s'.b);
      }
    }
  }

  /** Over every run in which no empty buffer is pushed and no one-byte buffer is probed, no
      turn of a sender with a positive segment size aborts. */
  lemma TurnsNeverAbort(states: seq<System>, moves: seq<Move>, i: nat)
    requires Run(states, moves) && TameRun(states, moves) && i < |states|
    ensures states[0].a.cb.snd.mss > 0 ==> NodeStep(states[i].a, Action.SenderTurn).Done?
    ensures states[0].b.cb.snd.mss > 0 ==> NodeStep(states[i].b, Action.SenderTurn).Done?
  {
    RunInv(states, moves, i);
    RunKeepsBuffers(states, moves, i);
    hide NodeStep, Run, TameRun, SenderOk, ReceiverOk;
    TurnAborts(states[i].a);
    TurnAborts(states[i].b);
  }
}
