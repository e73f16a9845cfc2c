/** What holds in every run of two established endpoints. */
module TcpTheorems {
  import opened Base
  import opened SeqNumbers
  import opened TcpState
  import opened TcpNetwork
  import opened TcpSafety

  datatype System = System(a: Node, b: Node)

  /** One step of the system: `atA` tells which endpoint acts. */
  datatype Move = Move(atA: bool, action: Action)

  /** An endpoint that has just been created. */
  predicate IsNew(x: Node) {
    var snd, rcv := x.cb.snd, x.cb.rcv;
    && snd == NewSender(x.isn, snd.windowSize, snd.windowScale, snd.mss)
    && rcv == NewReceiver(x.peerIsn, rcv.maxWindow)
    && x.cb.loop == Top
    && x.sent == [] && x.pushed == [] && x.pops == [] && x.ackedIx == 0 && x.out == {} && x.probes == {}
  }

  /** Both endpoints are new and each expects the numbers the other starts at. */
  predicate Start(s: System) {
    IsNew(s.a) && IsNew(s.b) && s.a.peerIsn == s.b.isn && s.b.peerIsn == s.a.isn
  }

  predicate Next(s: System, m: Move, s': System) {
    if m.atA then
      Enabled(s.a, s.b, m.action) && NodeStep(s.a, m.action) == Done(s'.a) && s'.b == s.b
    else
      Enabled(s.b, s.a, m.action) && NodeStep(s.b, m.action) == Done(s'.b) && s'.a == s.a
  }

  /** A run: states joined by moves, from a start. */
  predicate Run(states: seq<System>, moves: seq<Move>) {
    && |states| == |moves| + 1
    && Start(states[0])
    && forall i | 0 <= i < |moves| :: Next(states[i], moves[i], states[i + 1])
  }

  lemma StartInv(s: System)
    requires Start(s)
    ensures Inv(s.a, s.b)
  {
    hide NodeOk;
    NewNodeOk(s.a);
    NewNodeOk(s.b);
    NewLink(s.a, s.b);
    NewLink(s.b, s.a);
  }

  lemma NewNodeOk(x: Node)
    requires IsNew(x)
    ensures NodeOk(x)
  {
    assert QueueOk(x) && NumbersOk(x);
    hide QueueOk, NumbersOk;
    assert ReceiverOk(x);
  }

  lemma NewLink(x: Node, y: Node)
    requires IsNew(x) && IsNew(y) && y.peerIsn == x.isn
    ensures Link(x, y)
  {
    hide NodeOk;
  }

  lemma {:induction false} RunInv(states: seq<System>, moves: seq<Move>, i: nat)
    requires Run(states, moves) && i < |states|
    ensures Inv(states[i].a, states[i].b)
  {
    hide NodeOk, NodeStep, Enabled, Start;
    if i == 0 {
      StartInv(states[0]);
    } else {
      RunInv(states, moves, i - 1);
      var s, m, s' := states[i - 1], moves[i - 1], states[i];
      assert Next(s, m, s');
      if m.atA {
        StepKeepsInv(s.a, s.b, m.action, s'.a);
      } else {
        StepKeepsInv(s.b, s.a, m.action, s'.b);
      }
    }
  }

  lemma FlatPrefix(l: seq<Bytes>, whole: seq<Bytes>)
    requires l <= whole
    ensures Flat(l) <= Flat(whole)
  {
    assert whole == l + whole[|l|..];
    FlatConcat(l, whole[|l|..]);
  }

  /** End-to-end safety. In every run, in both directions, the buffers the application popped
      followed by those still queued are, segment by segment and so byte by byte, a prefix of
      what the other endpoint assigned to sequence numbers. */
  lemma DeliveryIsPrefix(states: seq<System>, moves: seq<Move>, i: nat)
    requires Run(states, moves) && i < |states|
    ensures var s := states[i];
      && s.b.pops + s.b.cb.rcv.recvQueue <= s.a.sent
      && s.a.pops + s.a.cb.rcv.recvQueue <= s.b.sent
      && Flat(s.b.pops) + Flat(s.b.cb.rcv.recvQueue) <= Flat(s.a.sent)
      && Flat(s.a.pops) + Flat(s.a.cb.rcv.recvQueue) <= Flat(s.b.sent)
  {
    RunInv(states, moves, i);
    hide Flat, NodeOk;
    var s := states[i];
    FlatConcat(s.b.pops, s.b.cb.rcv.recvQueue);
    FlatConcat(s.a.pops, s.a.cb.rcv.recvQueue);
    FlatPrefix(Got(s.b), s.a.sent);
    FlatPrefix(Got(s.a), s.b.sent);
  }

  /** `x` and `y` are the two ends of some state of the run. */
  predicate Ends(states: seq<System>, x: Node, y: Node) {
    System(x, y) in states || System(y, x) in states
  }

  lemma EndsInv(states: seq<System>, moves: seq<Move>, x: Node, y: Node)
    requires Run(states, moves) && Ends(states, x, y)
    ensures Inv(x, y)
  {
    hide NodeOk, Run, Link;
    var i :| 0 <= i < |states| && (states[i] == System(x, y) || states[i] == System(y, x));
    RunInv(states, moves, i);
  }

  /** Sender accounting at either end of every reachable state: the wrapping distances are the
      bytes in the two queues, and every data segment in the network, from whichever of the
      four transmit paths, carries the stream's bytes at its sequence number. */
  lemma SenderAccounting(states: seq<System>, moves: seq<Move>, x: Node, y: Node)
    requires Run(states, moves) && Ends(states, x, y)
    ensures var s := x.cb.snd;
      && WrappingSub(s.sent, s.base) == Total(Live(s.unacked))
      && WrappingSub(s.unsent, s.sent) == Wrap(Total(s.unsentQueue))
      && (forall p | p in x.out && p.seg.data != [] ::
            && p.ix < |x.sent| && p.seg.data == x.sent[p.ix]
            && p.seg.header.seqNum == Wrap(x.isn + Offset(x.sent, p.ix)))
  {
    hide Wrap, WrappingSub, Total, Live, Offset, Run, Ends, ReceiverOk, TimerOk, ProbeOk, Link;
    EndsInv(states, moves, x, y);
    InFlightIsUnacked(x);
    SubPositions(x.isn, Total(x.sent), Total(x.sent) + Total(x.cb.snd.unsentQueue));
    forall p | p in x.out && p.seg.data != []
      ensures p.ix < |x.sent| && p.seg.data == x.sent[p.ix]
      ensures p.seg.header.seqNum == Wrap(x.isn + Offset(x.sent, p.ix))
    {
      assert DataStamped(x, p);
    }
  }

  /** The position up to which `x` has acknowledged, and up to which it has received. */
  function AckPos(x: Node): int
    requires x.ackedIx <= |Got(x)|
  {
    x.peerIsn + Offset(Got(x), x.ackedIx)
  }

  function RecvPos(x: Node): int { x.peerIsn + Total(Got(x)) }

  /** Less than 2^32 received bytes are ever unacknowledged. */
  lemma UnacknowledgedBounded(x: Node, y: Node)
    requires Inv(x, y)
    ensures AckPos(x) <= RecvPos(x) < AckPos(x) + MOD
    ensures AckPos(x) == RecvPos(x) <==> x.ackedIx == |Got(x)|
  {
    hide Wrap, Total, Live;
    var got := Got(x);
    OffsetFull(got);
    OffsetOrder(got, x.ackedIx, |got|);
    PrefixOffset(got, y.sent, x.ackedIx);
    PrefixOffset(got, y.sent, |got|);
    OffsetOrder(y.sent, BaseIx(y), x.ackedIx);
    OffsetSplit(y.sent, |got|);
  }

  /** Receiver accounting at either end of every reachable state. The advertised window never
      underflows; the acknowledgement timer is armed exactly when `ack` differs from `recv`;
      and the plain comparison that decides whether to piggyback an acknowledgement agrees
      with that exactly when `[ack, recv]` does not cross a multiple of 2^32. */
  lemma ReceiverAccounting(states: seq<System>, moves: seq<Move>, x: Node, y: Node)
    requires Run(states, moves) && Ends(states, x, y)
    ensures var r := x.cb.rcv;
      && WrappingSub(r.recv, r.base) == Total(r.recvQueue) <= r.maxWindow
      && WindowSize(r) == Done(r.maxWindow - Total(r.recvQueue))
      && (r.ackDeadline.Some? <==> r.ack != r.recv)
      && x.ackedIx <= |Got(x)|
      && (CurrentAck(r).Some? <==> r.ack != r.recv && AckPos(x) / MOD == RecvPos(x) / MOD)
  {
    hide Wrap, WrappingSub, Total, Live, Offset, Run, Ends, SenderOk, PacketsOk, TimerOk, ProbeOk, Link;
    EndsInv(states, moves, x, y);
    OutstandingIsQueued(x);
    UnacknowledgedBounded(x, y);
    PlainCompare(AckPos(x), RecvPos(x));
  }
}
