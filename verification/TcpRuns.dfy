/** Concrete runs that show what goes wrong where the theorems have a condition: a push that
    overtakes, an acknowledgement across 2^32, a probe that leaves an empty buffer, and a push
    that overflows the bytes in flight. */
module TcpRuns {
  import opened Base
  import opened SeqNumbers
  import opened TcpState
  import opened TcpNetwork
  import opened TcpSafety
  import opened TcpTheorems
  import opened TcpOrder
  import opened TcpAborts

  /** A new endpoint with the window scale both opens default to. */
  function Endpoint(isn: U32, peerIsn: U32, windowSize: U32): (x: Node)
    ensures IsNew(x)
  {
    Node(isn, peerIsn,
         ControlBlock(NewSender(isn, windowSize, 1, 536), NewReceiver(peerIsn, 0xffff), Top, 0.0),
         [], [], [], 0, {}, {})
  }

  /** The packet of the first one-byte segment of an endpoint that has received nothing. */
  function FirstPacket(x: Node, b: Byte): Packet {
    Packet(Segment(Header(x.isn, 0, false, 0xffff), [b]), 0, 0)
  }

  /** A new endpoint sends one byte at once. */
  lemma FirstByte(isn: U32, peerIsn: U32, b: Byte) returns (x': Node)
    ensures NodeStep(Endpoint(isn, peerIsn, 1), Action.Push([b], true)) == Done(x')
    ensures x'.out == {FirstPacket(x', b)} && x'.sent == [[b]] && x'.isn == isn
    ensures x'.cb.snd.base == isn && x'.cb.snd.sent == WrappingAdd(isn, 1) && x'.cb.snd.windowSize == 1
  {
    x' := NodeStep(Endpoint(isn, peerIsn, 1), Action.Push([b], true)).value;
  }

  /** A push that does not fit, or finds no link address, waits at the end of the queue. */
  lemma WaitingPush(x: Node, buf: Bytes, arpHit: bool) returns (x': Node)
    requires |buf| < MOD && x.cb.snd.sent == x.cb.snd.base && x.cb.snd.windowSize < MOD
    requires |buf| > x.cb.snd.windowSize || !arpHit
    ensures NodeStep(x, Action.Push(buf, arpHit)) == Done(x')
    ensures x'.cb == x.cb.(snd := Enqueue(x.cb.snd, buf)) && x'.pushed == x.pushed + [buf]
    ensures x' == x.(cb := x'.cb, pushed := x'.pushed)
  {
    x' := NodeStep(x, Action.Push(buf, arpHit)).value;
  }

  // ----- Overtaking -----

  /** A push of one byte that fits, while two bytes wait. */
  lemma SecondPush(x: Node) returns (x': Node)
    requires x == Endpoint(0, 0, 1).(cb := x.cb, pushed := [[1, 2]])
    requires x.cb == Endpoint(0, 0, 1).cb.(snd := Enqueue(Endpoint(0, 0, 1).cb.snd, [1, 2]))
    ensures NodeStep(x, Action.Push([3], true)) == Done(x')
    ensures x'.sent == [[3]] && x'.cb.snd.unsentQueue == [[1, 2]] && x'.pushed == [[1, 2], [3]]
  {
    hide Flat, Live;
    x' := NodeStep(x, Action.Push([3], true)).value;
  }

  /** A push of two bytes waits for window; a later push of one byte fits and overtakes it. */
  lemma OvertakingRun() returns (states: seq<System>, moves: seq<Move>)
    ensures Run(states, moves) && |moves| == 2
    ensures states[2].a.pushed == [[1, 2], [3]] && states[2].a.sent == [[3]]
    ensures !InOrder(states[2].a)
  {
    hide Flat, Live, Total, NodeStep;
    var x, b := Endpoint(0, 0, 1), Endpoint(0, 0, 1);
    var push1, push2 := Action.Push([1, 2], true), Action.Push([3], true);
    var x1 := WaitingPush(x, [1, 2], true);
    var x2 := SecondPush(x1);
    states := [System(x, b), System(x1, b), System(x2, b)];
    moves := [Move(true, push1), Move(true, push2)];
    NotInOrder(x2);
  }

  lemma NotInOrder(x: Node)
    requires x.sent == [[3]] && x.cb.snd.unsentQueue == [[1, 2]] && x.pushed == [[1, 2], [3]]
    ensures !InOrder(x)
  {
    assert Flat(x.sent)[0] == 3;
    assert Flat(x.pushed)[0] == 1;
  }

  // ----- Acknowledging across 2^32 -----

  lemma FirstByteFresh(x: Node, y: Node, b: Byte)
    requires x.pops == [] && x.cb.rcv.recvQueue == [] && y.sent == [[b]]
    ensures FreshPacket(x, y, FirstPacket(y, b))
  {}

  /** A new endpoint accepts the first byte of its peer, and time passes. */
  lemma AcceptFirst(y: Node, b: Byte, isn: U32) returns (x1: Node, x2: Node)
    requires y.isn == isn
    ensures NodeStep(Endpoint(0, isn, 1), Action.Receive(FirstPacket(y, b))) == Done(x1)
    ensures NodeStep(x1, Action.Tick(0.5)) == Done(x2)
    ensures x2.cb.rcv == Receiver(isn, [[b]], isn, Wrap(isn + 1), Some(0.5), 0xffff) && x2.cb.clock == 0.5
    ensures x2.ackedIx == 0 && x2.pops == []
  {
    hide Wrap;
    x1 := NodeStep(Endpoint(0, isn, 1), Action.Receive(FirstPacket(y, b))).value;
    x2 := NodeStep(x1, Action.Tick(0.5)).value;
  }

  lemma UnorderedAckAborts(x: Node)
    requires Due(x.cb.rcv.ackDeadline, x.cb.clock) && x.cb.rcv.recv <= x.cb.rcv.ack
    ensures NodeStep(x, Action.AckTimer).Panic?
  {}

  /** A one-byte segment at the last sequence number before 2^32 is received, and the timer for
      its delayed acknowledgement aborts the receiver. */
  lemma AckAcrossWrapRun() returns (states: seq<System>, moves: seq<Move>)
    ensures Run(states, moves) && |moves| == 3
    ensures NodeStep(states[3].b, Action.AckTimer).Panic?
  {
    hide NodeStep, Live, Total;
    var isn: U32 := 0xffff_ffff;
    var a0, b0 := Endpoint(isn, 0, 1), Endpoint(0, isn, 1);
    var a1 := FirstByte(isn, 0, 7);
    var b1, b2 := AcceptFirst(a1, 7, isn);
    UnorderedAckAborts(b2);
    FirstByteFresh(b0, a1, 7);
    states := [System(a0, b0), System(a1, b0), System(a1, b1), System(a1, b2)];
    moves := [Move(true, Action.Push([7], true)), Move(false, Action.Receive(FirstPacket(a1, 7))), Move(false, Action.Tick(0.5))];
    assert Next(states[0], moves[0], states[1]);
    assert Next(states[1], moves[1], states[2]);
    assert Next(states[2], moves[2], states[3]);
  }

  // ----- A probe that leaves an empty buffer -----

  /** A probe of a one-byte buffer: the byte is sent and an empty buffer stays in front. */
  lemma ProbeOne(x: Node, b: Byte) returns (x': Node)
    requires x.cb.loop == Top && x.cb.snd.unsentQueue == [[b]] && x.cb.snd.windowSize == 0
    requires x.cb.snd.sent != x.cb.snd.unsent && x.cb.rcv == NewReceiver(x.peerIsn, 0xffff)
    ensures NodeStep(x, Action.SenderTurn) == Done(x')
    ensures x'.cb.snd.unsentQueue == [[]] && x'.cb.loop == Probing(x.cb.snd.sent, [b], false)
    ensures x'.cb.snd.sent == WrappingAdd(x.cb.snd.sent, 1) && x'.cb.snd.windowSize == 0
    ensures x'.cb.snd.unsent == x.cb.snd.unsent && x'.cb.snd.base == x.cb.snd.base
    ensures x'.cb.snd.windowScale == x.cb.snd.windowScale && x'.cb.rcv == x.cb.rcv
    ensures x'.pops == x.pops && x'.sent == x.sent + [[b]]
  {
    hide Live, Total;
    x' := NodeStep(x, Action.SenderTurn).value;
    assert [b][1..] == [] && [b][..1] == [b];
    assert x'.cb.snd.unsentQueue == [[]];
  }

  /** A data packet without acknowledgement opens the window and ends the probing. */
  lemma WindowOpens(x: Node, p: Packet) returns (x1: Node, x2: Node)
    requires x.cb.loop.Probing? && x.cb.snd.windowScale == 1 && !p.seg.header.ack && p.seg.header.windowSize == 0xffff
    ensures NodeStep(x, Action.Receive(p)) == Done(x1) && NodeStep(x1, Action.SenderTurn) == Done(x2)
    ensures x2.cb.loop == Top && x1.cb.snd == x2.cb.snd == x.cb.snd.(windowSize := 131070)
  {
    assert Power2(1) == 2;
    x1 := NodeStep(x, Action.Receive(p)).value;
    x2 := NodeStep(x1, Action.SenderTurn).value;
  }

  lemma SlowPush(x: Node, buf: Bytes) returns (x': Node)
    requires |buf| < MOD && WrappingSub(x.cb.snd.sent, x.cb.snd.base) + |buf| < MOD
    ensures NodeStep(x, Action.Push(buf, false)) == Done(x')
    ensures x'.cb == x.cb.(snd := Enqueue(x.cb.snd, buf))
  {
    x' := NodeStep(x, Action.Push(buf, false)).value;
  }

  lemma EmptyFrontAborts(x: Node)
    requires x.cb.loop == Top && FrontIsEmpty(x.cb.snd) && x.cb.snd.sent != x.cb.snd.unsent
    requires WrappingSub(x.cb.snd.sent, x.cb.snd.base) < x.cb.snd.windowSize
    ensures NodeStep(x, Action.SenderTurn).Panic?
  {}

  /** With a closed window a one-byte push is probed, which leaves an empty buffer behind; the
      next push that has to wait makes the sender loop abort. */
  lemma OneByteProbeRun() returns (states: seq<System>, moves: seq<Move>)
    ensures Run(states, moves) && |moves| == 6
    ensures FrontIsEmpty(states[6].a.cb.snd) && NodeStep(states[6].a, Action.SenderTurn).Panic?
  {
    hide NodeStep, Live, Total;
    var a0, b0 := Endpoint(0, 0, 0), Endpoint(0, 0, 1);
    var a1 := WaitingPush(a0, [1], true);
    assert a1.cb.snd.unsentQueue == [[1]];
    var a2 := ProbeOne(a1, 1);
    var b1 := FirstByte(0, 0, 9);
    var a3, a4 := WindowOpens(a2, FirstPacket(b1, 9));
    FirstByteFresh(a2, b1, 9);
    var a5 := SlowPush(a4, [2]);
    EmptyFrontAborts(a5);
    states := [System(a0, b0), System(a1, b0), System(a2, b0), System(a2, b1), System(a3, b1), System(a4, b1), System(a5, b1)];
    moves := [Move(true, Action.Push([1], true)), Move(true, Action.SenderTurn), Move(false, Action.Push([9], true)),
      Move(true, Action.Receive(FirstPacket(b1, 9))), Move(true, Action.SenderTurn), Move(true, Action.Push([2], false))];
    assert Next(states[0], moves[0], states[1]);
    assert Next(states[1], moves[1], states[2]);
    assert Next(states[2], moves[2], states[3]);
    assert Next(states[3], moves[3], states[4]);
    assert Next(states[4], moves[4], states[5]);
    assert Next(states[5], moves[5], states[6]);
  }

  // ----- Overflowing the bytes in flight -----

  lemma OverflowAborts(x: Node, buf: Bytes)
    requires |buf| < MOD <= WrappingSub(x.cb.snd.sent, x.cb.snd.base) + |buf| && x.cb.snd.windowSize > 0
    ensures NodeStep(x, Action.Push(buf, true)).Panic?
  {
    hide Wrap, WrappingSub, WrappingAdd;
  }

  /** With one byte in flight, a push of 2^32 - 1 bytes overflows the checked addition. */
  lemma PushOverflowRun(huge: Bytes) returns (states: seq<System>, moves: seq<Move>)
    requires |huge| == MOD - 1
    ensures Run(states, moves) && |moves| == 1
    ensures NodeStep(states[1].a, Action.Push(huge, true)).Panic?
  {
    hide NodeStep;
    var x, y := Endpoint(0, 0, 1), Endpoint(0, 0, 1);
    var x1 := FirstByte(0, 0, 7);
    OverflowAborts(x1, huge);
    states := [System(x, y), System(x1, y)];
    moves := [Move(true, Action.Push([7], true))];
  }
}
