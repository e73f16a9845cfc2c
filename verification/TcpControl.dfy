/** The established connection as the objects it is made of. Every method is proved to do what
    the corresponding function of `TcpState` says. A method whose source may abort returns
    `ok`, false exactly when it aborts. */
module TcpControl {
  import opened Base
  import opened SeqNumbers
  import Spec = TcpState
  import Rto

  type Unacked = Spec.Unacked
  type Segment = Spec.Segment
  type Header = Spec.Header

  lemma RemoteAckIs(s: Spec.Sender, ackNum: U32, now: real)
    ensures var acked := WrappingSub(ackNum, s.base);
      Spec.RemoteAck(s, ackNum, now) ==
        if acked > WrappingSub(s.sent, s.base) || acked == 0 then s
        else
          var p := Spec.PopAcked(s.unacked, acked, now, s.rto);
          Spec.Sender(if p.onBoundary then WrappingAdd(s.base, acked) else s.base, p.rest, s.sent, s.unsentQueue,
            s.unsent, s.windowSize, s.windowScale, s.mss,
            if ackNum == s.sent then None else Some(now + s.rto.rto), p.rto)
  {
    hide Wrap, WrappingSub, WrappingAdd, Spec.PopAcked;
  }

  class Sender {
    var base: U32
    var unacked: seq<Unacked>
    var sent: U32
    var unsentQueue: seq<Bytes>
    var unsent: U32
    var windowSize: U32
    const windowScale: nat
    const mss: nat
    var retransmitDeadline: Option<real>
    const rto: Rto.RtoCalculator

    ghost function View(): Spec.Sender
      reads this, rto
    {
      Spec.Sender(base, unacked, sent, unsentQueue, unsent, windowSize, windowScale, mss, retransmitDeadline, rto.View())
    }

    constructor (seqNo: U32, windowSize: U32, windowScale: nat, mss: nat)
      ensures View() == Spec.NewSender(seqNo, windowSize, windowScale, mss)
      ensures fresh(rto)
    {
      base, unacked, sent, unsentQueue, unsent := seqNo, [], seqNo, [], seqNo;
      this.windowSize, this.windowScale, this.mss := windowSize, windowScale, mss;
      retransmitDeadline := None;
      rto := new Rto.RtoCalculator();
    }

    /** The loop of `remote_ack`: pop segments until `n` bytes are accounted for. */
    method PopAcked(n: nat, now: real) returns (onBoundary: bool)
      requires n > 0
      modifies this`unacked, rto
      ensures Spec.Popped(unacked, rto.View(), onBoundary) == Spec.PopAcked(old(unacked), n, now, old(rto.View()))
    {
      hide Rto.AddSample, Spec.PopAcked;
      var remaining := n;
      while unacked != []
        invariant 0 < remaining
        invariant Spec.PopAcked(unacked, remaining, now, rto.View())
               == Spec.PopAcked(old(unacked), n, now, old(rto.View()))
        decreases |unacked|
      {
        Spec.PopStep(unacked, remaining, now, rto.View());
        var segment := unacked[0];
        unacked := unacked[1..];
        if |segment.bytes| > remaining {
          return false;
        }
        remaining := remaining - |segment.bytes|;
        if segment.initialTx.Some? {
          rto.Add(now - segment.initialTx.value);
        }
        if remaining == 0 {
          return true;
        }
      }
      Spec.PopStep(unacked, remaining, now, rto.View());
      onBoundary := true;
    }

    method RemoteAck(ackNum: U32, now: real)
      modifies this, rto
      ensures View() == Spec.RemoteAck(old(View()), ackNum, now)
    {
      hide Wrap, WrappingSub, WrappingAdd, Spec.PopAcked, Spec.RemoteAck;
      RemoteAckIs(View(), ackNum, now);
      var outstanding := WrappingSub(sent, base);
      var acked := WrappingSub(ackNum, base);
      if acked > outstanding || acked == 0 {
        return;
      }
      retransmitDeadline := if ackNum == sent then None else Some(now + rto.rto);
      ghost var p := Spec.PopAcked(unacked, acked, now, rto.View());
      var onBoundary := PopAcked(acked, now);
      assert unacked == p.rest && rto.View() == p.rto && onBoundary == p.onBoundary;
      base := if onBoundary then WrappingAdd(base, acked) else base;
    }

    method PopOneUnsentByte() returns (ok: bool, byte: Bytes)
      modifies this`unsentQueue
      ensures ok <==> Spec.PopOneUnsentByte(old(View())).Done?
      ensures ok ==> (View(), byte) == Spec.PopOneUnsentByte(old(View())).value
    {
      if unsentQueue == [] {
        return false, [];
      }
      var buf := unsentQueue[0];
      unsentQueue := unsentQueue[1..];
      if buf == [] {
        return false, [];
      }
      unsentQueue := [buf[1..]] + unsentQueue;
      return true, buf[..1];
    }

    method PopUnsent(maxBytes: nat) returns (ok: bool, buf: Bytes)
      modifies this`unsentQueue
      ensures ok <==> Spec.PopUnsent(old(View()), maxBytes).Done?
      ensures ok ==> (View(), buf) == Spec.PopUnsent(old(View()), maxBytes).value
    {
      if unsentQueue == [] {
        return false, [];
      }
      buf := unsentQueue[0];
      unsentQueue := unsentQueue[1..];
      if |buf| > maxBytes {
        unsentQueue := [buf[maxBytes..]] + unsentQueue;
        buf := buf[..maxBytes];
      }
      ok := true;
    }

    method UpdateRemoteWindow(windowHdr: nat)
      modifies this`windowSize
      ensures View() == Spec.UpdateRemoteWindow(old(View()), windowHdr)
    {
      if windowScale < 32 {
        windowSize := Wrap(windowHdr * Power2(windowScale));
      }
    }

    method Assign(buf: Bytes, now: real)
      modifies this`sent, this`unacked
      ensures View() == Spec.Assign(old(View()), buf, now)
    {
      sent := WrappingAdd(sent, |buf|);
      unacked := unacked + [Spec.Unacked(buf, Some(now))];
    }

    method ArmTimer(now: real)
      modifies this`retransmitDeadline
      ensures View() == Spec.ArmTimer(old(View()), now)
    {
      if retransmitDeadline.None? {
        retransmitDeadline := Some(now + rto.rto);
      }
    }
  }

  class Receiver {
    var base: U32
    var recvQueue: seq<Bytes>
    var ack: U32
    var recv: U32
    var ackDeadline: Option<real>
    const maxWindow: U32

    ghost function View(): Spec.Receiver
      reads this
    {
      Spec.Receiver(base, recvQueue, ack, recv, ackDeadline, maxWindow)
    }

    constructor (seqNo: U32, maxWindow: U32)
      ensures View() == Spec.NewReceiver(seqNo, maxWindow)
    {
      base, recvQueue, ack, recv, ackDeadline := seqNo, [], seqNo, seqNo, None;
      this.maxWindow := maxWindow;
    }

    method AckSent(ackNum: U32) returns (ok: bool)
      modifies this`ackDeadline, this`ack
      ensures ok <==> Spec.AckSent(old(View()), ackNum).Done?
      ensures ok ==> View() == Spec.AckSent(old(View()), ackNum).value
    {
      if ackNum != recv {
        return false;
      }
      ackDeadline := None;
      ack := ackNum;
      ok := true;
    }

    method UnreadBytes() returns (n: nat)
      ensures n == Total(recvQueue)
    {
      n := 0;
      for i := 0 to |recvQueue|
        invariant n == Offset(recvQueue, i)
      {
        OffsetStep(recvQueue, i);
        n := n + |recvQueue[i]|;
      }
      OffsetFull(recvQueue);
    }

    method ReceiveData(seqNum: U32, buf: Bytes, now: real)
      modifies this`recv, this`recvQueue, this`ackDeadline
      ensures View() == Spec.ReceiveData(old(View()), seqNum, buf, now)
    {
      if recv != seqNum {
        return;
      }
      var unread := UnreadBytes();
      if unread + |buf| > maxWindow {
        return;
      }
      recv := WrappingAdd(recv, |buf|);
      recvQueue := recvQueue + [buf];
      if ackDeadline.None? {
        ackDeadline := Some(now + Spec.ACK_DELAY);
      }
    }
  }

  /** The segments an outcome transmits. */
  ghost function OutOf(out: Option<Segment>): seq<Segment> { if out.Some? then [out.value] else [] }

  class ControlBlock {
    const sender: Sender
    const receiver: Receiver
    var loop: Spec.Loop
    var clock: real
    var wire: seq<Segment>

    ghost function View(): Spec.ControlBlock
      reads this, sender, sender.rto, receiver
    {
      Spec.ControlBlock(sender.View(), receiver.View(), loop, clock)
    }

    /** The method did what the specification's outcome `spec` says. */
    twostate predicate Does(ok: bool, new popped: Option<Bytes>, spec: Outcome<Spec.Effect>)
      reads this, sender, sender.rto, receiver
    {
      && (ok <==> spec.Done?)
      && (ok ==> View() == spec.value.cb && popped == spec.value.popped
                 && wire == old(wire) + OutOf(spec.value.out))
    }

    constructor (sender: Sender, receiver: Receiver, clock: real)
      ensures this.sender == sender && this.receiver == receiver
      ensures View() == Spec.ControlBlock(sender.View(), receiver.View(), Spec.Top, clock) && wire == []
    {
      this.sender, this.receiver, this.clock := sender, receiver, clock;
      loop, wire := Spec.Top, [];
    }

    method TcpHeader() returns (ok: bool, header: Header)
      ensures ok <==> Spec.TcpHeader(View()).Done?
      ensures ok ==> header == Spec.TcpHeader(View()).value
    {
      header := Spec.Header(0, 0, false, 0);
      var outstanding := WrappingSub(receiver.recv, receiver.base);
      if outstanding > receiver.maxWindow {
        return false, header;
      }
      header := header.(windowSize := (receiver.maxWindow - outstanding) % 0x1_0000);
      if receiver.ack < receiver.recv {
        header := header.(ackNum := receiver.recv, ack := true);
      }
      ok := true;
    }

    method Emit(header: Header, data: Bytes) returns (ok: bool)
      modifies this`wire, receiver
      ensures Does(ok, None, Spec.Emit(old(View()), header, data))
    {
      if header.ack {
        ok := receiver.AckSent(header.ackNum);
        if !ok {
          return;
        }
      }
      wire := wire + [Spec.Segment(header, data)];
      ok := true;
    }

    method Transmit(seqNum: U32, data: Bytes) returns (ok: bool)
      modifies this`wire, receiver
      ensures Does(ok, None, Spec.Transmit(old(View()), seqNum, data))
    {
      var header;
      ok, header := TcpHeader();
      if ok {
        ok := Emit(header.(seqNum := seqNum), data);
      }
    }

    /** `Sender::send` on this connection. */
    method Send(buf: Bytes, arpHit: bool) returns (ok: bool)
      modifies this`wire, sender, receiver
      ensures Does(ok, None, Spec.Send(old(View()), buf, arpHit))
    {
      if |buf| >= MOD {
        return true;
      }
      var sentData := WrappingSub(sender.sent, sender.base);
      if sender.windowSize > 0 {
        if sentData + |buf| >= MOD {
          return false;
        }
        if sender.windowSize >= sentData + |buf| && arpHit {
          ok := Transmit(sender.sent, buf);
          if ok {
            sender.unsent := WrappingAdd(sender.unsent, |buf|);
            sender.Assign(buf, clock);
            sender.ArmTimer(clock);
          }
          return;
        }
      }
      sender.unsentQueue := sender.unsentQueue + [buf];
      sender.unsent := WrappingAdd(sender.unsent, |buf|);
      ok := true;
    }

    /** One turn of the sender loop. */
    method SenderTurn() returns (ok: bool)
      modifies this, sender, receiver
      ensures Does(ok, None, Spec.SenderWake(old(View())))
    {
      if loop.Probing? {
        if loop.windowChanged {
          loop := Spec.Top;
        }
        return true;
      }
      var sentSeq := sender.sent;
      if sentSeq == sender.unsent {
        return true;
      }
      var buf;
      if sender.windowSize == 0 {
        ok, buf := sender.PopOneUnsentByte();
        if ok {
          sender.Assign(buf, clock);
          loop := Spec.Probing(sentSeq, buf, false);
          ok := Transmit(sentSeq, buf);
        }
        return;
      }
      var sentData := WrappingSub(sentSeq, sender.base);
      if sender.windowSize <= sentData {
        return true;
      }
      ok, buf := sender.PopUnsent(Spec.Min(sender.windowSize - sentData, sender.mss));
      if !ok || buf == [] {
        return false;
      }
      ok := Transmit(sentSeq, buf);
      if ok {
        sender.Assign(buf, clock);
        sender.ArmTimer(clock);
      }
    }

    method ProbeTimer() returns (ok: bool)
      modifies this`wire, receiver
      ensures Does(ok, None, Spec.ProbeAgain(old(View())))
    {
      if loop.Top? || loop.windowChanged {
        return true;
      }
      ok := Transmit(loop.seqNum, loop.probe);
    }

    method RetransmitTimer() returns (ok: bool)
      modifies this`wire, sender, sender.rto, receiver
      ensures Does(ok, None, Spec.Retransmit(old(View())))
    {
      if sender.retransmitDeadline.None? || sender.retransmitDeadline.value > clock {
        return true;
      }
      if sender.unacked == [] {
        return false;
      }
      var front := sender.unacked[0];
      sender.rto.Fail();
      sender.unacked := [front.(initialTx := None)] + sender.unacked[1..];
      ok := Transmit(sender.base, front.bytes);
      sender.retransmitDeadline := Some(clock + sender.rto.rto);
    }

    method AckTimer() returns (ok: bool)
      modifies this`wire, receiver
      ensures Does(ok, None, Spec.Acknowledge(old(View())))
    {
      if receiver.ackDeadline.None? || receiver.ackDeadline.value > clock {
        return true;
      }
      if receiver.ack >= receiver.recv {
        return false;
      }
      var header;
      ok, header := TcpHeader();
      if ok {
        ok := Emit(header.(ack := true, ackNum := receiver.recv), []);
      }
    }

    /** `ControlBlock::receive`, for segments without SYN, RST or FIN. */
    method Receive(seg: Segment)
      modifies this`loop, sender, sender.rto, receiver
      ensures View() == Spec.ReceiveSegment(old(View()), seg) && wire == old(wire)
    {
      if seg.header.ack {
        sender.RemoteAck(seg.header.ackNum, clock);
      }
      sender.UpdateRemoteWindow(seg.header.windowSize);
      if loop.Probing? && sender.windowScale < 32 {
        loop := loop.(windowChanged := true);
      }
      if seg.data != [] {
        receiver.ReceiveData(seg.header.seqNum, seg.data, clock);
      }
    }

    method Recv() returns (ok: bool, popped: Option<Bytes>)
      modifies receiver
      ensures Does(ok, popped, Spec.Recv(old(View())))
    {
      if receiver.base == receiver.recv {
        return true, None;
      }
      if receiver.recvQueue == [] {
        return false, None;
      }
      var buf := receiver.recvQueue[0];
      receiver.recvQueue := receiver.recvQueue[1..];
      receiver.base := WrappingAdd(receiver.base, |buf|);
      return true, Some(buf);
    }
  }
}
