/** What one step of an established TCP connection computes, as functions on values: the
    control block (sender, receiver, state of the sender loop, clock), the header it builds
    and every operation that changes it. Aborts are explicit. */
module TcpState {
  import opened Base
  import opened SeqNumbers
  import Rto

  datatype Unacked = Unacked(bytes: Bytes, initialTx: Option<real>)

  datatype Sender = Sender(
    base: U32, unacked: seq<Unacked>, sent: U32, unsentQueue: seq<Bytes>, unsent: U32,
    windowSize: U32, windowScale: nat, mss: nat,
    retransmitDeadline: Option<real>, rto: Rto.Estimator)

  datatype Receiver = Receiver(
    base: U32, recvQueue: seq<Bytes>, ack: U32, recv: U32,
    ackDeadline: Option<real>, maxWindow: U32)

  datatype Header = Header(seqNum: U32, ackNum: U32, ack: bool, windowSize: nat)

  datatype Segment = Segment(header: Header, data: Bytes)

  /** Where the sender loop stands: at its top, or inside the loop that repeats a window
      probe until the remote window is written again. */
  datatype Loop = Top | Probing(seqNum: U32, probe: Bytes, windowChanged: bool)

  datatype ControlBlock = ControlBlock(snd: Sender, rcv: Receiver, loop: Loop, clock: real)

  /** The new control block, with the segment transmitted and the buffer handed to the
      application, if any. */
  datatype Effect = Effect(cb: ControlBlock, out: Option<Segment>, popped: Option<Bytes>)

  const ACK_DELAY: real := 0.5

  function NewSender(seqNo: U32, windowSize: U32, windowScale: nat, mss: nat): Sender {
    Sender(seqNo, [], seqNo, [], seqNo, windowSize, windowScale, mss, None, Rto.Fresh)
  }

  function NewReceiver(seqNo: U32, maxWindow: U32): Receiver {
    Receiver(seqNo, [], seqNo, seqNo, None, maxWindow)
  }

  // ----- Header and transmission -----

  /** The acknowledgement to piggyback: a plain comparison of wrapping numbers. */
  function CurrentAck(r: Receiver): Option<U32> {
    if r.ack < r.recv then Some(r.recv) else None
  }

  function WindowSize(r: Receiver): Outcome<U32> {
    var outstanding := WrappingSub(r.recv, r.base);
    if outstanding > r.maxWindow then Panic else Done(r.maxWindow - outstanding)
  }

  function TcpHeader(cb: ControlBlock): Outcome<Header> {
    var window :- WindowSize(cb.rcv);
    match CurrentAck(cb.rcv)
    case Some(a) => Done(Header(0, a, true, window % 0x1_0000))
    case None => Done(Header(0, 0, false, window % 0x1_0000))
  }

  function AckSent(r: Receiver, ackNum: U32): Outcome<Receiver> {
    if ackNum != r.recv then Panic else Done(r.(ackDeadline := None, ack := ackNum))
  }

  function Emit(cb: ControlBlock, header: Header, data: Bytes): Outcome<Effect> {
    var rcv :- if header.ack then AckSent(cb.rcv, header.ackNum) else Done(cb.rcv);
    Done(Effect(cb.(rcv := rcv), Some(Segment(header, data)), None))
  }

  /** Build a header from the current state, give it a sequence number and send `data`. */
  function Transmit(cb: ControlBlock, seqNum: U32, data: Bytes): Outcome<Effect> {
    var header :- TcpHeader(cb);
    Emit(cb, header.(seqNum := seqNum), data)
  }

  // ----- Sender -----

  /** Assign the next sequence numbers to `buf` and remember it until it is acknowledged. */
  function Assign(s: Sender, buf: Bytes, now: real): Sender {
    s.(sent := WrappingAdd(s.sent, |buf|), unacked := s.unacked + [Unacked(buf, Some(now))])
  }

  function ArmTimer(s: Sender, now: real): Sender {
    if s.retransmitDeadline.None? then s.(retransmitDeadline := Some(now + s.rto.rto)) else s
  }

  function Enqueue(s: Sender, buf: Bytes): Sender {
    s.(unsentQueue := s.unsentQueue + [buf], unsent := WrappingAdd(s.unsent, |buf|))
  }

  /** Does `send` transmit at once? The sum is a checked addition. */
  function FastPath(s: Sender, len: nat): Outcome<bool> {
    if s.windowSize == 0 then Done(false)
    else
      var total := WrappingSub(s.sent, s.base) + len;
      if total >= MOD then Panic else Done(s.windowSize >= total)
  }

  /** `Sender::send`, with `arpHit` telling whether the link address is cached. A buffer of
      2^32 bytes or more is refused. */
  function Send(cb: ControlBlock, buf: Bytes, arpHit: bool): Outcome<Effect> {
    if |buf| >= MOD then Done(Effect(cb, None, None))
    else
      var fast :- FastPath(cb.snd, |buf|);
      if fast && arpHit then
        var e :- Transmit(cb, cb.snd.sent, buf);
        var s := e.cb.snd.(unsent := WrappingAdd(e.cb.snd.unsent, |buf|));
        Done(e.(cb := e.cb.(snd := ArmTimer(Assign(s, buf, cb.clock), cb.clock))))
      else
        Done(Effect(cb.(snd := Enqueue(cb.snd, buf)), None, None))
  }

  /** What popping acknowledged segments leaves: the queue, the estimator after the samples,
      and whether the acknowledgement fell on a segment boundary. */
  datatype Popped = Popped(rest: seq<Unacked>, rto: Rto.Estimator, onBoundary: bool)

  function PopAcked(q: seq<Unacked>, n: nat, now: real, rto: Rto.Estimator): (r: Popped)
    ensures |r.rest| <= |q| && r.rest == q[|q| - |r.rest|..]
  {
    if q == [] then Popped(q, rto, true)
    else if |q[0].bytes| > n then Popped(q[1..], rto, false)
    else
      var rto1 := if q[0].initialTx.Some? then Rto.AddSample(rto, now - q[0].initialTx.value) else rto;
      if n == |q[0].bytes| then Popped(q[1..], rto1, true)
      else PopAcked(q[1..], n - |q[0].bytes|, now, rto1)
  }

  /** One round of the loop. */
  lemma PopStep(q: seq<Unacked>, n: nat, now: real, rto: Rto.Estimator)
    ensures q == [] ==> PopAcked(q, n, now, rto) == Popped(q, rto, true)
    ensures q != [] ==>
      var sampled := if q[0].initialTx.Some? then Rto.AddSample(rto, now - q[0].initialTx.value) else rto;
      PopAcked(q, n, now, rto) ==
        if |q[0].bytes| > n then Popped(q[1..], rto, false)
        else if |q[0].bytes| == n then Popped(q[1..], sampled, true)
        else PopAcked(q[1..], n - |q[0].bytes|, now, sampled)
  {
    hide Rto.AddSample;
  }

  function RemoteAck(s: Sender, ackNum: U32, now: real): Sender {
    var outstanding := WrappingSub(s.sent, s.base);
    var acked := WrappingSub(ackNum, s.base);
    if acked > outstanding || acked == 0 then s
    else
      var p := PopAcked(s.unacked, acked, now, s.rto);
      s.(retransmitDeadline := if ackNum == s.sent then None else Some(now + s.rto.rto),
      unacked := p.rest, rto := p.rto,
      base := if p.onBoundary then WrappingAdd(s.base, acked) else s.base)
  }

  function UpdateRemoteWindow(s: Sender, windowHdr: nat): Sender {
    if s.windowScale >= 32 then s
    else s.(windowSize := Wrap(windowHdr * Power2(s.windowScale)))
  }

  /** Split the front buffer after one byte; the remainder goes back even when it is empty. */
  function PopOneUnsentByte(s: Sender): Outcome<(Sender, Bytes)> {
    if s.unsentQueue == [] || s.unsentQueue[0] == [] then Panic
    else
      var buf := s.unsentQueue[0];
      Done((s.(unsentQueue := [buf[1..]] + s.unsentQueue[1..]), buf[..1]))
  }

  function PopUnsent(s: Sender, maxBytes: nat): Outcome<(Sender, Bytes)> {
    if s.unsentQueue == [] then Panic
    else
      var buf := s.unsentQueue[0];
      if |buf| > maxBytes then
        Done((s.(unsentQueue := [buf[maxBytes..]] + s.unsentQueue[1..]), buf[..maxBytes]))
      else
        Done((s.(unsentQueue := s.unsentQueue[1..]), buf))
  }

  function Min(a: nat, b: nat): nat { if a < b then a else b }

  /** One turn of the sender loop from its top. */
  function SenderTop(cb: ControlBlock): Outcome<Effect> {
    var s := cb.snd;
    if s.sent == s.unsent then Done(Effect(cb, None, None))
    else if s.windowSize == 0 then
      var (s1, buf) :- PopOneUnsentByte(s);
      Transmit(cb.(snd := Assign(s1, buf, cb.clock), loop := Probing(s.sent, buf, false)), s.sent, buf)
    else
      var inFlight := WrappingSub(s.sent, s.base);
      if s.windowSize <= inFlight then Done(Effect(cb, None, None))
      else
        var (s1, buf) :- PopUnsent(s, Min(s.windowSize - inFlight, s.mss));
        if buf == [] then Panic
        else
          Transmit(cb.(snd := ArmTimer(Assign(s1, buf, cb.clock), cb.clock)), s.sent, buf)
  }

  /** The sender loop wakes: a probing loop returns to the top once the window was written. */
  function SenderWake(cb: ControlBlock): Outcome<Effect> {
    match cb.loop
    case Top => SenderTop(cb)
    case Probing(_, _, changed) => Done(Effect(if changed then cb.(loop := Top) else cb, None, None))
  }

  /** The probe timer fires while the window has not been written since. */
  function ProbeAgain(cb: ControlBlock): Outcome<Effect> {
    match cb.loop
    case Top => Done(Effect(cb, None, None))
    case Probing(seqNum, probe, changed) =>
      if changed then Done(Effect(cb, None, None)) else Transmit(cb, seqNum, probe)
  }

  predicate Due(deadline: Option<real>, now: real) { deadline.Some? && deadline.value <= now }

  function Retransmit(cb: ControlBlock): Outcome<Effect> {
    if !Due(cb.snd.retransmitDeadline, cb.clock) then Done(Effect(cb, None, None))
    else if cb.snd.unacked == [] then Panic
    else
      var s := cb.snd;
      var front := s.unacked[0];
      var rto := Rto.RecordFailure(s.rto);
      var s1 := s.(unacked := [front.(initialTx := None)] + s.unacked[1..], rto := rto,
      retransmitDeadline := Some(cb.clock + rto.rto));
      Transmit(cb.(snd := s1), s.base, front.bytes)
  }

  // ----- Receiver -----

  function ReceiveData(r: Receiver, seqNum: U32, buf: Bytes, now: real): Receiver {
    if r.recv != seqNum then r
    else if Total(r.recvQueue) + |buf| > r.maxWindow then r
    else r.(recv := WrappingAdd(r.recv, |buf|), recvQueue := r.recvQueue + [buf],
         ackDeadline := if r.ackDeadline.None? then Some(now + ACK_DELAY) else r.ackDeadline)
  }

  function Recv(cb: ControlBlock): Outcome<Effect> {
    var r := cb.rcv;
    if r.base == r.recv then Done(Effect(cb, None, None))
    else if r.recvQueue == [] then Panic
    else
      var buf := r.recvQueue[0];
      Done(Effect(cb.(rcv := r.(recvQueue := r.recvQueue[1..], base := WrappingAdd(r.base, |buf|))),
                  None, Some(buf)))
  }

  function Acknowledge(cb: ControlBlock): Outcome<Effect> {
    if !Due(cb.rcv.ackDeadline, cb.clock) then Done(Effect(cb, None, None))
    else if !(cb.rcv.ack < cb.rcv.recv) then Panic
    else
      var header :- TcpHeader(cb);
      Emit(cb, header.(ack := true, ackNum := cb.rcv.recv), [])
  }

  // ----- Both halves -----

  function ReceiveSegment(cb: ControlBlock, seg: Segment): ControlBlock {
    var h := seg.header;
    var s1 := if h.ack then RemoteAck(cb.snd, h.ackNum, cb.clock) else cb.snd;
    var s2 := UpdateRemoteWindow(s1, h.windowSize);
    var loop := if cb.loop.Probing? && s1.windowScale < 32 then cb.loop.(windowChanged := true) else cb.loop;
    var r := if seg.data == [] then cb.rcv else ReceiveData(cb.rcv, h.seqNum, seg.data, cb.clock);
    cb.(snd := s2, rcv := r, loop := loop)
  }

  /** Everything that can happen to one end of a connection. */
  datatype Event =
    | Tick(elapsed: real)
    | Push(buf: Bytes, arpHit: bool)
    | SenderTurn
    | ProbeTimer
    | RetransmitTimer
    | AckTimer
    | Receive(seg: Segment)
    | Pop

  function Step(cb: ControlBlock, e: Event): Outcome<Effect> {
    match e
    case Tick(elapsed) =>
      Done(Effect(cb.(clock := if elapsed > 0.0 then cb.clock + elapsed else cb.clock), None, None))
    case Push(buf, arpHit) => Send(cb, buf, arpHit)
    case SenderTurn => SenderWake(cb)
    case ProbeTimer => ProbeAgain(cb)
    case RetransmitTimer => Retransmit(cb)
    case AckTimer => Acknowledge(cb)
    case Receive(seg) => Done(Effect(ReceiveSegment(cb, seg), None, None))
    case Pop => Recv(cb)
  }
}
