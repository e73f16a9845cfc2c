/** Two established endpoints and a network that loses, duplicates and reorders segments.
    A node's `out` is every packet it ever transmitted; a receive step may take any packet of
    the other node's `out`, at any time and any number of times, or never. */
module TcpNetwork {
  import opened Base
  import opened SeqNumbers
  import opened TcpState

  /** A segment with a stamp the code never reads: the index, in the sender's segment list,
      of the segment it carries, and the number of the peer's segments it acknowledges. */
  datatype Packet = Packet(seg: Segment, ix: nat, ackIx: nat)

  /** One endpoint and its history: the non-empty segments it assigned to sequence numbers, in
      that order; the buffers it pushed; the buffers it popped; how many received segments its
      last acknowledgement covered; everything it transmitted; and which segments were assigned
      while the remote window was closed, as window probes. */
  datatype Node = Node(
    isn: U32, peerIsn: U32, cb: ControlBlock,
    sent: seq<Bytes>, pushed: seq<Bytes>, pops: seq<Bytes>, ackedIx: nat, out: set<Packet>, probes: set<nat>)

  datatype Action =
    | Tick(elapsed: real)
    | Push(buf: Bytes, arpHit: bool)
    | SenderTurn
    | ProbeTimer
    | RetransmitTimer
    | AckTimer
    | Receive(packet: Packet)
    | Pop

  function EventOf(a: Action): Event {
    match a
    case Tick(elapsed) => Event.Tick(elapsed)
    case Push(buf, arpHit) => Event.Push(buf, arpHit)
    case SenderTurn => Event.SenderTurn
    case ProbeTimer => Event.ProbeTimer
    case RetransmitTimer => Event.RetransmitTimer
    case AckTimer => Event.AckTimer
    case Receive(packet) => Event.Receive(packet.seg)
    case Pop => Event.Pop
  }

  /** The non-empty payloads of a queue of unacknowledged segments. */
  function Live(q: seq<Unacked>): (r: seq<Bytes>)
    ensures AllNonEmpty(r) && |r| <= |q|
  {
    if q == [] then []
    else (if q[0].bytes == [] then [] else [q[0].bytes]) + Live(q[1..])
  }

  function IfAny(buf: Bytes): seq<Bytes> { if buf == [] then [] else [buf] }

  /** Index of the first segment not yet acknowledged. */
  function BaseIx(x: Node): int { |x.sent| - |Live(x.cb.snd.unacked)| }

  /** Segments accepted from the peer, in order: those popped and those still queued. */
  function Got(x: Node): seq<Bytes> { x.pops + x.cb.rcv.recvQueue }

  /** The stamp of a packet transmitted by action `a`: a turn of the sender or a push sends a
      new segment, the probe timer repeats the newest one, the retransmission timer the oldest
      unacknowledged one. */
  function StampIx(x: Node, a: Action): nat {
    var i := match a
      case ProbeTimer => |x.sent| - 1
      case RetransmitTimer => BaseIx(x)
      case _ => |x.sent|;
    if i < 0 then 0 else i
  }

  predicate AssignsNew(a: Action) { a.Push? || a.SenderTurn? }

  function NodeStep(x: Node, a: Action): Outcome<Node> {
    var e :- Step(x.cb, EventOf(a));
    var x1 := x.(cb := e.cb,
      pushed := if a.Push? && |a.buf| < MOD then x.pushed + [a.buf] else x.pushed,
      pops := if e.popped.Some? then x.pops + [e.popped.value] else x.pops);
    if e.out.None? then Done(x1)
    else
      var seg := e.out.value;
      Done(x1.(
           sent := if AssignsNew(a) then x.sent + IfAny(seg.data) else x.sent,
           ackedIx := if seg.header.ack then |Got(x)| else x.ackedIx,
           out := x.out + {Packet(seg, StampIx(x, a), |Got(x)|)},
           probes := if a.SenderTurn? && x.cb.snd.windowSize == 0 then x.probes + {|x.sent|} else x.probes))
  }

  // ----- Invariant -----

  predicate DataStamped(x: Node, p: Packet) {
    p.seg.data != [] ==>
      && p.ix < |x.sent|
      && p.seg.data == x.sent[p.ix]
      && p.seg.header.seqNum == Wrap(x.isn + Offset(x.sent, p.ix))
  }

  predicate AckStamped(x: Node, p: Packet) {
    p.seg.header.ack ==>
      && p.ackIx <= x.ackedIx
      && x.ackedIx <= |Got(x)|
      && p.seg.header.ackNum == Wrap(x.peerIsn + Offset(Got(x), p.ackIx))
  }

  /** The queue of unacknowledged segments is a suffix of what was assigned, and spans less
      than 2^32 bytes. */
  predicate QueueOk(x: Node) {
    && AllNonEmpty(x.sent)
    && 0 <= BaseIx(x)
    && Live(x.cb.snd.unacked) == x.sent[BaseIx(x)..]
    && Total(x.sent) - Offset(x.sent, BaseIx(x)) < MOD
  }

  /** The three sequence numbers are the byte counts of the history and the unsent queue. */
  predicate NumbersOk(x: Node)
    requires 0 <= BaseIx(x)
  {
    var s := x.cb.snd;
    && s.base == Wrap(x.isn + Offset(x.sent, BaseIx(x)))
    && s.sent == Wrap(x.isn + Total(x.sent))
    && s.unsent == Wrap(x.isn + Total(x.sent) + Total(s.unsentQueue))
  }

  predicate SenderOk(x: Node) { QueueOk(x) && NumbersOk(x) }

  /** An armed retransmission timer has something to retransmit. */
  predicate TimerOk(x: Node) {
    x.cb.snd.retransmitDeadline.Some? ==> x.cb.snd.unacked != []
  }

  /** A probe that may still be repeated is the newest segment. */
  predicate ProbeOk(x: Node) {
    x.cb.loop.Probing? && !x.cb.loop.windowChanged ==>
      && x.cb.snd.windowSize == 0
      && |x.sent| > 0
      && x.cb.loop.probe == x.sent[|x.sent| - 1]
      && x.cb.loop.seqNum == Wrap(x.isn + Offset(x.sent, |x.sent| - 1))
  }

  /** Receiver accounting: the sequence numbers are byte counts of what was popped and queued,
      the queue fits the window, and the acknowledgement timer is armed exactly when something
      received is not yet acknowledged. */
  predicate ReceiverOk(x: Node) {
    var r := x.cb.rcv;
    && AllNonEmpty(Got(x))
    && r.base == Wrap(x.peerIsn + Total(x.pops))
    && r.recv == Wrap(x.peerIsn + Total(Got(x)))
    && Total(r.recvQueue) <= r.maxWindow
    && x.ackedIx <= |Got(x)|
    && r.ack == Wrap(x.peerIsn + Offset(Got(x), x.ackedIx))
    && (r.ackDeadline.Some? <==> x.ackedIx < |Got(x)|)
  }

  predicate PacketsOk(x: Node) {
    && (forall p | p in x.out :: DataStamped(x, p))
    && (forall p | p in x.out :: AckStamped(x, p))
  }

  predicate NodeOk(x: Node) {
    SenderOk(x) && TimerOk(x) && ProbeOk(x) && ReceiverOk(x) && PacketsOk(x)
  }

  /** The stream from `x` to `y`: what `y` accepted is a prefix, segment by segment, of what
      `x` assigned, and `x` has dropped only segments that `y` acknowledged. */
  predicate Link(x: Node, y: Node) {
    && y.peerIsn == x.isn
    && Got(y) <= x.sent
    && BaseIx(x) <= y.ackedIx
  }

  predicate Inv(x: Node, y: Node) {
    NodeOk(x) && NodeOk(y) && Link(x, y) && Link(y, x)
  }

  // ----- Hypotheses on a run -----

  /** A delivered packet is not a full 2^32 bytes stale: neither its data with respect to what
      the receiver already has, nor its acknowledgement with respect to what was sent. */
  predicate FreshPacket(x: Node, y: Node, p: Packet) {
    && (p.seg.data != [] && p.ix < |y.sent| ==> Total(Got(x)) - Offset(y.sent, p.ix) < MOD)
    && (p.seg.header.ack && p.ackIx <= |x.sent| ==> Total(x.sent) - Offset(x.sent, p.ackIx) < MOD)
  }

  /** `x` may take action `a` when the other end is `y`: packets come from the network and are
      fresh, and a window probe is not the byte that makes 2^32 of them outstanding. */
  predicate Enabled(x: Node, y: Node, a: Action) {
    && (a.Receive? ==> a.packet in y.out && FreshPacket(x, y, a.packet))
    && (a.SenderTurn? && x.cb.snd.windowSize == 0 ==>
          WrappingSub(x.cb.snd.sent, x.cb.snd.base) < MOD - 1)
  }
}
