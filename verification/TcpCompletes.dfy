/** The handshake runs to its end: what both ends then hold, and the terms that hosts running
    this code always arrive at. */
module TcpCompletes {
  import opened Base
  import opened SeqNumbers
  import opened TcpOpen
  import opened TcpPeer
  import opened TcpTables
  import opened TcpCalls
  import opened TcpTerms
  import H = TcpHandshake
  import TcpState
  import TcpNetwork
  import TcpTheorems

  // ----- One handshake -----

  lemma ClientSends(p: Peer, key: Key, mss: nat) returns (p': Peer, syn: Packet)
    requires key in p.connecting && p.connecting[key].left.Some? && p.connecting[key].left.value > 0
    ensures Step(p, DoConnectTimer(key, true, mss)) == Done((p', Some(syn)))
    ensures syn == Packet(key.local, key.remote,
                          Header(true, false, false, p.connecting[key].isn, 0, 1024, [MaximumSegmentSize(mss)]))
    ensures key in p'.connecting && p' == p.(connecting := p.connecting[key := p'.connecting[key]])
    ensures p'.connecting[key].isn == p.connecting[key].isn && p'.connecting[key].result == p.connecting[key].result
  {
    p' := ConnectTimer(p, key, true, mss).0;
    syn := ConnectTimer(p, key, true, mss).1.value;
  }

  /** The terms of a SYN that this code sends, and of a SYN+ACK. */
  lemma OwnTerms(h: Header, window: nat, scale: nat, mss: nat)
    requires h.windowSize == 1024 && Terms(h, window, scale, mss)
    ensures h.options == [] ==> (window, scale, mss) == (2048, 1, 536)
    ensures |h.options| == 1 && h.options[0].MaximumSegmentSize? ==> (window, scale, mss) == (2048, 1, h.options[0].size)
  {
    assert |h.options| == 1 ==> h.options == [h.options[0]];
    assert Power2(1) == 2;
  }

  lemma NoShift(h: Header)
    requires h.options == [] || exists size :: h.options == [MaximumSegmentSize(size)]
    ensures Negotiated(h.options).0 == 1
  {
    if size :| h.options == [MaximumSegmentSize(size)] { H.SynOptions(size); }
  }

  lemma ServerStarts(q: Peer, key: Key, syn: Packet, isn: U32, mss: nat) returns (q': Peer)
    requires PeerOk(q) && key.local in q.passive && key !in q.established && !BadSource(key.remote.addr)
    requires Starts(q.passive[key.local], key.remote, syn.header) && syn.from == key.remote && syn.to == key.local
    requires syn.header.windowSize == 1024 && syn.header.options == [MaximumSegmentSize(mss)]
    ensures Step(q, DoReceive(syn, isn, true)) == Done((q', None))
    ensures key.local in q'.passive && q' == q.(passive := q.passive[key.local := q'.passive[key.local]])
    ensures q'.passive[key.local].ready == q.passive[key.local].ready
    ensures key.remote in q'.passive[key.local].inflight
    ensures q'.passive[key.local].inflight[key.remote] == Inflight(isn, syn.header.seqNum, 2048, 1, mss, Some(3))
  {
    PeerListener(q, key.local);
    assert key !in q.connecting by { if key in q.connecting { PeerAttempt(q, key); } }
    NoShift(syn.header);
    TablesStayConsistent(q, DoReceive(syn, isn, true));
    hide PeerOk, PassiveReceive, Negotiated;
    var r := Step(q, DoReceive(syn, isn, true)).value;
    q' := r.0;
    DispatchExact(q, syn, isn, true, q', r.1);
    hide Receive, Step, Terms;
    PassiveReceiveExact(q.passive[key.local], key.remote, syn.header, isn, q'.passive[key.local]);
    var f := q'.passive[key.local].inflight[key.remote];
    OwnTerms(syn.header, f.windowSize, f.windowScale, f.mss);
  }

  lemma ServerAnswers(q: Peer, key: Key) returns (q': Peer, answer: Packet)
    requires key.local in q.passive && key.remote in q.passive[key.local].inflight
    requires q.passive[key.local].inflight[key.remote].left == Some(3)
    ensures Step(q, DoAcceptTimer(key, true)) == Done((q', Some(answer)))
    ensures var f := q.passive[key.local].inflight[key.remote];
      && answer == Packet(key.local, key.remote,
                          Header(true, true, false, f.localIsn, WrappingAdd(f.remoteIsn, 1), 1024, []))
      && key.local in q'.passive && q' == q.(passive := q.passive[key.local := q'.passive[key.local]])
      && q'.passive[key.local] ==
         q.passive[key.local].(inflight := q.passive[key.local].inflight[key.remote := f.(left := Some(2))])
  {
    hide WrappingAdd;
    q' := AcceptTimer(q, key, true).0;
    answer := AcceptTimer(q, key, true).1.value;
  }

  lemma ClientCompletes(p: Peer, key: Key, answer: Packet, any: U32) returns (p': Peer, ack: Packet, b: Block)
    requires PeerOk(p) && key in p.connecting && !BadSource(key.remote.addr)
    requires answer.from == key.remote && answer.to == key.local && Completes(p.connecting[key], answer.header)
    requires answer.header.windowSize == 1024 && answer.header.options == []
    ensures Step(p, DoReceive(answer, any, true)) == Done((p', Some(ack)))
    ensures b == Block(key.local, key.remote, WrappingAdd(p.connecting[key].isn, 1),
                       WrappingAdd(answer.header.seqNum, 1), 2048, 1, 536)
    ensures key in p'.connecting && p' == p.(connecting := p.connecting[key := p'.connecting[key]])
    ensures p'.connecting[key].result == Some(Connected(b))
    ensures ack.from == key.local && ack.to == key.remote && ack.header.ack && ack.header.ackNum == b.rcvBase
  {
    PeerAttempt(p, key);
    NoShift(answer.header);
    TablesStayConsistent(p, DoReceive(answer, any, true));
    hide PeerOk, ActiveReceive, Negotiated, WrappingAdd;
    var r := Step(p, DoReceive(answer, any, true)).value;
    p' := r.0;
    DispatchExact(p, answer, any, true, p', r.1);
    hide Receive, Step, Terms;
    var (a, out) := ActiveReceive(p.connecting[key], answer.header, true).value;
    ActiveReceiveExact(p.connecting[key], answer.header, true, a, out);
    b := a.result.value.block;
    ack := r.1.value;
    OwnTerms(answer.header, b.windowSize, b.windowScale, b.mss);
  }

  lemma ServerCompletes(q: Peer, key: Key, ack: Packet, any: U32) returns (q': Peer, c: Block)
    requires PeerOk(q) && key.local in q.passive && key !in q.established && !BadSource(key.remote.addr)
    requires Completed(q.passive[key.local], key.remote, ack.header) && ack.from == key.remote && ack.to == key.local
    ensures Step(q, DoReceive(ack, any, true)) == Done((q', None))
    ensures key.local in q'.passive && q'.passive[key.local].ready == q.passive[key.local].ready + [Accepted(c)]
    ensures c.local == key.local && c.remote == key.remote && Records(q.passive[key.local].inflight[key.remote], c)
  {
    PeerListener(q, key.local);
    assert key !in q.connecting by { if key in q.connecting { PeerAttempt(q, key); } }
    TablesStayConsistent(q, DoReceive(ack, any, true));
    hide PeerOk, PassiveReceive, Negotiated, WrappingAdd;
    var r := Step(q, DoReceive(ack, any, true)).value;
    q' := r.0;
    DispatchExact(q, ack, any, true, q', r.1);
    hide Receive, Step, Terms, BacklogOk;
    PassiveReceiveExact(q.passive[key.local], key.remote, ack.header, any, q'.passive[key.local]);
    c := q'.passive[key.local].ready[|q.passive[key.local].ready|].block;
  }

  lemma ClientFinishes(p: Peer, fd: nat, b: Block) returns (p': Peer)
    requires PeerOk(p) && fd in p.sockets && p.sockets[fd].Connecting? && p.sockets[fd].key in p.connecting
    requires p.connecting[p.sockets[fd].key].result == Some(Connected(b))
    ensures Step(p, DoFinish(fd)) == Done((p', None))
    ensures fd in p'.sockets && p'.sockets[fd] == Established(p.sockets[fd].key)
    ensures p'.established == p.established[p.sockets[fd].key := b]
  {
    TablesStayConsistent(p, DoFinish(fd));
    hide PeerOk;
    p' := FinishConnect(p, fd).value;
    FinishExact(p, fd, p');
  }

  /** Three messages open a connection. Given any two consistent hosts, one connecting with a SYN
      left to send and one with room in the backlog of the listener it names: if SYN, SYN+ACK
      and ACK arrive and link addresses are cached, then the client's socket is established,
      the server's connection is next behind those waiting to be accepted, and each end starts
      from the other's numbers. The client's SYN sets the server's segment size; the SYN+ACK
      carries no option, so the client always sends segments of 536 bytes. */
  lemma HandshakeCompletes(p: Peer, q: Peer, fd: nat, mss: nat, isn: U32, any: U32)
    returns (p1: Peer, p2: Peer, p3: Peer, q1: Peer, q2: Peer, q3: Peer,
             syn: Packet, answer: Packet, ack: Packet, b: Block, c: Block)
    requires PeerOk(p) && PeerOk(q) && fd in p.sockets && p.sockets[fd].Connecting?
    requires var key := p.sockets[fd].key;
      && key in p.connecting && p.connecting[key].left.Some? && p.connecting[key].left.value > 0
      && !BadSource(key.local.addr) && !BadSource(key.remote.addr)
      && key.remote in q.passive && Reverse(key) !in q.established && !Pending(q.passive[key.remote], key.local)
      && |q.passive[key.remote].inflight| + |q.passive[key.remote].ready| < q.passive[key.remote].maxBacklog
    ensures Step(p, DoConnectTimer(p.sockets[fd].key, true, mss)) == Done((p1, Some(syn)))
    ensures Step(q, DoReceive(syn, isn, true)) == Done((q1, None))
    ensures Step(q1, DoAcceptTimer(Reverse(p.sockets[fd].key), true)) == Done((q2, Some(answer)))
    ensures Step(p1, DoReceive(answer, any, true)) == Done((p2, Some(ack)))
    ensures Step(q2, DoReceive(ack, any, true)) == Done((q3, None))
    ensures Step(p2, DoFinish(fd)) == Done((p3, None))
    ensures var key := p.sockets[fd].key;
      && fd in p3.sockets && p3.sockets[fd] == Established(key) && p3.established == p.established[key := b]
      && key.remote in q3.passive && q3.passive[key.remote].ready == q.passive[key.remote].ready + [Accepted(c)]
      && b == Block(key.local, key.remote, c.rcvBase, c.sndBase, 2048, 1, 536)
      && c == Block(key.remote, key.local, b.rcvBase, b.sndBase, 2048, 1, mss)
  {
    hide PeerOk, Step, WrappingAdd, BadSource;
    var key := p.sockets[fd].key;
    var back := Reverse(key);
    p1, syn := ClientSends(p, key, mss);
    StepOk(p, DoConnectTimer(key, true, mss), p1, Some(syn));
    q1 := ServerStarts(q, back, syn, isn, mss);
    StepOk(q, DoReceive(syn, isn, true), q1, None);
    q2, answer := ServerAnswers(q1, back);
    StepOk(q1, DoAcceptTimer(back, true), q2, Some(answer));
    p2, ack, b := ClientCompletes(p1, key, answer, any);
    StepOk(p1, DoReceive(answer, any, true), p2, Some(ack));
    q3, c := ServerCompletes(q2, back, ack, any);
    p3 := ClientFinishes(p2, fd, b);
  }

  lemma StepOk(p: Peer, e: Event, p': Peer, out: Option<Packet>)
    requires PeerOk(p) && Step(p, e) == Done((p', out))
    requires e.DoConnectTimer? || e.DoReceive? || e.DoAcceptTimer?
    ensures PeerOk(p')
  {
    hide PeerOk, Step;
    TablesStayConsistent(p, e);
  }

  // ----- Hosts that all run this code -----

  /** Every SYN offers a window of 1024 and no window scale, every SYN+ACK no option at all; so
      every block has window 2048 and scale one, and every client's segments have 536 bytes. */
  predicate PlainSyn(h: Header) {
    h.syn ==> h.windowSize == 1024 && (h.options == [] || (!h.ack && |h.options| == 1 && h.options[0].MaximumSegmentSize?))
  }

  ghost predicate PlainHost(p: Peer) {
    && (forall k, b | ListenerHolds(p, k, b) :: b.windowSize == 2048 && b.windowScale == 1)
    && (forall k, b | ClientHolds(p, k, b) :: b.windowSize == 2048 && b.windowScale == 1 && b.mss == 536)
  }

  ghost predicate Plain(n: H.Net) {
    && (forall x | x in n.packets :: PlainSyn(x.header))
    && (forall h | h in n.hosts :: PlainHost(n.hosts[h]))
  }

  lemma SentIsPlain(p: Peer, e: Event, p': Peer, x: Packet)
    requires Step(p, e) == Done((p', Some(x)))
    ensures PlainSyn(x.header)
  {
    hide Negotiated, ScaledWindow, PassiveReceive, WrappingAdd;
  }

  lemma StepStaysPlain(p: Peer, e: Event, p': Peer, out: Option<Packet>)
    requires PeerOk(p) && Step(p, e) == Done((p', out)) && PlainHost(p)
    requires e.DoReceive? ==> PlainSyn(e.packet.header)
    ensures PlainHost(p')
  {
    hide PeerOk, Step, ListenerHolds, ClientHolds, Terms, WrappingAdd;
    forall k, b | ListenerHolds(p', k, b) ensures b.windowSize == 2048 && b.windowScale == 1 {
      ListenerStep(p, e, k, b, p', out);
      if StartedBy(p, e, k, b) { OwnTerms(e.packet.header, b.windowSize, b.windowScale, b.mss); }
    }
    forall k, b | ClientHolds(p', k, b) ensures b.windowSize == 2048 && b.windowScale == 1 && b.mss == 536 {
      ClientStep(p, e, k, b, p', out);
      if CompletedBy(p, e, k, b) { OwnTerms(e.packet.header, b.windowSize, b.windowScale, b.mss); }
    }
  }

  lemma MoveStaysPlain(n: H.Net, m: H.Move, n': H.Net)
    requires H.Inv(n) && H.Next(n, m, n') && Plain(n)
    ensures Plain(n')
  {
    hide PeerOk, Step, PlainHost, PlainSyn, H.Inv, H.HostOk, H.ActAfter, H.PasAfter, Possible;
    var p := n.hosts[m.host];
    match m {
      case Talk(_, key, header) => TalkIsPlain(header);
      case At(_, e) =>
        H.InvHost(n, m.host);
        H.HostPeerOk(n, m.host, p);
        var (p', out) := Step(p, e).value;
        StepStaysPlain(p, e, p', out);
        if out.Some? { SentIsPlain(p, e, p', out.value); }
    }
  }

  lemma TalkIsPlain(h: Header)
    requires !h.syn
    ensures PlainSyn(h)
  {
  }

  lemma StartIsPlain(n: H.Net)
    requires H.Start(n)
    ensures Plain(n)
  {
    hide ListenerHolds, ClientHolds;
    forall h, k, b | h in n.hosts ensures !ListenerHolds(n.hosts[h], k, b) && !ClientHolds(n.hosts[h], k, b) {
      NewHoldsNothing(h, k, b);
    }
  }

  /** In every run of hosts with this code, over a network that loses, repeats and reorders, the
      code's default terms are the only ones: a window scale of one is assumed though none is
      offered, which doubles the window of 1024. */
  lemma {:induction false} OwnHostsArePlain(states: seq<H.Net>, moves: seq<H.Move>, i: nat)
    requires H.Run(states, moves) && i < |states|
    ensures Plain(states[i])
  {
    hide H.Inv, H.Start, Plain, H.Next;
    if i == 0 {
      StartIsPlain(states[0]);
    } else {
      OwnHostsArePlain(states, moves, i - 1);
      H.RunInv(states, moves, i - 1);
      assert H.Next(states[i - 1], moves[i - 1], states[i]);
      MoveStaysPlain(states[i - 1], moves[i - 1], states[i]);
    }
  }

  // ----- From the handshake to the data -----

  /** The end of a connection that starts from control block `b`. */
  function Opened(b: Block, receiveWindow: U32, clock: real): TcpNetwork.Node
    requires b.windowSize < MOD
  {
    var sender := TcpState.NewSender(b.sndBase, b.windowSize, b.windowScale, b.mss);
    var receiver := TcpState.NewReceiver(b.rcvBase, receiveWindow);
    TcpNetwork.Node(b.sndBase, b.rcvBase, TcpState.ControlBlock(sender, receiver, TcpState.Top, clock),
                    [], [], [], 0, {}, {})
  }

  lemma HeldIsPlain(n: H.Net, k: Key, b: Block)
    requires Plain(n) && H.Holds(n, k, b)
    ensures b.windowSize == 2048 && b.windowScale == 1
  {
    var p := n.hosts[k.local.addr];
    assert PlainHost(p);
    assert ListenerHolds(p, k, b) || ClientHolds(p, k, b);
    hide ListenerHolds, ClientHolds;
  }

  /** A handshake leaves both ends where the data transfer starts: in every run, two ends that hold
      blocks for one endpoint pair, each with its own receive window and clock, are a start of
      the two-endpoint system, and each begins with the terms of its block. */
  lemma HandshakeStartsConnection(states: seq<H.Net>, moves: seq<H.Move>, i: nat, k: Key, b: Block, c: Block,
                                  v: U32, w: U32, s: real, t: real)
    requires H.Run(states, moves) && i < |states|
    requires H.Holds(states[i], k, b) && H.Holds(states[i], Reverse(k), c)
    ensures b.windowSize < MOD && c.windowSize < MOD
    ensures TcpTheorems.Start(TcpTheorems.System(Opened(b, v, s), Opened(c, w, t)))
    ensures Opened(b, v, s).cb.snd.windowSize == 2048 && Opened(b, v, s).cb.snd.windowScale == 1
    ensures Opened(b, v, s).cb.snd.mss == b.mss && Opened(b, v, s).cb.rcv.maxWindow == v
  {
    hide H.Run, H.Holds, Plain;
    H.HandshakeAgreement(states, moves, i, k, b, c);
    OwnHostsArePlain(states, moves, i);
    HeldIsPlain(states[i], k, b);
    HeldIsPlain(states[i], Reverse(k), c);
  }
}
