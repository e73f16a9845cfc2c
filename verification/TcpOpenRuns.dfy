/** A concrete run of two hosts that reaches the one abort the handshake theorems leave. */
module TcpOpenRuns {
  import opened Base
  import opened SeqNumbers
  import opened TcpOpen
  import opened TcpPeer
  import opened TcpHandshake

  const CLIENT: Endpoint := Endpoint(1, 49152)
  const SERVER: Endpoint := Endpoint(2, 80)
  const CLIENT_KEY: Key := Key(CLIENT, SERVER)
  const SERVER_KEY: Key := Key(SERVER, CLIENT)

  predicate Hosts(n: Net, client: Peer, server: Peer) {
    1 in n.hosts && 2 in n.hosts && n.hosts[1] == client && n.hosts[2] == server
  }

  /** Host `h`, now `p`, handles `e`. */
  lemma Moves(n: Net, h: U32, e: Event, p: Peer, p': Peer, out: Option<Packet>) returns (n': Net)
    requires h in n.hosts && n.hosts[h] == p && Possible(p, e) && Step(p, e) == Done((p', out))
    requires e.DoReceive? ==> e.packet in n.packets && e.packet.to.addr == h
    ensures Next(n, At(h, e), n')
    ensures n'.hosts == n.hosts[h := p'] && n'.packets == n.packets + Sent(out)
  {
    hide Step, Possible;
    n' := Net(n.hosts[h := p'], n.packets + Sent(out), ActAfter(n.act, p, e, p'), PasAfter(n.pas, p, e, p'));
  }

  /** The server opens a socket, binds it and listens. */
  lemma ServerListens() returns (p1: Peer, p2: Peer, p3: Peer)
    ensures Step(NewPeer(2), DoSocket(0)) == Done((p1, None)) && Possible(NewPeer(2), DoSocket(0))
    ensures Step(p1, DoBind(0, SERVER)) == Done((p2, None))
    ensures Step(p2, DoListen(0, 1)) == Done((p3, None))
    ensures p3.passive == map[SERVER := NewPassive(SERVER, 1)] && p3.connecting == map[] && p3.established == map[]
  {
    p1 := OpenSocket(NewPeer(2), 0).value;
    p2 := Bind(p1, 0, SERVER);
    p3 := Listen(p2, 0, 1);
  }

  /** The client opens a socket, starts to connect and sends its SYN. */
  lemma ClientConnects() returns (q1: Peer, q2: Peer, q3: Peer)
    ensures Step(NewPeer(1), DoSocket(0)) == Done((q1, None)) && Possible(NewPeer(1), DoSocket(0))
    ensures Step(q1, DoConnect(0, SERVER, 10)) == Done((q2, None))
    ensures Step(q2, DoConnectTimer(CLIENT_KEY, true, 536)) == Done((q3, Some(Packet(CLIENT, SERVER, Syn(10, 536)))))
    ensures CLIENT_KEY in q3.connecting && q3.connecting[CLIENT_KEY].isn == 10 && q3.established == map[]
  {
    q1 := OpenSocket(NewPeer(1), 0).value;
    assert FirstFree(q1.ports, 0) == Some(0);
    q2 := Connect(q1, 0, SERVER, 10).value;
    q3 := ConnectTimer(q2, CLIENT_KEY, true, 536).0;
  }

  /** The server starts a handshake on the SYN and answers. */
  lemma ServerAnswers(p3: Peer) returns (p4: Peer, p5: Peer, answer: Packet)
    requires p3.passive == map[SERVER := NewPassive(SERVER, 1)] && p3.connecting == map[] && p3.established == map[]
    ensures Step(p3, DoReceive(Packet(CLIENT, SERVER, Syn(10, 536)), 20, true)) == Done((p4, None))
    ensures Step(p4, DoAcceptTimer(SERVER_KEY, true)) == Done((p5, Some(answer)))
    ensures answer.from == SERVER && answer.to == CLIENT
    ensures answer.header.syn && answer.header.ack && !answer.header.rst && answer.header.ackNum == WrappingAdd(10, 1)
  {
    var syn := Packet(CLIENT, SERVER, Syn(10, 536));
    SynOptions(536);
    hide Negotiated;
    assert ScaledWindow(HANDSHAKE_WINDOW, 1).Done?;
    p4 := Receive(p3, syn, 20, true).value.0;
    p5 := AcceptTimer(p4, SERVER_KEY, true).0;
    answer := AcceptTimer(p4, SERVER_KEY, true).1.value;
  }

  lemma ClientAborts(q3: Peer, answer: Packet, isn: U32)
    requires CLIENT_KEY in q3.connecting && q3.connecting[CLIENT_KEY].isn == 10 && q3.established == map[]
    requires answer.from == SERVER && answer.to == CLIENT
    requires answer.header.syn && answer.header.ack && !answer.header.rst && answer.header.ackNum == WrappingAdd(10, 1)
    ensures Step(q3, DoReceive(answer, isn, false)).Panic?
  {
  }

  /** A run goes on: the last state's host `h`, now `p`, handles `e`. */
  lemma Extend(states: seq<Net>, moves: seq<Move>, h: U32, e: Event, p: Peer, p': Peer, out: Option<Packet>)
    returns (more: seq<Net>, acts: seq<Move>)
    requires Run(states, moves)
    requires h in states[|moves|].hosts && states[|moves|].hosts[h] == p && Possible(p, e) && Step(p, e) == Done((p', out))
    requires e.DoReceive? ==> e.packet in states[|moves|].packets && e.packet.to.addr == h
    ensures Run(more, acts) && |acts| == |moves| + 1 && |more| == |acts| + 1
    ensures forall g | g in states[|moves|].hosts ::
      g in more[|acts|].hosts && more[|acts|].hosts[g] == if g == h then p' else states[|moves|].hosts[g]
    ensures more[|acts|].packets == states[|moves|].packets + Sent(out)
  {
    hide Step, Possible, Next, Start;
    var n' := Moves(states[|moves|], h, e, p, p', out);
    more, acts := states + [n'], moves + [At(h, e)];
  }

  lemma ServerReady(p1: Peer, p2: Peer, p3: Peer) returns (states: seq<Net>, moves: seq<Move>)
    requires Step(NewPeer(2), DoSocket(0)) == Done((p1, None)) && Possible(NewPeer(2), DoSocket(0))
    requires Step(p1, DoBind(0, SERVER)) == Done((p2, None)) && Step(p2, DoListen(0, 1)) == Done((p3, None))
    ensures Run(states, moves) && |moves| == 3 && |states| == 4
    ensures Hosts(states[3], NewPeer(1), p3)
  {
    AnyTime(p1, p2, p3, p3, p3, p3);
    states, moves := [Net(map[1 := NewPeer(1), 2 := NewPeer(2)], {}, map[], map[])], [];
    assert Run(states, moves);
    hide Step, NewPeer, Possible, Run;
    states, moves := Extend(states, moves, 2, DoSocket(0), NewPeer(2), p1, None);
    states, moves := Extend(states, moves, 2, DoBind(0, SERVER), p1, p2, None);
    states, moves := Extend(states, moves, 2, DoListen(0, 1), p2, p3, None);
  }

  /** Both hosts are ready: the server listens, and the client's SYN is on its way. */
  lemma SynSent(p3: Peer, q3: Peer, p1: Peer, p2: Peer, q1: Peer, q2: Peer)
    returns (states: seq<Net>, moves: seq<Move>)
    requires Step(NewPeer(2), DoSocket(0)) == Done((p1, None)) && Possible(NewPeer(2), DoSocket(0))
    requires Step(p1, DoBind(0, SERVER)) == Done((p2, None)) && Step(p2, DoListen(0, 1)) == Done((p3, None))
    requires Step(NewPeer(1), DoSocket(0)) == Done((q1, None)) && Possible(NewPeer(1), DoSocket(0))
    requires Step(q1, DoConnect(0, SERVER, 10)) == Done((q2, None))
    requires Step(q2, DoConnectTimer(CLIENT_KEY, true, 536)) == Done((q3, Some(Packet(CLIENT, SERVER, Syn(10, 536)))))
    ensures Run(states, moves) && |moves| == 6 && |states| == 7
    ensures Hosts(states[6], q3, p3) && Packet(CLIENT, SERVER, Syn(10, 536)) in states[6].packets
  {
    hide Step, NewPeer, Possible, Run;
    AnyTime(p1, p2, p3, p3, q1, q2);
    states, moves := ServerReady(p1, p2, p3);
    states, moves := Extend(states, moves, 1, DoSocket(0), NewPeer(1), q1, None);
    states, moves := Extend(states, moves, 1, DoConnect(0, SERVER, 10), q1, q2, None);
    states, moves := Extend(states, moves, 1, DoConnectTimer(CLIENT_KEY, true, 536), q2, q3,
                            Some(Packet(CLIENT, SERVER, Syn(10, 536))));
  }

  /** Two hosts run this code; by the time the server's SYN+ACK arrives, the client's cache has
      lost the server's link address, and the client aborts. */
  lemma UncachedSynAckRun() returns (states: seq<Net>, moves: seq<Move>, answer: Packet)
    ensures Run(states, moves) && |moves| == 8
    ensures 1 in states[8].hosts && answer in states[8].packets && answer.to.addr == 1
    ensures Step(states[8].hosts[1], DoReceive(answer, 0, false)).Panic?
  {
    var p1, p2, p3 := ServerListens();
    var q1, q2, q3 := ClientConnects();
    var p4, p5, reply := ServerAnswers(p3);
    answer := reply;
    ClientAborts(q3, answer, 0);
    hide Step, NewPeer, Possible, Run;
    AnyTime(p1, p2, p3, p4, q1, q2);
    states, moves := SynSent(p3, q3, p1, p2, q1, q2);
    states, moves := Extend(states, moves, 2, DoReceive(Packet(CLIENT, SERVER, Syn(10, 536)), 20, true), p3, p4, None);
    states, moves := Extend(states, moves, 2, DoAcceptTimer(SERVER_KEY, true), p4, p5, Some(answer));
  }

  /** The calls of the run that need nothing of the file table. */
  lemma AnyTime(p1: Peer, p2: Peer, p3: Peer, p4: Peer, q1: Peer, q2: Peer)
    ensures Possible(p1, DoBind(0, SERVER)) && Possible(p2, DoListen(0, 1)) && Possible(q1, DoConnect(0, SERVER, 10))
    ensures Possible(q2, DoConnectTimer(CLIENT_KEY, true, 536)) && Possible(p4, DoAcceptTimer(SERVER_KEY, true))
    ensures Possible(p3, DoReceive(Packet(CLIENT, SERVER, Syn(10, 536)), 20, true))
  {
  }
}
