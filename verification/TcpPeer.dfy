/** The tables of a TCP peer: sockets by descriptor, listening sockets by endpoint, and
    connecting and established connections by endpoint pair. */
module TcpPeer {
  import opened Base
  import opened SeqNumbers
  import opened TcpOpen

  const FIRST_PRIVATE_PORT: int := 49152
  const NUM_EPHEMERAL: int := 65535 - FIRST_PRIVATE_PORT

  datatype Socket =
    | Inactive(bound: Option<Endpoint>)
    | Listening(local: Endpoint)
    | Connecting(key: Key)
    | Established(key: Key)

  datatype Key = Key(local: Endpoint, remote: Endpoint)

  function Reverse(k: Key): Key { Key(k.remote, k.local) }

  /** `ports[i]` tells whether ephemeral port `FIRST_PRIVATE_PORT + i` is free. */
  datatype Peer = Peer(
    addr: U32, files: set<nat>, ports: seq<bool>, sockets: map<nat, Socket>,
    passive: map<Endpoint, Passive>, connecting: map<Key, Active>, established: map<Key, Block>)

  function NewPeer(addr: U32): Peer {
    Peer(addr, {}, seq(NUM_EPHEMERAL, _ => true), map[], map[], map[], map[])
  }

  // ----- Ephemeral ports -----

  function FirstFree(ports: seq<bool>, i: nat): (r: Option<nat>)
    ensures r.Some? ==> i <= r.value < |ports| && ports[r.value]
    decreases |ports| - i
  {
    if i >= |ports| then None else if ports[i] then Some(i) else FirstFree(ports, i + 1)
  }

  predicate Allocated(p: Peer, port: Port) {
    0 <= port - FIRST_PRIVATE_PORT < |p.ports| && !p.ports[port - FIRST_PRIVATE_PORT]
  }

  // ----- Calls -----

  function OpenSocket(p: Peer, fd: nat): Outcome<Peer> {
    if fd in p.sockets then Panic
    else Done(p.(files := p.files + {fd}, sockets := p.sockets[fd := Inactive(None)]))
  }

  function Bind(p: Peer, fd: nat, addr: Endpoint): Peer {
    if addr.port >= FIRST_PRIVATE_PORT || fd !in p.sockets || !p.sockets[fd].Inactive? then p
    else p.(sockets := p.sockets[fd := Inactive(Some(addr))])
  }

  function Listen(p: Peer, fd: nat, backlog: nat): Peer {
    if fd !in p.sockets || !p.sockets[fd].Inactive? || p.sockets[fd].bound.None? then p
    else
      var local := p.sockets[fd].bound.value;
      if local in p.passive then p
      else p.(passive := p.passive[local := NewPassive(local, backlog)], sockets := p.sockets[fd := Listening(local)])
  }

  /** Accept a connection; `newFd` is the descriptor the file table would hand out. */
  function Accept(p: Peer, fd: nat, newFd: nat): Outcome<Peer> {
    if fd !in p.sockets || !p.sockets[fd].Listening? then Done(p)
    else
      var local := p.sockets[fd].local;
      if local !in p.passive then Panic
      else
        var (q, r) :- PollAccept(p.passive[local]);
        var p1 := p.(passive := p.passive[local := q]);
        if r.None? || r.value.HandshakeTimeout? then Done(p1)
        else
          var b := r.value.block;
          var key := Key(b.local, b.remote);
          if newFd in p.sockets || key in p.established then Panic
          else Done(p1.(files := p.files + {newFd}, sockets := p.sockets[newFd := Established(key)],
                    established := p.established[key := b]))
  }

  function Connect(p: Peer, fd: nat, remote: Endpoint, isn: U32): Outcome<Peer> {
    if fd !in p.sockets || !p.sockets[fd].Inactive? then Done(p)
    else
      match FirstFree(p.ports, 0)
      case None => Done(p)
      case Some(i) =>
        if FIRST_PRIVATE_PORT + i >= 0x1_0000 then Panic
        else
          var local := Endpoint(p.addr, FIRST_PRIVATE_PORT + i);
          var key := Key(local, remote);
          if key in p.connecting then Panic
          else Done(p.(ports := p.ports[i := false], sockets := p.sockets[fd := Connecting(key)],
                    connecting := p.connecting[key := NewActive(local, remote, isn)]))
  }

  function FinishConnect(p: Peer, fd: nat): Outcome<Peer> {
    if fd !in p.sockets || !p.sockets[fd].Connecting? || p.sockets[fd].key !in p.connecting then Done(p)
    else
      var key := p.sockets[fd].key;
      var a := p.connecting[key];
      if a.result.None? then Done(p)
      else
        var p1 := p.(connecting := p.connecting - {key});
        if !a.result.value.Connected? then Done(p1)
        else if key in p.established then Panic
        else Done(p1.(established := p.established[key := a.result.value.block],
                  sockets := p.sockets[fd := Established(key)]))
  }

  /** A header on its way, as transmitted by the owner of `from`. */
  datatype Packet = Packet(from: Endpoint, to: Endpoint, header: Header)

  predicate BadSource(addr: U32) { addr == 0 || addr == 0xffff_ffff || 0xe000_0000 <= addr < 0xf000_0000 }

  function Reset(): Header { Header(false, false, true, 0, 0, 0, []) }

  /** A segment for this host; what the data path of an established connection does with one
      is not visible here. */
  function Receive(p: Peer, k: Packet, isn: U32, arpHit: bool): Outcome<(Peer, Option<Packet>)> {
    var key := Key(k.to, k.from);
    if BadSource(k.from.addr) || key in p.established then Done((p, None))
    else if key in p.connecting then
      var (a, out) :- ActiveReceive(p.connecting[key], k.header, arpHit);
      Done((p.(connecting := p.connecting[key := a]),
            if out.Some? then Some(Packet(k.to, k.from, out.value)) else None))
    else if k.to in p.passive then
      var q :- PassiveReceive(p.passive[k.to], k.from, k.header, isn);
      Done((p.(passive := p.passive[k.to := q]), None))
    else
      Done((p, if arpHit then Some(Packet(k.to, k.from, Reset())) else None))
  }

  function ConnectTimer(p: Peer, key: Key, arpHit: bool, mss: nat): (Peer, Option<Packet>) {
    if key !in p.connecting then (p, None)
    else
      var (a, out) := ActiveTimer(p.connecting[key], arpHit, mss);
      (p.(connecting := p.connecting[key := a]),
       if out.Some? then Some(Packet(key.local, key.remote, out.value)) else None)
  }

  function AcceptTimer(p: Peer, key: Key, arpHit: bool): (Peer, Option<Packet>) {
    if key.local !in p.passive then (p, None)
    else
      var (q, out) := PassiveTimer(p.passive[key.local], key.remote, arpHit);
      (p.(passive := p.passive[key.local := q]),
       if out.Some? then Some(Packet(key.local, key.remote, out.value)) else None)
  }

  datatype Event =
    | OtherFile(fd: nat, inUse: bool)
    | DoSocket(newFd: nat)
    | DoBind(fd: nat, addr: Endpoint)
    | DoListen(fd: nat, backlog: nat)
    | DoAccept(fd: nat, newFd: nat)
    | DoConnect(fd: nat, remote: Endpoint, isn: U32)
    | DoFinish(fd: nat)
    | DoReceive(packet: Packet, isn: U32, arpHit: bool)
    | DoConnectTimer(key: Key, arpHit: bool, mss: nat)
    | DoAcceptTimer(key: Key, arpHit: bool)

  /** The file table hands out unused descriptors, and other protocols leave ours alone. */
  predicate Possible(p: Peer, e: Event) {
    match e
    case OtherFile(fd, inUse) => if inUse then fd !in p.files else fd !in p.sockets
    case DoSocket(newFd) => newFd !in p.files
    case DoAccept(_, newFd) => newFd !in p.files
    case _ => true
  }

  function Quiet(o: Outcome<Peer>): Outcome<(Peer, Option<Packet>)> {
    var p :- o;
    Done((p, None))
  }

  function Step(p: Peer, e: Event): Outcome<(Peer, Option<Packet>)> {
    match e
    case OtherFile(fd, inUse) => Done((p.(files := if inUse then p.files + {fd} else p.files - {fd}), None))
    case DoSocket(newFd) => Quiet(OpenSocket(p, newFd))
    case DoBind(fd, addr) => Done((Bind(p, fd, addr), None))
    case DoListen(fd, backlog) => Done((Listen(p, fd, backlog), None))
    case DoAccept(fd, newFd) => Quiet(Accept(p, fd, newFd))
    case DoConnect(fd, remote, isn) => Quiet(Connect(p, fd, remote, isn))
    case DoFinish(fd) => Quiet(FinishConnect(p, fd))
    case DoReceive(packet, isn, arpHit) => Receive(p, packet, isn, arpHit)
    case DoConnectTimer(key, arpHit, mss) => Done(ConnectTimer(p, key, arpHit, mss))
    case DoAcceptTimer(key, arpHit) => Done(AcceptTimer(p, key, arpHit))
  }

  // ----- Consistency -----

  predicate SocketsOk(p: Peer) {
    && p.sockets.Keys <= p.files
    && (forall fd | fd in p.sockets && p.sockets[fd].Listening? :: p.sockets[fd].local in p.passive)
    && (forall fd | fd in p.sockets && p.sockets[fd].Inactive? && p.sockets[fd].bound.Some? ::
          p.sockets[fd].bound.value.port < FIRST_PRIVATE_PORT)
    && (forall fd | fd in p.sockets && p.sockets[fd].Established? :: p.sockets[fd].key in p.established)
  }

  /** A remote with a handshake in flight or waiting to be accepted. */
  predicate Pending(q: Passive, remote: Endpoint) { remote in q.inflight || remote in q.endpoints }

  ghost predicate ListenerOk(p: Peer, l: Endpoint)
    requires l in p.passive
  {
    var q := p.passive[l];
    && l.port < FIRST_PRIVATE_PORT && q.local == l && BacklogOk(q)
    && (forall x | x in q.ready && x.Accepted? :: x.block.local == l)
    && (forall r | Key(l, r) in p.established :: !Pending(q, r))
  }

  predicate ConnectingOk(p: Peer, k: Key)
    requires k in p.connecting
  {
    var a := p.connecting[k];
    && FIRST_PRIVATE_PORT <= k.local.port && Allocated(p, k.local.port) && k !in p.established
    && a.local == k.local && a.remote == k.remote
    && (a.result.Some? && a.result.value.Connected? ==>
          a.result.value.block.local == k.local && a.result.value.block.remote == k.remote)
  }

  predicate EstablishedOk(p: Peer, k: Key)
    requires k in p.established
  {
    && (FIRST_PRIVATE_PORT <= k.local.port ==> Allocated(p, k.local.port))
    && p.established[k].local == k.local && p.established[k].remote == k.remote
  }

  /** No endpoint pair is both connecting and established, listening and established sockets have
      their entries, bound ports are below the private range, pending handshakes are not yet
      established, and every private port in use has been allocated. */
  ghost predicate PeerOk(p: Peer) {
    && |p.ports| == NUM_EPHEMERAL
    && SocketsOk(p)
    && (forall l | l in p.passive :: ListenerOk(p, l))
    && (forall k | k in p.connecting :: ConnectingOk(p, k))
    && (forall k | k in p.established :: EstablishedOk(p, k))
  }
}
