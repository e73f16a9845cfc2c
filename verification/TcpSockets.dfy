/** The passive socket and the peer as objects that update their tables in place, each method
    proved to do what the corresponding function of `TcpOpen` or `TcpPeer` says. A method whose
    source may abort returns `ok`, false exactly when it aborts. */
module TcpSockets {
  import opened Base
  import opened SeqNumbers
  import opened TcpOpen
  import Tables = TcpPeer

  /** The loop over the options of a SYN. */
  method Negotiate(options: seq<TcpOption>) returns (windowScale: nat, mss: nat)
    ensures (windowScale, mss) == Negotiated(options)
  {
    windowScale, mss := 1, FALLBACK_MSS;
    for i := 0 to |options|
      invariant (windowScale, mss) == Negotiated(options[..i])
    {
      assert options[..i + 1][..i] == options[..i];
      match options[i] {
        case WindowScale(w) => windowScale := w;
        case MaximumSegmentSize(m) => mss := m;
        case OtherOption =>
      }
    }
    assert options[..|options|] == options;
  }

  class PassiveSocket {
    const local: Endpoint
    const maxBacklog: nat
    var inflight: map<Endpoint, Inflight>
    var ready: seq<Ready>
    var endpoints: set<Endpoint>

    ghost function View(): Passive
      reads this
    {
      Passive(local, inflight, ready, endpoints, maxBacklog)
    }

    constructor (local: Endpoint, maxBacklog: nat)
      ensures View() == NewPassive(local, maxBacklog)
    {
      this.local, this.maxBacklog := local, maxBacklog;
      inflight, ready, endpoints := map[], [], {};
    }

    method PushReady(b: Block) returns (ok: bool)
      modifies this`endpoints, this`ready
      ensures ok <==> PushOk(old(View()), b).Done?
      ensures ok ==> View() == PushOk(old(View()), b).value
    {
      if b.remote in endpoints {
        return false;
      }
      endpoints := endpoints + {b.remote};
      ready := ready + [Accepted(b)];
      ok := true;
    }

    method Receive(remote: Endpoint, h: Header, isn: U32) returns (ok: bool)
      modifies this
      ensures ok <==> PassiveReceive(old(View()), remote, h, isn).Done?
      ensures ok ==> View() == PassiveReceive(old(View()), remote, h, isn).value
    {
      if remote in endpoints {
        return true;
      }
      var inflightLen := |inflight|;
      if remote in inflight {
        var f := inflight[remote];
        if !h.ack || h.ackNum != WrappingAdd(f.localIsn, 1) {
          return true;
        }
        inflight := inflight - {remote};
        ok := PushReady(InflightBlock(local, remote, f));
        return;
      }
      if !h.syn || h.ack || h.rst {
        return true;
      }
      if inflightLen + |ready| >= maxBacklog {
        return true;
      }
      var windowScale, mss := Negotiate(h.options);
      if windowScale >= 16 {
        return false;
      }
      var window := h.windowSize * Power2(windowScale) % 0x1_0000;
      inflight := inflight[remote := Inflight(isn, h.seqNum, window, windowScale, mss, Some(HANDSHAKE_RETRIES))];
      ok := true;
    }

    method Poll() returns (ok: bool, r: Option<Ready>)
      modifies this`endpoints, this`ready
      ensures ok <==> PollAccept(old(View())).Done?
      ensures ok ==> (View(), r) == PollAccept(old(View())).value
    {
      if ready == [] {
        return true, None;
      }
      var x := ready[0];
      ready := ready[1..];
      if x.Accepted? {
        if x.block.remote !in endpoints {
          return false, None;
        }
        endpoints := endpoints - {x.block.remote};
      }
      return true, Some(x);
    }
  }

  class ActiveOpenSocket {
    const local: Endpoint
    const remote: Endpoint
    const isn: U32
    var left: Option<nat>
    var result: Option<ConnectResult>

    ghost function View(): Active
      reads this
    {
      Active(local, remote, isn, left, result)
    }

    constructor (local: Endpoint, remote: Endpoint, isn: U32)
      ensures View() == NewActive(local, remote, isn)
    {
      this.local, this.remote, this.isn := local, remote, isn;
      left, result := Some(HANDSHAKE_RETRIES), None;
    }

    /** A segment arrives: a reset refuses the connection, the SYN+ACK that answers completes it. */
    method Receive(h: Header, arpHit: bool) returns (ok: bool, out: Option<Header>)
      modifies this`result
      ensures ok <==> ActiveReceive(old(View()), h, arpHit).Done?
      ensures ok ==> (View(), out) == ActiveReceive(old(View()), h, arpHit).value
    {
      if h.rst {
        result := Some(Refused);
        return true, None;
      }
      if !(h.ack && h.syn && h.ackNum == WrappingAdd(isn, 1)) {
        return true, None;
      }
      if !arpHit {
        return false, None;
      }
      var windowScale, mss := Negotiate(h.options);
      if windowScale >= 16 {
        return false, None;
      }
      var window := h.windowSize * Power2(windowScale) % 0x1_0000;
      var rcvBase := WrappingAdd(h.seqNum, 1);
      result := Some(Connected(Block(local, remote, WrappingAdd(isn, 1), rcvBase, window, windowScale, mss)));
      return true, Some(Acknowledgement(rcvBase));
    }
  }

  class EphemeralPorts {
    var bits: seq<bool>

    constructor ()
      ensures bits == seq(Tables.NUM_EPHEMERAL, _ => true)
    {
      bits := seq(Tables.NUM_EPHEMERAL, _ => true);
    }

    /** Hand out the lowest free port. */
    method Alloc() returns (i: Option<nat>)
      modifies this
      ensures i == Tables.FirstFree(old(bits), 0)
      ensures bits == if i.Some? then old(bits)[i.value := false] else old(bits)
    {
      var j := 0;
      while j < |bits|
        invariant 0 <= j <= |bits| && bits == old(bits)
        invariant Tables.FirstFree(bits, 0) == Tables.FirstFree(bits, j)
      {
        if bits[j] {
          bits := bits[j := false];
          return Some(j);
        }
        j := j + 1;
      }
      i := None;
    }
  }

  /** The tables of a peer. Every listening endpoint and every attempt to connect has a socket
      object of its own. */
  class Peer {
    const addr: U32
    var files: set<nat>
    const ports: EphemeralPorts
    var sockets: map<nat, Tables.Socket>
    var passive: map<Endpoint, PassiveSocket>
    var connecting: map<Tables.Key, ActiveOpenSocket>
    var established: map<Tables.Key, Block>

    ghost predicate Valid()
      reads this
    {
      && (forall l, m | l in passive && m in passive && l != m :: passive[l] != passive[m])
      && (forall k, m | k in connecting && m in connecting && k != m :: connecting[k] != connecting[m])
    }

    ghost function Listeners(): map<Endpoint, Passive>
      reads this`passive, passive.Values
    {
      map l | l in passive :: passive[l].View()
    }

    ghost function Attempts(): map<Tables.Key, Active>
      reads this`connecting, connecting.Values
    {
      map k | k in connecting :: connecting[k].View()
    }

    ghost function View(): Tables.Peer
      reads this, ports, passive.Values, connecting.Values
    {
      Tables.Peer(addr, files, ports.bits, sockets, Listeners(), Attempts(), established)
    }

    /** At most the listener at `l` changed, or is new. */
    twostate lemma ListenerChanged(l: Endpoint)
      requires l in passive && passive.Keys == old(passive).Keys + {l}
      requires forall m | m in old(passive) && m != l :: passive[m] == old(passive[m]) && unchanged(passive[m])
      ensures Listeners() == old(Listeners())[l := passive[l].View()]
    {
    }

    /** At most the attempt `k` changed, or is new. */
    twostate lemma AttemptChanged(k: Tables.Key)
      requires k in connecting && connecting.Keys == old(connecting).Keys + {k}
      requires forall m | m in old(connecting) && m != k :: connecting[m] == old(connecting[m]) && unchanged(connecting[m])
      ensures Attempts() == old(Attempts())[k := connecting[k].View()]
    {
    }

    /** Attempt `k` is gone. */
    twostate lemma AttemptRemoved(k: Tables.Key)
      requires connecting == old(connecting) - {k}
      requires forall m | m in connecting :: unchanged(connecting[m])
      ensures Attempts() == old(Attempts()) - {k}
    {
    }

    lemma LookedUp(l: Endpoint)
      ensures (l in Listeners() <==> l in passive) && (l in passive ==> Listeners()[l] == passive[l].View())
    {
    }

    lemma LookedUpAttempt(k: Tables.Key)
      ensures (k in Attempts() <==> k in connecting) && (k in connecting ==> Attempts()[k] == connecting[k].View())
    {
    }

    constructor (addr: U32)
      ensures Valid() && View() == Tables.NewPeer(addr)
    {
      this.addr := addr;
      files, sockets, passive, connecting, established := {}, map[], map[], map[], map[];
      ports := new EphemeralPorts();
    }

    method OpenSocket(fd: nat) returns (ok: bool)
      requires Valid()
      modifies this`files, this`sockets
      ensures Valid() && (ok <==> Tables.OpenSocket(old(View()), fd).Done?)
      ensures ok ==> View() == Tables.OpenSocket(old(View()), fd).value
    {
      files := files + {fd};
      if fd in sockets {
        return false;
      }
      sockets := sockets[fd := Tables.Inactive(None)];
      ok := true;
    }

    method Bind(fd: nat, a: Endpoint)
      requires Valid()
      modifies this`sockets
      ensures Valid() && View() == Tables.Bind(old(View()), fd, a)
    {
      if a.port >= Tables.FIRST_PRIVATE_PORT {
        return;
      }
      if fd in sockets && sockets[fd].Inactive? {
        sockets := sockets[fd := Tables.Inactive(Some(a))];
      }
    }

    method Listen(fd: nat, backlog: nat)
      requires Valid()
      modifies this`passive, this`sockets
      ensures Valid() && View() == Tables.Listen(old(View()), fd, backlog)
    {
      hide Listeners, Attempts;
      if fd !in sockets || !sockets[fd].Inactive? || sockets[fd].bound.None? {
        return;
      }
      var local := sockets[fd].bound.value;
      LookedUp(local);
      if local in passive {
        return;
      }
      var socket := new PassiveSocket(local, backlog);
      passive := passive[local := socket];
      sockets := sockets[fd := Tables.Listening(local)];
      ListenerChanged(local);
    }

    method Accept(fd: nat, newFd: nat) returns (ok: bool)
      requires Valid()
      modifies this`files, this`sockets, this`established, passive.Values
      ensures Valid() && (ok <==> Tables.Accept(old(View()), fd, newFd).Done?)
      ensures ok ==> View() == Tables.Accept(old(View()), fd, newFd).value
    {
      hide PollAccept, Listeners, Attempts;
      if fd !in sockets || !sockets[fd].Listening? {
        return true;
      }
      var local := sockets[fd].local;
      LookedUp(local);
      if local !in passive {
        return false;
      }
      var r;
      ok, r := passive[local].Poll();
      if !ok {
        return;
      }
      ListenerChanged(local);
      if r.None? || r.value.HandshakeTimeout? {
        return true;
      }
      var b := r.value.block;
      var key := Tables.Key(b.local, b.remote);
      if newFd in sockets || key in established {
        return false;
      }
      files := files + {newFd};
      sockets := sockets[newFd := Tables.Established(key)];
      established := established[key := b];
    }

    method Connect(fd: nat, remote: Endpoint, isn: U32) returns (ok: bool)
      requires Valid()
      modifies this`sockets, this`connecting, ports
      ensures Valid() && (ok <==> Tables.Connect(old(View()), fd, remote, isn).Done?)
      ensures ok ==> View() == Tables.Connect(old(View()), fd, remote, isn).value
    {
      hide Listeners, Attempts, Tables.FirstFree;
      if fd !in sockets || !sockets[fd].Inactive? {
        return true;
      }
      var i := ports.Alloc();
      if i.None? {
        return true;
      }
      if Tables.FIRST_PRIVATE_PORT + i.value >= 0x1_0000 {
        return false;
      }
      var local := Endpoint(addr, Tables.FIRST_PRIVATE_PORT + i.value);
      var key := Tables.Key(local, remote);
      sockets := sockets[fd := Tables.Connecting(key)];
      LookedUpAttempt(key);
      if key in connecting {
        return false;
      }
      var socket := new ActiveOpenSocket(local, remote, isn);
      connecting := connecting[key := socket];
      AttemptChanged(key);
      ok := true;
    }

    method FinishConnect(fd: nat) returns (ok: bool)
      requires Valid()
      modifies this`sockets, this`connecting, this`established
      ensures Valid() && (ok <==> Tables.FinishConnect(old(View()), fd).Done?)
      ensures ok ==> View() == Tables.FinishConnect(old(View()), fd).value
    {
      hide Listeners, Attempts;
      if fd !in sockets || !sockets[fd].Connecting? {
        return true;
      }
      var key := sockets[fd].key;
      LookedUpAttempt(key);
      if key !in connecting {
        return true;
      }
      var result := connecting[key].result;
      if result.None? {
        return true;
      }
      connecting := connecting - {key};
      AttemptRemoved(key);
      if !result.value.Connected? {
        return true;
      }
      if key in established {
        return false;
      }
      established := established[key := result.value.block];
      sockets := sockets[fd := Tables.Established(key)];
      ok := true;
    }

    method Receive(k: Tables.Packet, isn: U32, arpHit: bool) returns (ok: bool, out: Option<Tables.Packet>)
      requires Valid()
      modifies passive.Values, connecting.Values
      ensures Valid() && (ok <==> Tables.Receive(old(View()), k, isn, arpHit).Done?)
      ensures ok ==> (View(), out) == Tables.Receive(old(View()), k, isn, arpHit).value
    {
      hide ActiveReceive, PassiveReceive, Listeners, Attempts;
      if Tables.BadSource(k.from.addr) {
        return true, None;
      }
      var key := Tables.Key(k.to, k.from);
      LookedUp(k.to);
      LookedUpAttempt(key);
      if key in established {
        return true, None;
      }
      if key in connecting {
        var reply;
        ok, reply := connecting[key].Receive(k.header, arpHit);
        if !ok {
          return false, None;
        }
        AttemptChanged(key);
        return true, if reply.Some? then Some(Tables.Packet(k.to, k.from, reply.value)) else None;
      }
      if k.to in passive {
        ok := passive[k.to].Receive(k.from, k.header, isn);
        if !ok {
          return false, None;
        }
        ListenerChanged(k.to);
        return true, None;
      }
      return true, if arpHit then Some(Tables.Packet(k.to, k.from, Tables.Reset())) else None;
    }
  }
}
