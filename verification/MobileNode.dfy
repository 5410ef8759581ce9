/**
 * The mobile node of a host (SimpleMobileNode.cc): the peers of the application sockets, the
 * buffers of messages to resend, and the poll that follows a peer to its new address.
 */
module MobileNode {
  import opened Wrappers
  import opened IpAddress
  import opened Network
  import opened Rendezvous
  import opened PeerConnection
  import opened ResendBuffer
  import opened NodeDaemon

  // ----- The poll -----

  /** A socket whose oldest datagram is an update of the rendezvous server. */
  predicate HasUpdate(inbox: seq<Datagram>, rendezvousServer: Address) {
    inbox != [] && inbox[0].content != "" && inbox[0].source.address == rendezvousServer
  }

  /** Where the peer of a socket is after a poll: an update changes its address and not its port. */
  function PolledPeer(peer: Endpoint, inbox: seq<Datagram>, rendezvousServer: Address): Endpoint {
    if HasUpdate(inbox, rendezvousServer) then Endpoint(IpValue(Received(inbox[0].content)), peer.port) else peer
  }

  function PolledInbox(inbox: seq<Datagram>, rendezvousServer: Address): seq<Datagram> {
    if HasUpdate(inbox, rendezvousServer) then inbox[1..] else inbox
  }

  /** What a poll sends on one socket: each buffered message once, to where the peer is now. */
  function Resends(socket: Descriptor, peer: Endpoint, messages: set<string>): set<Sent> {
    set m <- messages :: Sent(socket, peer, m)
  }

  /** The state of a node and its host around a poll. */
  datatype Poll = Poll(rendezvousServer: Address, peers: map<Descriptor, Endpoint>, inboxes: map<Descriptor, seq<Datagram>>, buffers: Buffers) {
    function Inbox(k: Descriptor): seq<Datagram> { InboxOf(inboxes, k) }

    predicate Due(k: Descriptor) { HasUpdate(Inbox(k), rendezvousServer) }

    function Peer(k: Descriptor): Endpoint
      requires k in peers
    {
      PolledPeer(peers[k], Inbox(k), rendezvousServer)
    }

    function ResendsOn(k: Descriptor): set<Sent>
      requires k in peers
    {
      if Due(k) then Resends(k, Peer(k), Buffer(buffers, k)) else {}
    }

    function AllResends(sockets: set<Descriptor>): set<Sent>
      requires sockets <= peers.Keys
    {
      set k, r | k in sockets && r in ResendsOn(k) :: r
    }
  }

  /** The state after the poll: every socket with an update has taken it, and no other has changed. */
  ghost predicate Took(p: Poll, q: Poll, done: set<Descriptor>) {
    && q.rendezvousServer == p.rendezvousServer && q.peers.Keys == p.peers.Keys
    && (forall k :: k in p.peers ==> q.peers[k] == if k in done then p.Peer(k) else p.peers[k])
    && (forall k :: q.Inbox(k) == if k in done && k in p.peers then PolledInbox(p.Inbox(k), p.rendezvousServer) else p.Inbox(k))
    && forall k :: Buffer(q.buffers, k) == Buffer(p.buffers, k)
  }

  class SimpleMobileNode {
    const logicalAddress: string
    const rendezvousServer: Address
    var lastKnownIpAddress: Address
    var appSockets: map<Descriptor, SockAddr>
    var appSocketMessages: Buffers

    constructor (logicalAddress: string, rendezvousServer: Address, location: Address)
      ensures this.logicalAddress == logicalAddress && this.rendezvousServer == rendezvousServer
      ensures lastKnownIpAddress == location && appSockets == map[] && appSocketMessages == map[] && Valid()
    {
      this.logicalAddress, this.rendezvousServer, lastKnownIpAddress := logicalAddress, rendezvousServer, location;
      appSockets, appSocketMessages := map[], map[];
    }

    /** No two sockets share an address structure. */
    ghost predicate Valid()
      reads this`appSockets
    {
      forall j, k :: j in appSockets && k in appSockets && j != k ==> appSockets[j] != appSockets[k]
    }

    ghost function Peers(): map<Descriptor, Endpoint>
      reads this`appSockets, appSockets.Values
    {
      map k | k in appSockets :: appSockets[k].Value()
    }

    ghost function View(host: Host): Poll
      reads this`appSockets, this`appSocketMessages, appSockets.Values, host
    {
      Poll(rendezvousServer, Peers(), host.inboxes, appSocketMessages)
    }

    /** Looks the peer up on the application's socket; the address structure returned is shared. */
    method RegisterPeer(server: SimpleRendezvousServer, appSocket: Descriptor, node: Node, peer: string, dnsKnows: bool)
        returns (info: SockAddr?)
      requires Valid()
      modifies this`appSockets, server
      ensures Valid() && appSockets == if info == null then old(appSockets) else old(appSockets)[appSocket := info]
      ensures info != null <==> dnsKnows && Found(old(server.State()), Asked(node, peer).client).Some?
      ensures info != null ==> fresh(info) && info.port == 0
      ensures info != null ==> Some(info.address) == Found(old(server.State()), Asked(node, peer).client)
      ensures server.State() == if dnsKnows then Rendezvous.Apply(old(server.State()), Asked(node, peer)) else old(server.State())
    {
      var location := PeerConnection.RegisterPeer(server, node, peer, dnsKnows);
      if location.None? {
        return null;
      }
      info := new SockAddr(location.value, 0);
      appSockets := appSockets[appSocket := info];
    }

    ghost function DaemonOf(server: SimpleRendezvousServer): Daemon
      reads this`lastKnownIpAddress, server
    {
      NodeDaemon.Daemon(logicalAddress, server.State(), lastKnownIpAddress)
    }

    /** Starting registers from the current location, whatever the location at construction was. */
    method Start(server: SimpleRendezvousServer, source: Address)
      modifies server
      ensures DaemonOf(server) == Started(old(server.State()), logicalAddress, lastKnownIpAddress, source)
    {
      UpdateRendezvousServer(server, source);
    }

    /** One turn of the daemon's loop: the node is at `seen`, then at `source`, then at `noted`. */
    method Turn(server: SimpleRendezvousServer, host: Host, seen: Address, source: Address, noted: Address)
      requires Valid()
      modifies this`lastKnownIpAddress, this`appSocketMessages, server, host, appSockets.Values
      ensures Valid() && appSockets == old(appSockets)
      ensures DaemonOf(server) == NodeDaemon.Step(old(DaemonOf(server)), NodeDaemon.Turn(seen, source, noted))
      ensures exists batch :: Polled(old(View(host)), View(host), appSockets.Keys, old(host.sent), host.sent, batch)
    {
      if lastKnownIpAddress != seen {
        UpdateRendezvousServer(server, source);
      }
      assert View(host) == old(View(host));
      PollAndNote(host, noted);
    }

    method PollAndNote(host: Host, noted: Address)
      requires Valid()
      modifies this`lastKnownIpAddress, this`appSocketMessages, host, appSockets.Values
      ensures Valid() && appSockets == old(appSockets) && lastKnownIpAddress == noted
      ensures exists batch :: Polled(old(View(host)), View(host), appSockets.Keys, old(host.sent), host.sent, batch)
    {
      PollSubscriptions(host);
      ghost var batch :| Polled(old(View(host)), View(host), appSockets.Keys, old(host.sent), host.sent, batch);
      lastKnownIpAddress := noted;
      assert Polled(old(View(host)), View(host), appSockets.Keys, old(host.sent), host.sent, batch);
    }

    /** The server ignores a node without a name. */
    method UpdateRendezvousServer(server: SimpleRendezvousServer, location: Address)
      modifies server
      ensures server.State() == Registering(old(server.State()), logicalAddress, location)
    {
      var _ := server.HandleRequests(Some(Request(logicalAddress, location, 0)), false);
    }

    method MessageSent(appSocket: Descriptor, message: string)
      modifies this`appSocketMessages
      ensures appSocketMessages == ResendBuffer.Apply(old(appSocketMessages), Op.MessageSent(appSocket, message))
    {
      if appSocket !in appSocketMessages {
        appSocketMessages := appSocketMessages[appSocket := {}];
      }
      appSocketMessages := appSocketMessages[appSocket := appSocketMessages[appSocket] + {message}];
    }

    method MessageReceived(appSocket: Descriptor, message: string)
      modifies this`appSocketMessages
      ensures appSocketMessages == ResendBuffer.Apply(old(appSocketMessages), Op.MessageReceived(appSocket, message))
    {
      if appSocket !in appSocketMessages {
        appSocketMessages := appSocketMessages[appSocket := {}];
      }
      var bufferLog := appSocketMessages[appSocket];
      if message in bufferLog {
        bufferLog := bufferLog - {message};
      }
    }

    /** Takes at most one update off each socket, and resends that socket's messages. */
    method PollSubscriptions(host: Host)
      requires Valid()
      modifies this`appSocketMessages, host, appSockets.Values
      ensures Valid() && appSockets == old(appSockets)
      ensures exists batch :: Polled(old(View(host)), View(host), appSockets.Keys, old(host.sent), host.sent, batch)
    {
      ghost var p, base, batch := View(host), host.sent, [];
      var todo := appSockets.Keys;
      NothingPolled(p, base, todo);
      while todo != {}
        invariant appSockets == old(appSockets) && todo <= appSockets.Keys
        invariant Polled(p, View(host), appSockets.Keys - todo, base, host.sent, batch)
        decreases todo
      {
        var k :| k in todo;
        batch := PollNext(host, k, p, todo, base, batch);
        todo := todo - {k};
      }
      AllPolled(appSockets.Keys);
    }

    /** One turn of the loop. */
    method PollNext(host: Host, k: Descriptor, ghost p: Poll, ghost todo: set<Descriptor>,
                    ghost base: seq<Sent>, ghost batch: seq<Sent>) returns (ghost batch': seq<Sent>)
      requires Valid() && k in todo && todo <= appSockets.Keys
      requires Polled(p, View(host), appSockets.Keys - todo, base, host.sent, batch)
      modifies this`appSocketMessages, host, appSockets[k]
      ensures Polled(p, View(host), appSockets.Keys - (todo - {k}), base, host.sent, batch')
    {
      ghost var q, sent := View(host), host.sent;
      PollSocket(host, k);
      ghost var more :| host.sent == sent + more && multiset(more) == multiset(q.ResendsOn(k));
      PollAdvances(p, q, View(host), appSockets.Keys - todo, k, base, sent, batch, more);
      assert appSockets.Keys - todo + {k} == appSockets.Keys - (todo - {k});
      batch' := batch + more;
    }

    method PollSocket(host: Host, k: Descriptor)
      requires Valid() && k in appSockets
      modifies this`appSocketMessages, host, appSockets[k]
      ensures Took(old(View(host)), View(host), {k})
      ensures exists batch :: host.sent == old(host.sent) + batch &&
        multiset(batch) == multiset(old(View(host)).ResendsOn(k))
    {
      ghost var p := View(host);
      var d := host.Peek(k);
      if d.Some? && d.value.content != "" && d.value.source.address == rendezvousServer {
        TakeUpdate(host, k);
        TookUpdate(p, View(host), k);
      } else {
        TookNothing(p, k, host.sent);
      }
    }

    method TakeUpdate(host: Host, k: Descriptor)
      requires Valid() && k in appSockets && View(host).Due(k)
      modifies this`appSocketMessages, host, appSockets[k]
      ensures Peers() == old(Peers())[k := old(View(host)).Peer(k)]
      ensures View(host).Inbox(k) == old(View(host)).Inbox(k)[1..]
      ensures forall j :: j != k ==> View(host).Inbox(j) == old(View(host)).Inbox(j)
      ensures appSocketMessages == old(appSocketMessages)[k := Buffer(old(appSocketMessages), k)]
      ensures exists batch :: host.sent == old(host.sent) + batch &&
        multiset(batch) == multiset(old(View(host)).ResendsOn(k))
    {
      var peer := appSockets[k];
      ghost var p := View(host);
      Redirect(host, k, peer);
      if k !in appSocketMessages {
        appSocketMessages := appSocketMessages[k := {}];
      }
      ResendAll(host, k, peer, appSocketMessages[k]);
    }

    /** Receives the update and rewrites the structure that the application sends to. */
    method Redirect(host: Host, k: Descriptor, peer: SockAddr)
      requires Valid() && k in appSockets && appSockets[k] == peer && View(host).Due(k)
      modifies host`inboxes, peer
      ensures peer.Value() == old(View(host)).Peer(k)
      ensures Peers() == old(Peers())[k := old(View(host)).Peer(k)]
      ensures View(host).Inbox(k) == old(View(host)).Inbox(k)[1..]
      ensures forall j :: j != k ==> View(host).Inbox(j) == old(View(host)).Inbox(j)
    {
      ghost var p := View(host);
      var d := host.Receive(k);
      peer.address := IpValue(Received(d.value.content));
      assert peer.Value() == p.Peer(k);
      assert Peers() == p.peers[k := peer.Value()];
    }

    method ResendAll(host: Host, k: Descriptor, peer: SockAddr, messages: set<string>)
      modifies host`sent
      ensures exists batch :: host.sent == old(host.sent) + batch &&
        multiset(batch) == multiset(Resends(k, peer.Value(), messages))
    {
      var todo := messages;
      ghost var base, done: set<string>, batch: seq<Sent> := host.sent, {}, [];
      while todo != {}
        invariant done == messages - todo && todo <= messages
        invariant host.sent == base + batch && multiset(batch) == multiset(Resends(k, peer.Value(), done))
        decreases todo
      {
        var m :| m in todo;
        host.SendTo(k, peer.Value(), m);
        OneMoreResend(k, peer.Value(), done, m);
        batch := batch + [Sent(k, peer.Value(), m)];
        todo := todo - {m};
        done := done + {m};
      }
      assert done == messages;
    }
  }

  lemma OneMoreResend(k: Descriptor, peer: Endpoint, done: set<string>, m: string)
    requires m !in done
    ensures multiset(Resends(k, peer, done + {m})) == multiset(Resends(k, peer, done)) + multiset{Sent(k, peer, m)}
  {
    assert Sent(k, peer, m) !in Resends(k, peer, done);
    assert Resends(k, peer, done + {m}) == Resends(k, peer, done) + {Sent(k, peer, m)};
  }

  lemma TookNothing(p: Poll, k: Descriptor, sent: seq<Sent>)
    requires !p.Due(k) && k in p.peers
    ensures Took(p, p, {k}) && sent == sent + [] && multiset([]) == multiset(p.ResendsOn(k))
  {
  }

  lemma TookUpdate(p: Poll, q: Poll, k: Descriptor)
    requires p.Due(k) && k in p.peers && q.rendezvousServer == p.rendezvousServer
    requires q.peers == p.peers[k := p.Peer(k)] && q.buffers == p.buffers[k := Buffer(p.buffers, k)]
    requires q.Inbox(k) == p.Inbox(k)[1..] && forall j :: j != k ==> q.Inbox(j) == p.Inbox(j)
    ensures Took(p, q, {k})
  {
  }

  /** The sockets in `done` have been polled, and `batch` is what that sent. */
  ghost predicate Polled(p: Poll, q: Poll, done: set<Descriptor>, base: seq<Sent>, sent: seq<Sent>, batch: seq<Sent>) {
    && done <= p.peers.Keys && Took(p, q, done)
    && sent == base + batch && multiset(batch) == multiset(p.AllResends(done))
  }

  lemma NothingPolled(p: Poll, base: seq<Sent>, sockets: set<Descriptor>)
    ensures Polled(p, p, sockets - sockets, base, base, [])
  {
    assert p.AllResends({}) == {} && sockets - sockets == {};
  }

  lemma AllPolled(sockets: set<Descriptor>)
    ensures sockets - {} == sockets
  {
  }

  lemma PollAdvances(p: Poll, q: Poll, r: Poll, done: set<Descriptor>, k: Descriptor,
                     base: seq<Sent>, sent: seq<Sent>, batch: seq<Sent>, more: seq<Sent>)
    requires Polled(p, q, done, base, sent, batch) && Took(q, r, {k}) && k in p.peers && k !in done
    requires multiset(more) == multiset(q.ResendsOn(k))
    ensures Polled(p, r, done + {k}, base, sent + more, batch + more)
  {
    TookOneMore(p, q, r, done, k);
    ResendsGrow(p, done, k);
  }

  lemma TookOneMore(p: Poll, q: Poll, r: Poll, done: set<Descriptor>, k: Descriptor)
    requires Took(p, q, done) && Took(q, r, {k}) && k in p.peers && k !in done
    ensures Took(p, r, done + {k}) && q.ResendsOn(k) == p.ResendsOn(k)
  {
  }

  lemma ResendsGrow(p: Poll, done: set<Descriptor>, k: Descriptor)
    requires done <= p.peers.Keys && k in p.peers && k !in done
    ensures multiset(p.AllResends(done + {k})) == multiset(p.AllResends(done)) + multiset(p.ResendsOn(k))
  {
    assert forall r :: r in p.AllResends(done) ==> r.socket in done;
    assert forall r :: r in p.ResendsOn(k) ==> r.socket == k;
    assert p.AllResends(done + {k}) == p.AllResends(done) + p.ResendsOn(k);
  }

  /**
   * Resend completeness: a poll sends each message ever sent on a socket with an update exactly
   * once, to the peer's new address, and nothing else.
   */
  lemma PollResendsEachOnce(p: Poll, q: Poll, base: seq<Sent>, sent: seq<Sent>, batch: seq<Sent>, history: seq<Op>, r: Sent)
    requires Polled(p, q, p.peers.Keys, base, sent, batch)
    requires Buffer(p.buffers, r.socket) == Buffer(ResendBuffer.After(history), r.socket)
    ensures multiset(batch)[r] ==
      if r.socket in p.peers && p.Due(r.socket) && r.dest == q.peers[r.socket]
        && Op.MessageSent(r.socket, r.content) in history then 1 else 0
  {
    BufferIsAllEverSent(history, r.socket);
    assert forall k :: k in p.peers && r in p.ResendsOn(k) ==> k == r.socket;
    assert r in p.AllResends(p.peers.Keys) <==> r.socket in p.peers && r in p.ResendsOn(r.socket);
  }
}
