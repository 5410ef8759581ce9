/** The code against the transition systems that stand for it. */
module Refinement {
  // What a poll of the mobile node does to one socket, told from the datagram at its head; that it
  // is the step that Mobility takes for it; and that each of a socket's two readers, the node and
  // the application, takes the steps of SharedSocket.

  import opened Wrappers
  import opened IpAddress
  import opened Network
  import opened Rendezvous
  import opened ResendBuffer
  import opened MobileNode
  import EchoApp
  import Mobility
  import SharedSocket
  import Runs

  /** A datagram of the server, as it pushes a text: with the terminating NUL. */
  function Pushed(rendezvousServer: Address, port: nat, text: string): Datagram {
    Datagram(Endpoint(rendezvousServer, port), text + ['\0'])
  }

  // ----- One socket of a poll -----

  /**
   * An update at the head: the peer is at the address that it names, at its old port; the update
   * alone leaves the queue, and each message in the buffer goes once to the new address.
   */
  lemma PollTakesUpdate(p: Poll, q: Poll, base: seq<Sent>, sent: seq<Sent>, batch: seq<Sent>,
                        k: Descriptor, port: nat, x: Address, rest: seq<Datagram>, dest: Endpoint, message: string)
    requires Polled(p, q, p.peers.Keys, base, sent, batch) && k in p.peers
    requires p.Inbox(k) == [Pushed(p.rendezvousServer, port, IntToIPString(x))] + rest
    ensures k in q.peers && q.peers[k] == Endpoint(x, p.peers[k].port) && q.Inbox(k) == rest
    ensures multiset(batch)[Sent(k, dest, message)] ==
      if dest == Endpoint(x, p.peers[k].port) && message in Buffer(p.buffers, k) then 1 else 0
  {
    PollTakesText(p, q, base, sent, batch, k, port, IntToIPString(x), rest, dest, message);
    PushRoundTrip(x);
  }

  /** Whatever the text is, the address is what the text reads as. */
  lemma PollTakesText(p: Poll, q: Poll, base: seq<Sent>, sent: seq<Sent>, batch: seq<Sent>,
                      k: Descriptor, port: nat, text: string, rest: seq<Datagram>, dest: Endpoint, message: string)
    requires Polled(p, q, p.peers.Keys, base, sent, batch) && k in p.peers
    requires p.Inbox(k) == [Pushed(p.rendezvousServer, port, text)] + rest
    ensures k in q.peers && q.peers[k] == Endpoint(PushedAddress(text), p.peers[k].port) && q.Inbox(k) == rest
    ensures multiset(batch)[Sent(k, dest, message)] ==
      if dest == Endpoint(PushedAddress(text), p.peers[k].port) && message in Buffer(p.buffers, k) then 1 else 0
  {
    assert p.Inbox(k)[0] == Pushed(p.rendezvousServer, port, text) && p.Inbox(k)[1..] == rest;
    assert p.Due(k);
    ResentOn(p, q, base, sent, batch, Sent(k, dest, message));
  }

  /** With no datagram, an empty one, or one from elsewhere at the head, nothing happens to the socket. */
  lemma PollLeavesSocket(p: Poll, q: Poll, base: seq<Sent>, sent: seq<Sent>, batch: seq<Sent>,
                         k: Descriptor, dest: Endpoint, message: string)
    requires Polled(p, q, p.peers.Keys, base, sent, batch) && k in p.peers
    requires p.Inbox(k) == [] || p.Inbox(k)[0].content == "" || p.Inbox(k)[0].source.address != p.rendezvousServer
    ensures k in q.peers && q.peers[k] == p.peers[k] && q.Inbox(k) == p.Inbox(k)
    ensures multiset(batch)[Sent(k, dest, message)] == 0
  {
    ResentOn(p, q, base, sent, batch, Sent(k, dest, message));
  }

  lemma ResentOn(p: Poll, q: Poll, base: seq<Sent>, sent: seq<Sent>, batch: seq<Sent>, r: Sent)
    requires Polled(p, q, p.peers.Keys, base, sent, batch) && r.socket in p.peers
    ensures multiset(batch)[r] ==
      if p.Due(r.socket) && r.dest == p.Peer(r.socket) && r.content in Buffer(p.buffers, r.socket) then 1 else 0
  {
    assert forall k :: k in p.peers && r in p.ResendsOn(k) ==> k == r.socket;
    assert r in p.AllResends(p.peers.Keys) <==> r in p.ResendsOn(r.socket);
  }

  // ----- The poll as steps of the transition system -----

  /** The texts that the server pushed, among the datagrams of the applications. */
  ghost predicate Carries(inbox: seq<Datagram>, rendezvousServer: Address, queue: seq<string>) {
    if inbox == [] then queue == []
    else if inbox[0].source.address != rendezvousServer then Carries(inbox[1..], rendezvousServer, queue)
    else
      queue != [] && inbox[0].content == queue[0] + ['\0'] && Carries(inbox[1..], rendezvousServer, queue[1..])
  }

  /** The socket sends to the stored address, and its queue carries the updates to be read. */
  ghost predicate Represents(p: Poll, k: Descriptor, socket: Mobility.Socket)
    requires k in p.peers
  {
    socket.stored == Some(p.peers[k].address) && Carries(p.Inbox(k), p.rendezvousServer, socket.queue)
  }

  /** A datagram of the server is at the head. */
  predicate ServerFirst(p: Poll, k: Descriptor) {
    p.Inbox(k) != [] && p.Inbox(k)[0].source.address == p.rendezvousServer
  }

  lemma UpdateRefinesStep(p: Poll, q: Poll, base: seq<Sent>, sent: seq<Sent>, batch: seq<Sent>,
                          k: Descriptor, socket: Mobility.Socket)
    requires Polled(p, q, p.peers.Keys, base, sent, batch) && k in p.peers
    requires ServerFirst(p, k) && Represents(p, k, socket)
    ensures socket.queue != [] && k in q.peers && q.peers[k].port == p.peers[k].port
    ensures Represents(q, k, Mobility.Socket(socket.peer, Some(PushedAddress(socket.queue[0])), socket.queue[1..]))
  {
    var d, rest := p.Inbox(k)[0], p.Inbox(k)[1..];
    assert p.Inbox(k) == [d] + rest;
    PollTakesText(p, q, base, sent, batch, k, d.source.port, socket.queue[0], rest, p.peers[k], "");
    assert q.rendezvousServer == p.rendezvousServer;
  }

  /** One poll of a socket is one `Poll` step, or none when the server has nothing at the head. */
  lemma PollRefinesStep(p: Poll, q: Poll, base: seq<Sent>, sent: seq<Sent>, batch: seq<Sent>,
                        k: Descriptor, s: Mobility.State, j: Subscriber)
    requires Polled(p, q, p.peers.Keys, base, sent, batch) && k in p.peers
    requires j in s.sockets && Represents(p, k, s.sockets[j])
    ensures var t := if ServerFirst(p, k) then Mobility.Step(s, Mobility.Event.Poll(j)) else s;
      k in q.peers && q.peers[k].port == p.peers[k].port && j in t.sockets && Represents(q, k, t.sockets[j])
  {
    if ServerFirst(p, k) {
      UpdateRefinesStep(p, q, base, sent, batch, k, s.sockets[j]);
    } else {
      PollLeavesSocket(p, q, base, sent, batch, k, p.peers[k], "");
    }
  }

  /** The node's sockets, each with the subscriber that it belongs to in the transition system. */
  ghost predicate NodeRepresents(p: Poll, owner: map<Descriptor, Subscriber>, s: Mobility.State) {
    && p.peers.Keys <= owner.Keys
    && (forall k, l :: k in p.peers && l in p.peers && k != l ==> owner[k] != owner[l])
    && forall k :: k in p.peers ==> owner[k] in s.sockets && Represents(p, k, s.sockets[owner[k]])
  }

  ghost predicate PollsOnly(run: seq<Mobility.Event>) {
    forall i :: 0 <= i < |run| ==> run[i].Poll?
  }

  /** A socket has taken its step if it is in `done`, and is as it was otherwise. */
  ghost predicate SteppedAt(p: Poll, j: Subscriber, s: Mobility.State, t: Mobility.State, done: set<Descriptor>, k: Descriptor) {
    j in s.sockets ==>
      j in t.sockets && t.sockets[j] ==
        if k in done && ServerFirst(p, k) then Mobility.Step(s, Mobility.Event.Poll(j)).sockets[j] else s.sockets[j]
  }

  /** The sockets in `done` have taken their step, and nothing else has changed. */
  ghost predicate Stepped(p: Poll, owner: map<Descriptor, Subscriber>, s: Mobility.State, t: Mobility.State,
                          done: set<Descriptor>)
    requires p.peers.Keys <= owner.Keys
  {
    && t == s.(sockets := t.sockets) && t.sockets.Keys == s.sockets.Keys
    && forall k :: k in p.peers ==> SteppedAt(p, owner[k], s, t, done, k)
  }

  /** A step of one socket leaves the others alone. */
  lemma StepAt(p: Poll, i: Subscriber, j: Subscriber, s: Mobility.State, t: Mobility.State,
               done: set<Descriptor>, k: Descriptor, l: Descriptor)
    requires SteppedAt(p, i, s, t, done, l) && j in t.sockets && (l == k <==> i == j) && k !in done
    requires t.sockets.Keys == s.sockets.Keys
    ensures var u := if ServerFirst(p, k) then Mobility.Step(t, Mobility.Event.Poll(j)) else t;
      SteppedAt(p, i, s, u, done + {k}, l)
  {
  }

  lemma StepOne(p: Poll, owner: map<Descriptor, Subscriber>, s: Mobility.State, t: Mobility.State,
                done: set<Descriptor>, k: Descriptor)
    requires NodeRepresents(p, owner, s) && k in p.peers && k !in done && Stepped(p, owner, s, t, done)
    ensures var u := if ServerFirst(p, k) then Mobility.Step(t, Mobility.Event.Poll(owner[k])) else t;
      Stepped(p, owner, s, u, done + {k})
  {
    var u := if ServerFirst(p, k) then Mobility.Step(t, Mobility.Event.Poll(owner[k])) else t;
    forall l | l in p.peers ensures SteppedAt(p, owner[l], s, u, done + {k}, l) {
      StepAt(p, owner[l], owner[k], s, t, done, k, l);
    }
  }

  lemma {:induction false} StepAll(p: Poll, owner: map<Descriptor, Subscriber>, s: Mobility.State, todo: set<Descriptor>)
      returns (run: seq<Mobility.Event>)
    requires NodeRepresents(p, owner, s) && todo <= p.peers.Keys
    ensures PollsOnly(run) && Stepped(p, owner, s, Mobility.After(s, run), todo)
    decreases todo
  {
    if todo == {} {
      return [];
    }
    var k :| k in todo;
    var init := StepAll(p, owner, s, todo - {k});
    StepOne(p, owner, s, Mobility.After(s, init), todo - {k}, k);
    assert todo - {k} + {k} == todo;
    run := if ServerFirst(p, k) then init + [Mobility.Event.Poll(owner[k])] else init;
    assert ServerFirst(p, k) ==> run[..|run| - 1] == init;
  }

  /** A poll of all the node's sockets is a run of `Poll` steps: the code refines the transition system. */
  lemma PollRefinesRun(p: Poll, q: Poll, base: seq<Sent>, sent: seq<Sent>, batch: seq<Sent>,
                       owner: map<Descriptor, Subscriber>, s: Mobility.State) returns (run: seq<Mobility.Event>)
    requires Polled(p, q, p.peers.Keys, base, sent, batch) && NodeRepresents(p, owner, s)
    ensures PollsOnly(run) && NodeRepresents(q, owner, Mobility.After(s, run))
  {
    run := StepAll(p, owner, s, p.peers.Keys);
    var t := Mobility.After(s, run);
    forall k | k in q.peers ensures owner[k] in t.sockets && Represents(q, k, t.sockets[owner[k]]) {
      PollRefinesStep(p, q, base, sent, batch, k, s, owner[k]);
    }
  }

  // ----- The two readers of a socket -----

  /** A datagram at the head is for the node, for the application or, if it is empty, for neither. */
  lemma HeadIsFor(d: Datagram, rest: seq<Datagram>, rendezvousServer: Address)
    ensures HasUpdate([d] + rest, rendezvousServer) <==> d.content != "" && d.source.address == rendezvousServer
    ensures EchoApp.ForApp([d] + rest, rendezvousServer) <==> d.content != "" && d.source.address != rendezvousServer
    ensures !HasUpdate([], rendezvousServer) && !EchoApp.ForApp([], rendezvousServer)
  {
  }

  function Abstract(d: Datagram, rendezvousServer: Address): SharedSocket.Datagram {
    SharedSocket.Datagram(d.source.address == rendezvousServer, d.content)
  }

  /** The queue that the two threads share, as SharedSocket has it. */
  function SharedQueue(inbox: seq<Datagram>, rendezvousServer: Address): (queue: seq<SharedSocket.Datagram>)
    ensures |queue| == |inbox| && forall i :: 0 <= i < |inbox| ==> queue[i] == Abstract(inbox[i], rendezvousServer)
  {
    seq(|inbox|, i requires 0 <= i < |inbox| => Abstract(inbox[i], rendezvousServer))
  }

  lemma SharedHead(inbox: seq<Datagram>, rendezvousServer: Address)
    requires inbox != []
    ensures var queue := SharedQueue(inbox, rendezvousServer);
      && (queue[0].ForApp() <==> EchoApp.ForApp(inbox, rendezvousServer))
      && (queue[0].ForNode() <==> HasUpdate(inbox, rendezvousServer))
      && queue[1..] == SharedQueue(inbox[1..], rendezvousServer) && queue == [queue[0]] + queue[1..]
  {
  }

  lemma AppSteps(s: SharedSocket.State)
    requires s.appPeek.None?
    ensures SharedSocket.After(s, [SharedSocket.AppPeek, SharedSocket.AppReceive]) ==
      if s.queue != [] && s.queue[0].ForApp() then s.(queue := s.queue[1..], appLog := s.appLog + [s.queue[0]]) else s
  {
    Runs.AfterTwo(SharedSocket.Step, s, SharedSocket.AppPeek, SharedSocket.AppReceive);
  }

  lemma NodeSteps(s: SharedSocket.State)
    requires s.nodePeek.None?
    ensures SharedSocket.After(s, [SharedSocket.NodePeek, SharedSocket.NodeReceive]) ==
      if s.queue != [] && s.queue[0].ForNode() then s.(queue := s.queue[1..], nodeLog := s.nodeLog + [s.queue[0]]) else s
  {
    Runs.AfterTwo(SharedSocket.Step, s, SharedSocket.NodePeek, SharedSocket.NodeReceive);
  }

  /** The application's turn at its socket is its two steps: peek, and receive what is for it. */
  lemma AppTakesItsSteps(s: SharedSocket.State, inbox: seq<Datagram>, rendezvousServer: Address)
    requires s.queue == SharedQueue(inbox, rendezvousServer) && s.appPeek.None?
    ensures var left := if EchoApp.ForApp(inbox, rendezvousServer) then inbox[1..] else inbox;
      SharedSocket.After(s, [SharedSocket.AppPeek, SharedSocket.AppReceive]) ==
        s.(queue := SharedQueue(left, rendezvousServer),
           appLog := s.appLog + s.queue[..|inbox| - |left|])
  {
    AppSteps(s);
    if inbox != [] {
      SharedHead(inbox, rendezvousServer);
    }
  }

  /** The node's poll of the socket is its two steps. */
  lemma NodeTakesItsSteps(s: SharedSocket.State, p: Poll, q: Poll, base: seq<Sent>, sent: seq<Sent>, batch: seq<Sent>,
                          k: Descriptor)
    requires Polled(p, q, p.peers.Keys, base, sent, batch) && k in p.peers
    requires s.queue == SharedQueue(p.Inbox(k), p.rendezvousServer) && s.nodePeek.None?
    ensures |q.Inbox(k)| <= |p.Inbox(k)|
    ensures SharedSocket.After(s, [SharedSocket.NodePeek, SharedSocket.NodeReceive]) ==
      s.(queue := SharedQueue(q.Inbox(k), q.rendezvousServer),
         nodeLog := s.nodeLog + s.queue[..|p.Inbox(k)| - |q.Inbox(k)|])
  {
    NodeSteps(s);
    if p.Inbox(k) != [] {
      SharedHead(p.Inbox(k), p.rendezvousServer);
    }
  }
}
