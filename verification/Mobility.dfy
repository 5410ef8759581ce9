/** The whole system as a transition system. */
module Mobility {
  // Nodes move, register and look peers up, a rendezvous server pushes registrations to the address
  // it has for each subscriber, and sockets queue what reaches them. The server's part of a step is
  // its own specification (Rendezvous); a poll takes one update off a socket's queue, as Refinement
  // proves of the code.

  import opened Wrappers
  import opened IpAddress
  import opened Rendezvous
  import Runs

  /** A node's location; `pending` from each move until the registration that follows it. */
  datatype Node = Node(location: Address, pending: bool)

  /** An application's socket for one peer: the address it sends to, once connected, and the updates it holds. */
  datatype Socket = Socket(peer: string, stored: Option<Address>, queue: seq<string>)

  /** The updates for a subscriber that are under way to an address. */
  datatype Flow = Flow(subscriber: Subscriber, dest: Address)

  datatype Registration = Registration(name: string, address: Address)

  /** The address that is held once the texts have been read. */
  function LastRead(stored: Address, texts: seq<string>): Address {
    if texts == [] then stored else PushedAddress(texts[|texts| - 1])
  }

  datatype State = State(rs: Registry, nodes: map<string, Node>, sockets: map<Subscriber, Socket>,
                         channels: Flow -> seq<string>, registrations: seq<Registration>)
  {
    predicate Known(k: Subscriber) { k in sockets && k.name in nodes }

    /** Registered since its last move. */
    predicate Settled(n: string) { n in nodes && !nodes[n].pending }

    function Live(k: Subscriber): Flow
      requires Known(k)
    {
      Flow(k, nodes[k.name].location)
    }

    /** What a socket has yet to read, provided its node does not move. */
    function Unread(k: Subscriber): seq<string>
      requires Known(k)
    {
      sockets[k].queue + channels(Live(k))
    }

    predicate Connected(k: Subscriber) {
      Known(k) && sockets[k].stored.Some? && k in rs.SubscribersOf(sockets[k].peer)
    }

    /** The address that the socket will send to once it has read everything. */
    function View(k: Subscriber): Address
      requires Connected(k)
    {
      LastRead(sockets[k].stored.value, Unread(k))
    }
  }

  datatype Event =
    | Move(name: string, to: Address)
    | Register(name: string)
    | Lookup(socket: Subscriber)
    | Deliver(socket: Subscriber)
    | Drop(flow: Flow)
    | Poll(socket: Subscriber)

  // ----- Steps -----

  function Moved(s: State, n: string, to: Address): State {
    if n in s.nodes then s.(nodes := s.nodes[n := Node(to, true)]) else s
  }

  function Send(channels: Flow -> seq<string>, pushes: set<Push>, text: string): Flow -> seq<string> {
    (f: Flow) => if Push(f.subscriber, f.dest, text) in pushes then channels(f) + [text] else channels(f)
  }

  /** The server stores where the registration came from and pushes it to the subscribers. */
  function Registered(s: State, n: string): State {
    if n !in s.nodes then s
    else
      var location := s.nodes[n].location;
      var text := IntToIPString(location);
      var pushes := Pushes(s.rs.SubscribersOf(n), s.rs.registered[n := text], text);
      s.(rs := Update(s.rs, n, text), nodes := s.nodes[n := Node(location, false)],
         channels := Send(s.channels, pushes, text), registrations := s.registrations + [Registration(n, location)])
  }

  /** A socket looks its peer up until it has an address. */
  function LookedUp(s: State, k: Subscriber): State {
    if k !in s.sockets || s.sockets[k].stored.Some? then s
    else
      var socket := s.sockets[k];
      var reply := TextIn(s.rs.registered, socket.peer);
      var rs := Toggle(s.rs, k, socket.peer);
      if reply == "" then s.(rs := rs)
      else s.(rs := rs, sockets := s.sockets[k := socket.(stored := Some(IpValue(reply)))])
  }

  function WithoutHead(channels: Flow -> seq<string>, flow: Flow): Flow -> seq<string> {
    (f: Flow) => if f == flow && channels(f) != [] then channels(f)[1..] else channels(f)
  }

  /** The oldest update under way to the address that the addressee is at reaches its socket. */
  function Delivered(s: State, k: Subscriber): State {
    if !s.Known(k) || s.channels(s.Live(k)) == [] then s
    else
      var socket := s.sockets[k];
      s.(sockets := s.sockets[k := socket.(queue := socket.queue + [s.channels(s.Live(k))[0]])],
         channels := WithoutHead(s.channels, s.Live(k)))
  }

  /** An update is lost only at an address that the addressee is not at. */
  function Dropped(s: State, flow: Flow): State {
    if s.Known(flow.subscriber) && s.Live(flow.subscriber) == flow then s
    else s.(channels := WithoutHead(s.channels, flow))
  }

  function Polled(s: State, k: Subscriber): State {
    if k !in s.sockets || s.sockets[k].stored.None? || s.sockets[k].queue == [] then s
    else
      var socket := s.sockets[k];
      s.(sockets := s.sockets[k := Socket(socket.peer, Some(PushedAddress(socket.queue[0])), socket.queue[1..])])
  }

  function Step(s: State, e: Event): State {
    match e
    case Move(n, to) => Moved(s, n, to)
    case Register(n) => Registered(s, n)
    case Lookup(k) => LookedUp(s, k)
    case Deliver(k) => Delivered(s, k)
    case Drop(f) => Dropped(s, f)
    case Poll(k) => Polled(s, k)
  }

  function After(s: State, run: seq<Event>): State {
    Runs.After(Step, s, run)
  }

  /** Nobody has registered, and each socket belongs to a node. */
  ghost predicate Initial(s: State) {
    && s.rs == EMPTY_REGISTRY && s.registrations == []
    && (forall n :: n in s.nodes ==> s.nodes[n].pending)
    && (forall k :: k in s.sockets ==> k.name in s.nodes && s.sockets[k].stored.None? && s.sockets[k].queue == [])
    && forall f :: s.channels(f) == []
  }

  ghost predicate Reachable(s: State) {
    exists start, run :: Initial(start) && s == After(start, run)
  }

  // ----- Invariants -----

  /** A settled node is registered where it is. */
  ghost predicate SettledIsRegistered(s: State) {
    forall n :: s.Settled(n) ==>
      TextIn(s.rs.registered, n) == IntToIPString(s.nodes[n].location)
      && Registration(n, s.nodes[n].location) in s.registrations
  }

  /** Only a socket subscribes, and only to its own peer. */
  ghost predicate SubscribesToPeer(s: State) {
    forall c, k :: k in s.rs.SubscribersOf(c) ==> s.Known(k) && c == s.sockets[k].peer
  }

  ghost predicate NothingSent(s: State, k: Subscriber)
    requires k in s.sockets
  {
    s.sockets[k].queue == [] && forall a :: s.channels(Flow(k, a)) == []
  }

  ghost predicate Quiet(s: State, k: Subscriber)
    requires k in s.sockets
  {
    var peer := s.sockets[k].peer;
    var connecting := s.sockets[k].stored.None? && k !in s.rs.SubscribersOf(peer);
    TextIn(s.rs.registered, peer) == "" || connecting ==> NothingSent(s, k)
  }

  /** No update was ever sent to a socket that has yet to connect, unless a failed lookup subscribed it. */
  ghost predicate QuietBeforeConnecting(s: State) {
    forall k :: k in s.sockets ==> k.name in s.nodes && Quiet(s, k)
  }

  ghost predicate Inv(s: State) {
    SettledIsRegistered(s) && SubscribesToPeer(s) && QuietBeforeConnecting(s)
  }

  lemma TextAfterUpdate(r: Registry, n: string, text: string, m: string)
    ensures TextIn(Update(r, n, text).registered, m) == if m == n then text else TextIn(r.registered, m)
    ensures Update(r, n, text).SubscribersOf(m) == r.SubscribersOf(m)
  {
  }

  /** A registration is sent to each subscriber of the name where the server has it, and to no one else. */
  lemma SentTo(s: State, n: string, f: Flow)
    requires n in s.nodes
    ensures var location := s.nodes[n].location;
      var dest := if f.subscriber.name == n then location else IpValue(TextIn(s.rs.registered, f.subscriber.name));
      Registered(s, n).channels(f) == s.channels(f) +
        if f.subscriber in s.rs.SubscribersOf(n) && f.dest == dest then [IntToIPString(location)] else []
  {
    var text := IntToIPString(s.nodes[n].location);
    AddressRoundTrip(s.nodes[n].location);
    var registered := s.rs.registered[n := text];
    var pushes := Pushes(s.rs.SubscribersOf(n), registered, text);
    var push := Push(f.subscriber, f.dest, text);
    assert push in pushes <==> f.subscriber in s.rs.SubscribersOf(n) && push == PushTo(f.subscriber, registered, text);
  }

  lemma RegisterKeepsSettled(s: State, n: string)
    requires SettledIsRegistered(s) && n in s.nodes
    ensures SettledIsRegistered(Registered(s, n))
  {
    var t, text := Registered(s, n), IntToIPString(s.nodes[n].location);
    forall m | t.Settled(m) ensures TextIn(t.rs.registered, m) == IntToIPString(t.nodes[m].location)
      ensures Registration(m, t.nodes[m].location) in t.registrations
    {
      TextAfterUpdate(s.rs, n, text, m);
      if m != n {
        assert s.Settled(m);
      }
    }
  }

  lemma RegisterKeepsQuiet(s: State, n: string, k: Subscriber)
    requires SubscribesToPeer(s) && n in s.nodes && k in s.sockets && Quiet(s, k)
    ensures Quiet(Registered(s, n), k)
  {
    var text := IntToIPString(s.nodes[n].location);
    EmptyTextIsNoAddress(s.nodes[n].location);
    TextAfterUpdate(s.rs, n, text, s.sockets[k].peer);
    forall a ensures k !in s.rs.SubscribersOf(n) ==> Registered(s, n).channels(Flow(k, a)) == s.channels(Flow(k, a)) {
      SentTo(s, n, Flow(k, a));
    }
  }

  lemma RegisterKeepsInv(s: State, n: string)
    requires Inv(s) && n in s.nodes
    ensures Inv(Registered(s, n))
  {
    RegisterKeepsSettled(s, n);
    var t := Registered(s, n);
    forall c, k | k in t.rs.SubscribersOf(c) ensures t.Known(k) && c == t.sockets[k].peer {
      TextAfterUpdate(s.rs, n, IntToIPString(s.nodes[n].location), c);
    }
    forall k | k in s.sockets ensures Quiet(Registered(s, n), k) {
      RegisterKeepsQuiet(s, n, k);
    }
  }

  /** A lookup toggles the subscription of its own pair, if the peer is registered, and no other. */
  lemma LookupToggles(s: State, k: Subscriber, c: string, j: Subscriber)
    requires k in s.sockets
    ensures var peer := s.sockets[k].peer;
      j in LookedUp(s, k).rs.SubscribersOf(c) <==>
        (j in s.rs.SubscribersOf(c)) != (s.sockets[k].stored.None? && (c, j) == (peer, k) && peer in s.rs.registered)
  {
  }

  lemma LookupKeepsQuiet(s: State, k: Subscriber, j: Subscriber)
    requires k in s.sockets && j in s.sockets && Quiet(s, j)
    ensures Quiet(LookedUp(s, k), j)
  {
    var t := LookedUp(s, k);
    LookupToggles(s, k, s.sockets[j].peer, j);
    assert t.sockets[j].queue == s.sockets[j].queue && t.sockets[j].peer == s.sockets[j].peer;
    assert NothingSent(s, j) ==> NothingSent(t, j);
  }

  lemma PeersAreFixed(s: State, e: Event, k: Subscriber)
    ensures k in Step(s, e).sockets <==> k in s.sockets
    ensures Step(s, e).Known(k) <==> s.Known(k)
    ensures k in s.sockets ==> Step(s, e).sockets[k].peer == s.sockets[k].peer
  {
  }

  lemma LookupKeepsInv(s: State, k: Subscriber)
    requires Inv(s) && k in s.sockets
    ensures Inv(LookedUp(s, k))
  {
    var t := LookedUp(s, k);
    assert forall n :: t.Settled(n) <==> s.Settled(n);
    forall c, j | j in t.rs.SubscribersOf(c) ensures t.Known(j) && c == t.sockets[j].peer {
      LookupToggles(s, k, c, j);
      PeersAreFixed(s, Event.Lookup(k), j);
      if j !in s.rs.SubscribersOf(c) {
        assert (c, j) == (s.sockets[k].peer, k);
      }
    }
    forall j | j in t.sockets ensures Quiet(t, j) {
      LookupKeepsQuiet(s, k, j);
    }
  }

  /** Nodes and deliveries leave the server, the connections and untouched sockets as they are. */
  lemma OtherStepsKeepQuiet(s: State, e: Event, k: Subscriber)
    requires (e.Move? || e.Deliver? || e.Drop? || e.Poll?) && k in s.sockets && Quiet(s, k)
    ensures Quiet(Step(s, e), k)
  {
    var t := Step(s, e);
    if NothingSent(s, k) {
      assert forall a :: s.channels(Flow(k, a)) == [] && t.channels(Flow(k, a)) == [];
    }
  }

  lemma OtherStepsKeepServer(s: State, e: Event, n: string)
    requires e.Move? || e.Deliver? || e.Drop? || e.Poll?
    ensures Step(s, e).rs == s.rs && Step(s, e).registrations == s.registrations
    ensures Step(s, e).Settled(n) ==> s.Settled(n) && Step(s, e).nodes[n] == s.nodes[n]
  {
  }

  lemma OtherStepsKeepSettled(s: State, e: Event)
    requires SettledIsRegistered(s) && (e.Move? || e.Deliver? || e.Drop? || e.Poll?)
    ensures SettledIsRegistered(Step(s, e))
  {
    var t := Step(s, e);
    forall n | t.Settled(n) ensures TextIn(t.rs.registered, n) == IntToIPString(t.nodes[n].location)
      ensures Registration(n, t.nodes[n].location) in t.registrations
    {
      OtherStepsKeepServer(s, e, n);
    }
  }

  lemma OtherStepsKeepInv(s: State, e: Event)
    requires Inv(s) && (e.Move? || e.Deliver? || e.Drop? || e.Poll?)
    ensures Inv(Step(s, e))
  {
    var t := Step(s, e);
    OtherStepsKeepSettled(s, e);
    forall c, k | k in t.rs.SubscribersOf(c) ensures t.Known(k) && c == t.sockets[k].peer {
      OtherStepsKeepServer(s, e, k.name);
      PeersAreFixed(s, e, k);
    }
    forall k | k in t.sockets ensures k.name in t.nodes && Quiet(t, k) {
      PeersAreFixed(s, e, k);
      OtherStepsKeepQuiet(s, e, k);
    }
  }

  lemma StepKeepsInv(s: State, e: Event)
    requires Inv(s)
    ensures Inv(Step(s, e))
  {
    match e {
      case Register(n) => if n in s.nodes { RegisterKeepsInv(s, n); }
      case Lookup(k) => if k in s.sockets { LookupKeepsInv(s, k); }
      case _ => OtherStepsKeepInv(s, e);
    }
  }

  lemma {:induction false} EveryRunKeepsInv(start: State, run: seq<Event>)
    requires Initial(start)
    ensures Inv(After(start, run))
    decreases |run|
  {
    if run == [] {
      EveryRunStartsWell(start);
    } else {
      EveryRunKeepsInv(start, run[..|run| - 1]);
      StepKeepsInv(After(start, run[..|run| - 1]), run[|run| - 1]);
    }
  }

  lemma EveryRunStartsWell(start: State)
    requires Initial(start)
    ensures Inv(start)
  {
    forall k | k in start.sockets ensures NothingSent(start, k) {
    }
  }

  // ----- What a socket will know -----

  /** The address that the server has for a socket's peer. */
  function Entry(s: State, k: Subscriber): Address
    requires s.Known(k)
  {
    IpValue(TextIn(s.rs.registered, s.sockets[k].peer))
  }

  /** Once its updates are read, the socket has the address that the server has for its peer. */
  ghost predicate Current(s: State, k: Subscriber) {
    s.Connected(k) && s.View(k) == Entry(s, k)
  }

  ghost predicate Coherent(s: State, k: Subscriber) { s.Settled(k.name) && Current(s, k) }

  lemma DeliveryKeepsUnread(s: State, k: Subscriber)
    requires s.Known(k) && s.channels(s.Live(k)) != []
    ensures Delivered(s, k).Unread(k) == s.Unread(k)
  {
    var channel := s.channels(s.Live(k));
    assert channel == [channel[0]] + channel[1..];
    assert Delivered(s, k).channels(s.Live(k)) == channel[1..];
  }

  lemma PollTakesFirstUnread(s: State, k: Subscriber)
    requires s.Known(k) && s.sockets[k].stored.Some? && s.sockets[k].queue != []
    ensures s.Unread(k) == [s.sockets[k].queue[0]] + Polled(s, k).Unread(k)
  {
  }

  lemma DeliverKeepsView(s: State, j: Subscriber, k: Subscriber)
    requires s.Connected(k)
    ensures Delivered(s, j).Connected(k) && Delivered(s, j).View(k) == s.View(k)
  {
    if j == k && s.channels(s.Live(k)) != [] {
      DeliveryKeepsUnread(s, k);
    } else {
      assert Delivered(s, j).Unread(k) == s.Unread(k);
    }
  }

  lemma DropKeepsView(s: State, f: Flow, k: Subscriber)
    requires s.Connected(k)
    ensures Dropped(s, f).Connected(k) && Dropped(s, f).View(k) == s.View(k)
  {
    assert Dropped(s, f).Unread(k) == s.Unread(k);
  }

  lemma PollKeepsView(s: State, j: Subscriber, k: Subscriber)
    requires s.Connected(k)
    ensures Polled(s, j).Connected(k) && Polled(s, j).View(k) == s.View(k)
  {
    if j == k && s.sockets[k].queue != [] {
      PollTakesFirstUnread(s, k);
    } else {
      assert Polled(s, j).Unread(k) == s.Unread(k);
    }
  }

  lemma TransportKeepsView(s: State, e: Event, k: Subscriber)
    requires s.Connected(k) && (e.Deliver? || e.Drop? || e.Poll?)
    ensures Step(s, e).Connected(k) && Step(s, e).View(k) == s.View(k)
  {
    match e {
      case Deliver(j) =>
        assert Step(s, e) == Delivered(s, j);
        DeliverKeepsView(s, j, k);
      case Drop(f) =>
        assert Step(s, e) == Dropped(s, f);
        DropKeepsView(s, f, k);
      case Poll(j) =>
        assert Step(s, e) == Polled(s, j);
        PollKeepsView(s, j, k);
    }
  }

  lemma LookupKeepsView(s: State, j: Subscriber, k: Subscriber)
    requires s.Connected(k)
    ensures var t := LookedUp(s, j); t.Connected(k) && t.View(k) == s.View(k)
  {
    if j in s.sockets {
      LookupToggles(s, j, s.sockets[k].peer, k);
    }
  }

  /** Whether the server would send an update to where the subscriber is, were `n` to register. */
  predicate Reaches(s: State, n: string, k: Subscriber)
    requires s.Known(k)
  {
    n == k.name || IpValue(TextIn(s.rs.registered, k.name)) == s.nodes[k.name].location
  }

  lemma UnreadAfterRegister(s: State, n: string, k: Subscriber)
    requires Inv(s) && n in s.nodes && s.Connected(k)
    ensures Registered(s, n).Connected(k)
    ensures Registered(s, n).Unread(k) == s.Unread(k) +
      if n == s.sockets[k].peer && Reaches(s, n, k) then [IntToIPString(s.nodes[n].location)] else []
  {
    TextAfterUpdate(s.rs, n, IntToIPString(s.nodes[n].location), s.sockets[k].peer);
    SentTo(s, n, s.Live(k));
    assert Registered(s, n).Live(k) == s.Live(k);
  }

  /**
   * A registration changes what exactly its subscribers will know, and each of them only if the
   * server has it registered where it is.
   */
  lemma RegisterReachesIff(s: State, n: string, k: Subscriber)
    requires Inv(s) && n in s.nodes && s.Connected(k)
    ensures Registered(s, n).Connected(k)
    ensures Registered(s, n).View(k) ==
      if n == s.sockets[k].peer && Reaches(s, n, k) then s.nodes[n].location else s.View(k)
  {
    UnreadAfterRegister(s, n, k);
    PushRoundTrip(s.nodes[n].location);
  }

  lemma RegisterKeepsCoherence(s: State, n: string, k: Subscriber)
    requires Inv(s) && n in s.nodes && s.Connected(k) && s.Settled(k.name)
    requires n == s.sockets[k].peer || Coherent(s, k)
    ensures Coherent(Registered(s, n), k)
  {
    RegisterReachesIff(s, n, k);
    TextAfterUpdate(s.rs, n, IntToIPString(s.nodes[n].location), s.sockets[k].peer);
    AddressRoundTrip(s.nodes[n].location);
    AddressRoundTrip(s.nodes[k.name].location);
  }

  lemma OtherMovesKeepCurrent(s: State, n: string, to: Address, k: Subscriber)
    requires n != k.name
    ensures Current(Moved(s, n, to), k) <==> Current(s, k)
  {
    if s.Known(k) {
      assert Moved(s, n, to).Unread(k) == s.Unread(k);
    }
  }

  lemma OtherRegistrationsKeepCurrent(s: State, n: string, k: Subscriber)
    requires Inv(s) && n in s.nodes && s.Known(k) && n != s.sockets[k].peer
    ensures Current(Registered(s, n), k) <==> Current(s, k)
  {
    TextAfterUpdate(s.rs, n, IntToIPString(s.nodes[n].location), s.sockets[k].peer);
    if s.Connected(k) {
      RegisterReachesIff(s, n, k);
    }
  }

  lemma LookupKeepsCurrent(s: State, j: Subscriber, k: Subscriber)
    requires s.Connected(k)
    ensures Current(LookedUp(s, j), k) <==> Current(s, k)
  {
    LookupKeepsView(s, j, k);
  }

  /** Transport changes neither the server, nor the nodes, nor whether a socket is connected. */
  lemma TransportTouchesLittle(s: State, e: Event, k: Subscriber)
    requires e.Deliver? || e.Drop? || e.Poll?
    ensures Step(s, e).rs == s.rs && Step(s, e).nodes == s.nodes
    ensures Step(s, e).Connected(k) <==> s.Connected(k)
    ensures k in s.sockets ==> k in Step(s, e).sockets && Step(s, e).sockets[k].peer == s.sockets[k].peer
  {
  }

  lemma TransportKeepsCurrent(s: State, e: Event, k: Subscriber)
    requires e.Deliver? || e.Drop? || e.Poll?
    ensures Current(Step(s, e), k) <==> Current(s, k)
    ensures Step(s, e).Settled(k.name) <==> s.Settled(k.name)
  {
    TransportTouchesLittle(s, e, k);
    if s.Connected(k) {
      TransportKeepsView(s, e, k);
      SameEntry(s, Step(s, e), k);
    }
  }

  lemma SameEntry(s: State, t: State, k: Subscriber)
    requires s.Known(k) && t.Known(k) && t.rs == s.rs && t.sockets[k].peer == s.sockets[k].peer
    ensures Entry(t, k) == Entry(s, k)
  {
  }

  lemma OtherMovesKeepCoherence(s: State, n: string, to: Address, k: Subscriber)
    requires Coherent(s, k) && n != k.name
    ensures Coherent(Moved(s, n, to), k)
  {
    OtherMovesKeepCurrent(s, n, to, k);
  }

  lemma LookupKeepsCoherence(s: State, j: Subscriber, k: Subscriber)
    requires Coherent(s, k)
    ensures Coherent(LookedUp(s, j), k)
  {
    LookupKeepsCurrent(s, j, k);
  }

  /** Push-cache coherence: a step other than a move of the subscriber keeps it. */
  lemma CoherenceIsKept(s: State, e: Event, k: Subscriber)
    requires Inv(s) && Coherent(s, k) && !(e.Move? && e.name == k.name)
    ensures Coherent(Step(s, e), k)
  {
    match e {
      case Move(n, to) => OtherMovesKeepCoherence(s, n, to, k);
      case Register(n) => if n in s.nodes { RegisterKeepsCoherence(s, n, k); }
      case Lookup(j) => LookupKeepsCoherence(s, j, k);
      case _ => TransportKeepsCurrent(s, e, k);
    }
  }

  /** The lookup that connects a socket makes it current, if it left it subscribed. */
  lemma ConnectingIsCurrent(s: State, k: Subscriber)
    requires Inv(s) && !s.Connected(k) && LookedUp(s, k).Connected(k)
    ensures Current(LookedUp(s, k), k)
  {
    LookupToggles(s, k, s.sockets[k].peer, k);
    assert Quiet(s, k) && s.sockets[k].stored.None?;
    assert NothingSent(s, k);
    assert LookedUp(s, k).Unread(k) == [];
  }

  lemma {:induction false} CoherenceOverRuns(s: State, run: seq<Event>, k: Subscriber)
    requires Inv(s) && Coherent(s, k) && forall i, to :: 0 <= i < |run| ==> run[i] != Move(k.name, to)
    ensures Inv(After(s, run)) && Coherent(After(s, run), k)
    decreases |run|
  {
    if run != [] {
      var init := run[..|run| - 1];
      CoherenceOverRuns(s, init, k);
      StepKeepsInv(After(s, init), run[|run| - 1]);
      CoherenceIsKept(After(s, init), run[|run| - 1], k);
    }
  }

  // ----- Simultaneous mobility -----

  /** The server processed the last registration of `a` before one of `b`. */
  ghost predicate Earlier(registrations: seq<Registration>, a: string, b: string) {
    exists i :: 0 <= i < |registrations| && registrations[i].name == b &&
      forall j :: i <= j < |registrations| ==> registrations[j].name != a
  }

  lemma EarlierAfterOneMore(registrations: seq<Registration>, r: Registration, a: string, b: string)
    ensures Earlier(registrations + [r], a, b) <==> r.name != a && (r.name == b || Earlier(registrations, a, b))
  {
    var more := registrations + [r];
    if Earlier(registrations, a, b) && r.name != a {
      var i :| 0 <= i < |registrations| && registrations[i].name == b &&
        forall j :: i <= j < |registrations| ==> registrations[j].name != a;
      assert more[i].name == b;
    }
    if r.name == b != a {
      assert more[|registrations|].name == b;
    }
    if Earlier(more, a, b) {
      var i :| 0 <= i < |more| && more[i].name == b && forall j :: i <= j < |more| ==> more[j].name != a;
      assert more[|registrations|].name != a;
      if r.name != b {
        assert registrations[i].name == b && forall j :: i <= j < |registrations| ==> more[j] == registrations[j];
      }
    }
  }

  /** Of two names that have registered, one was processed last. */
  lemma {:induction false} OneIsEarlier(registrations: seq<Registration>, a: string, b: string)
    requires a != b && exists r :: r in registrations && (r.name == a || r.name == b)
    ensures Earlier(registrations, a, b) <==> !Earlier(registrations, b, a)
    decreases |registrations|
  {
    var init, last := registrations[..|registrations| - 1], registrations[|registrations| - 1];
    assert registrations == init + [last];
    EarlierAfterOneMore(init, last, a, b);
    EarlierAfterOneMore(init, last, b, a);
    if last.name != a && last.name != b {
      OneIsEarlier(init, a, b);
    }
  }

  ghost predicate EarlierKnowsLater(s: State, k: Subscriber) {
    s.Connected(k) && s.Settled(k.name) && Earlier(s.registrations, k.name, s.sockets[k].peer) ==> Coherent(s, k)
  }

  lemma StepKeepsEarlierKnowsLater(s: State, e: Event, k: Subscriber)
    requires Inv(s) && EarlierKnowsLater(s, k)
    ensures EarlierKnowsLater(Step(s, e), k)
  {
    var t := Step(s, e);
    if t.Connected(k) && t.Settled(k.name) && Earlier(t.registrations, k.name, t.sockets[k].peer) {
      PeersAreFixed(s, e, k);
      var peer := s.sockets[k].peer;
      match e {
        case Register(n) =>
          if n in s.nodes {
            EarlierAfterOneMore(s.registrations, Registration(n, s.nodes[n].location), k.name, peer);
            TextAfterUpdate(s.rs, n, IntToIPString(s.nodes[n].location), peer);
            RegisterKeepsCoherence(s, n, k);
          }
        case Lookup(j) =>
          if !s.Connected(k) {
            OnlyOwnLookupConnects(s, j, k);
            ConnectingIsCurrent(s, k);
          } else {
            CoherenceIsKept(s, e, k);
          }
        case _ => CoherenceIsKept(s, e, k);
      }
    }
  }

  lemma OnlyOwnLookupConnects(s: State, j: Subscriber, k: Subscriber)
    requires !s.Connected(k) && LookedUp(s, j).Connected(k)
    ensures j == k
  {
    if j in s.sockets {
      LookupToggles(s, j, s.sockets[k].peer, k);
    }
  }

  lemma {:induction false} EveryRunKeepsEarlierKnowsLater(start: State, run: seq<Event>, k: Subscriber)
    requires Initial(start)
    ensures EarlierKnowsLater(After(start, run), k)
    decreases |run|
  {
    if run != [] {
      var init := run[..|run| - 1];
      EveryRunKeepsInv(start, init);
      EveryRunKeepsEarlierKnowsLater(start, init, k);
      StepKeepsEarlierKnowsLater(After(start, init), run[|run| - 1], k);
    }
  }

  /** Two sockets of different nodes that are connected, subscribed and each other's peer. */
  ghost predicate Mutual(s: State, a: Subscriber, b: Subscriber) {
    && s.Connected(a) && s.Connected(b) && a.name != b.name
    && s.sockets[a].peer == b.name && s.sockets[b].peer == a.name
  }

  /** The socket sends, or will once it has read everything, to where its peer is. */
  ghost predicate WillReach(s: State, k: Subscriber)
    requires s.Connected(k) && s.sockets[k].peer in s.nodes
  {
    s.View(k) == s.nodes[s.sockets[k].peer].location
  }

  /**
   * Simultaneous mobility: whatever moves there were, once both nodes have registered since their
   * last, the one whose registration was processed earlier reaches the other, and one was.
   */
  lemma EarlierRegistrantReachesLater(s: State, a: Subscriber, b: Subscriber)
    requires Reachable(s) && Mutual(s, a, b) && s.Settled(a.name) && s.Settled(b.name)
    ensures Earlier(s.registrations, a.name, b.name) <==> !Earlier(s.registrations, b.name, a.name)
    ensures Earlier(s.registrations, a.name, b.name) ==> WillReach(s, a)
    ensures Earlier(s.registrations, b.name, a.name) ==> WillReach(s, b)
  {
    var start, run :| Initial(start) && s == After(start, run);
    EveryRunKeepsInv(start, run);
    EveryRunKeepsEarlierKnowsLater(start, run, a);
    EveryRunKeepsEarlierKnowsLater(start, run, b);
    AddressRoundTrip(s.nodes[a.name].location);
    AddressRoundTrip(s.nodes[b.name].location);
    OneIsEarlier(s.registrations, a.name, b.name);
  }

  /** Deliveries and polls alone bring a socket to the address that it will send to. */
  lemma {:induction false} Settle(s: State, k: Subscriber) returns (run: seq<Event>)
    requires s.Connected(k)
    ensures forall i :: 0 <= i < |run| ==> run[i] in {Deliver(k), Poll(k)}
    ensures var t := After(s, run);
      t.Connected(k) && t.Unread(k) == [] && t.sockets[k].stored == Some(s.View(k)) && t.nodes == s.nodes
    decreases |s.channels(s.Live(k))|, |s.sockets[k].queue|
  {
    if s.Unread(k) == [] {
      return [];
    }
    var e := if s.channels(s.Live(k)) != [] then Deliver(k) else Poll(k);
    TransportKeepsView(s, e, k);
    var rest := Settle(Step(s, e), k);
    Runs.AfterFirst(Step, s, e, rest);
    run := [e] + rest;
  }

  /** In every quiescent state one of the two holds the other's location: the earlier registrant does. */
  lemma QuiescentNodesKeepContact(s: State, a: Subscriber, b: Subscriber)
    requires Reachable(s) && Mutual(s, a, b) && s.Settled(a.name) && s.Settled(b.name)
    requires s.Unread(a) == [] && s.Unread(b) == []
    ensures Earlier(s.registrations, a.name, b.name) ==> s.sockets[a].stored == Some(s.nodes[b.name].location)
    ensures s.sockets[a].stored == Some(s.nodes[b.name].location) || s.sockets[b].stored == Some(s.nodes[a.name].location)
  {
    EarlierRegistrantReachesLater(s, a, b);
  }

  /** And reading what has been sent to it is all that the earlier registrant has to do. */
  lemma EarlierRegistrantSettles(s: State, a: Subscriber, b: Subscriber) returns (run: seq<Event>)
    requires Reachable(s) && Mutual(s, a, b) && s.Settled(a.name) && s.Settled(b.name)
    requires Earlier(s.registrations, a.name, b.name)
    ensures forall i :: 0 <= i < |run| ==> run[i] in {Deliver(a), Poll(a)}
    ensures a in After(s, run).sockets && After(s, run).sockets[a].stored == Some(s.nodes[b.name].location)
  {
    EarlierRegistrantReachesLater(s, a, b);
    run := Settle(s, a);
  }

  // ----- The other node -----

  /** In step: connected to each other, settled, and with nothing under way to either. */
  ghost predicate InStep(s: State, a: Subscriber, b: Subscriber) {
    && Mutual(s, a, b) && s.Settled(a.name) && s.Settled(b.name)
    && NothingSent(s, a) && NothingSent(s, b)
  }

  /**
   * The one-sidedness is exact. Let two nodes that are in step both move, and register in turn: the
   * second to register is always reached, and reaches the first exactly when one of the moves led
   * nowhere new. Otherwise the first registration is sent to where the second node no longer is.
   */
  lemma SimultaneousMoveLosesOneIff(s: State, a: Subscriber, b: Subscriber, la: Address, lb: Address)
    requires Inv(s) && InStep(s, a, b) && s.sockets[b].stored == Some(s.nodes[a.name].location)
    ensures var t := Registered(Registered(Moved(Moved(s, a.name, la), b.name, lb), a.name), b.name);
      && Mutual(t, a, b) && t.Settled(a.name) && t.Settled(b.name) && WillReach(t, a)
      && (WillReach(t, b) <==> la == s.nodes[a.name].location || lb == s.nodes[b.name].location)
  {
    var s1 := Moved(s, a.name, la);
    var s2 := Moved(s1, b.name, lb);
    StepKeepsInv(s, Move(a.name, la));
    StepKeepsInv(s1, Move(b.name, lb));
    assert s2.Unread(a) == [] && s2.Unread(b) == [];
    AddressRoundTrip(s.nodes[b.name].location);
    var s3 := Registered(s2, a.name);
    RegisterReachesIff(s2, a.name, a);
    RegisterReachesIff(s2, a.name, b);
    StepKeepsInv(s2, Event.Register(a.name));
    TextAfterUpdate(s2.rs, a.name, IntToIPString(la), a.name);
    AddressRoundTrip(la);
    RegisterReachesIff(s3, b.name, a);
    RegisterReachesIff(s3, b.name, b);
  }

  /** Every pair of sockets that have each other's node as peer can get in step. */
  lemma PairsGetInStep(start: State, a: Subscriber, b: Subscriber)
    requires Initial(start) && a in start.sockets && b in start.sockets && a.name != b.name
    requires start.sockets[a].peer == b.name && start.sockets[b].peer == a.name
    ensures var t := LookedUp(LookedUp(Registered(Registered(start, a.name), b.name), a), b);
      InStep(t, a, b) && t.sockets[b].stored == Some(t.nodes[a.name].location)
  {
    var la, lb := start.nodes[a.name].location, start.nodes[b.name].location;
    var s1 := Registered(start, a.name);
    var s2 := Registered(s1, b.name);
    TextAfterUpdate(start.rs, a.name, IntToIPString(la), a.name);
    TextAfterUpdate(s1.rs, b.name, IntToIPString(lb), a.name);
    TextAfterUpdate(s1.rs, b.name, IntToIPString(lb), b.name);
    EmptyTextIsNoAddress(la);
    EmptyTextIsNoAddress(lb);
    AddressRoundTrip(la);
    forall f ensures s2.channels(f) == [] {
      SentTo(start, a.name, f);
      SentTo(s1, b.name, f);
    }
    forall k ensures k !in s2.rs.SubscribersOf(a.name) && k !in s2.rs.SubscribersOf(b.name) {
    }
    var s3 := LookedUp(s2, a);
    LookupToggles(s2, a, b.name, a);
    LookupToggles(s2, a, a.name, b);
    LookupToggles(s3, b, b.name, a);
    LookupToggles(s3, b, a.name, b);
  }

  // ----- Where addresses come from -----

  /** The text of an address that the name registered from. */
  ghost predicate Came(s: State, n: string, text: string) {
    text == IntToIPString(PushedAddress(text)) && Registration(n, PushedAddress(text)) in s.registrations
  }

  ghost predicate TracedName(s: State, n: string) {
    TextIn(s.rs.registered, n) == "" || Came(s, n, TextIn(s.rs.registered, n))
  }

  ghost predicate TracedSocket(s: State, k: Subscriber)
    requires k in s.sockets
  {
    var socket := s.sockets[k];
    && (socket.stored.Some? ==> Registration(socket.peer, socket.stored.value) in s.registrations)
    && (forall text :: text in socket.queue ==> Came(s, socket.peer, text))
    && forall a, text :: text in s.channels(Flow(k, a)) ==> Came(s, socket.peer, text)
  }

  ghost predicate Traced(s: State) {
    (forall n :: TracedName(s, n)) && forall k :: k in s.sockets ==> TracedSocket(s, k)
  }

  lemma RegisterKeepsTraced(s: State, n: string)
    requires Inv(s) && Traced(s) && n in s.nodes
    ensures Traced(Registered(s, n))
  {
    var t, text := Registered(s, n), IntToIPString(s.nodes[n].location);
    PushRoundTrip(s.nodes[n].location);
    assert Came(t, n, text);
    assert forall m, x :: Came(s, m, x) ==> Came(t, m, x);
    forall m ensures TracedName(t, m) {
      TextAfterUpdate(s.rs, n, text, m);
      assert TracedName(s, m);
    }
    forall k | k in t.sockets ensures TracedSocket(t, k) {
      assert TracedSocket(s, k);
      forall a ensures t.channels(Flow(k, a)) == s.channels(Flow(k, a)) +
        if k in s.rs.SubscribersOf(n) && t.channels(Flow(k, a)) != s.channels(Flow(k, a)) then [text] else []
      {
        SentTo(s, n, Flow(k, a));
      }
    }
  }

  lemma StepKeepsTraced(s: State, e: Event)
    requires Inv(s) && Traced(s)
    ensures Traced(Step(s, e))
  {
    var t := Step(s, e);
    if e.Register? {
      if e.name in s.nodes { RegisterKeepsTraced(s, e.name); }
    } else {
      assert t.registrations == s.registrations && t.rs.registered == s.rs.registered;
      forall n ensures TracedName(t, n) {
        assert TracedName(s, n);
      }
      forall k | k in t.sockets ensures TracedSocket(t, k) {
        OtherStepsKeepSocketTraced(s, e, k);
      }
    }
  }

  lemma LookupKeepsSocketTraced(s: State, j: Subscriber, k: Subscriber)
    requires k in s.sockets && TracedSocket(s, k) && TracedName(s, s.sockets[k].peer)
    ensures TracedSocket(LookedUp(s, j), k)
  {
    var t, peer := LookedUp(s, j), s.sockets[k].peer;
    SameArrivals(s, t, peer);
    LookupKeepsTexts(s, j, k);
    FoundWasRegistered(s, peer);
  }

  lemma SameArrivals(s: State, t: State, n: string)
    requires t.registrations == s.registrations
    ensures forall text :: Came(s, n, text) <==> Came(t, n, text)
  {
  }

  lemma LookupKeepsTexts(s: State, j: Subscriber, k: Subscriber)
    requires k in s.sockets
    ensures LookedUp(s, j).channels == s.channels && LookedUp(s, j).sockets[k].queue == s.sockets[k].queue
    ensures LookedUp(s, j).sockets[k].peer == s.sockets[k].peer
    ensures LookedUp(s, j).sockets[k].stored == s.sockets[k].stored || LookedUp(s, j).sockets[k].stored ==
      (var text := TextIn(s.rs.registered, s.sockets[k].peer); if text == "" then None else Some(IpValue(text)))
  {
  }

  lemma FoundWasRegistered(s: State, n: string)
    requires TracedName(s, n)
    ensures var text := TextIn(s.rs.registered, n);
      text != "" ==> Registration(n, IpValue(text)) in s.registrations
  {
    AddressRoundTrip(PushedAddress(TextIn(s.rs.registered, n)));
  }

  lemma DeliverKeepsSocketTraced(s: State, j: Subscriber, k: Subscriber)
    requires k in s.sockets && TracedSocket(s, k)
    ensures TracedSocket(Delivered(s, j), k)
  {
    var t, peer := Delivered(s, j), s.sockets[k].peer;
    assert forall text :: Came(s, peer, text) <==> Came(t, peer, text);
    assert forall a, text :: text in t.channels(Flow(k, a)) ==> text in s.channels(Flow(k, a));
    if j == k && s.Known(k) && s.channels(s.Live(k)) != [] {
      assert s.channels(s.Live(k))[0] in s.channels(s.Live(k));
    }
  }

  lemma PollKeepsSocketTraced(s: State, j: Subscriber, k: Subscriber)
    requires k in s.sockets && TracedSocket(s, k)
    ensures TracedSocket(Polled(s, j), k)
  {
    assert forall text :: Came(s, s.sockets[k].peer, text) <==> Came(Polled(s, j), s.sockets[k].peer, text);
    assert s.sockets[k].queue != [] ==> s.sockets[k].queue[0] in s.sockets[k].queue;
  }

  lemma DropKeepsSocketTraced(s: State, f: Flow, k: Subscriber)
    requires k in s.sockets && TracedSocket(s, k)
    ensures TracedSocket(Dropped(s, f), k)
  {
    var t := Dropped(s, f);
    assert forall text :: Came(s, s.sockets[k].peer, text) <==> Came(t, s.sockets[k].peer, text);
    assert forall a, text :: text in t.channels(Flow(k, a)) ==> text in s.channels(Flow(k, a));
  }

  /** Steps other than registrations only move updates along. */
  lemma OtherStepsKeepSocketTraced(s: State, e: Event, k: Subscriber)
    requires !e.Register? && k in s.sockets && TracedSocket(s, k) && TracedName(s, s.sockets[k].peer)
    ensures TracedSocket(Step(s, e), k)
  {
    match e {
      case Move(n, to) =>
        assert forall text :: Came(s, s.sockets[k].peer, text) <==> Came(Moved(s, n, to), s.sockets[k].peer, text);
      case Lookup(j) => LookupKeepsSocketTraced(s, j, k);
      case Deliver(j) => DeliverKeepsSocketTraced(s, j, k);
      case Drop(f) => DropKeepsSocketTraced(s, f, k);
      case Poll(j) => PollKeepsSocketTraced(s, j, k);
    }
  }

  lemma {:induction false} EveryRunKeepsTraced(start: State, run: seq<Event>)
    requires Initial(start)
    ensures Traced(After(start, run))
    decreases |run|
  {
    if run != [] {
      EveryRunKeepsInv(start, run[..|run| - 1]);
      EveryRunKeepsTraced(start, run[..|run| - 1]);
      StepKeepsTraced(After(start, run[..|run| - 1]), run[|run| - 1]);
    }
  }

  /** Provenance: in every run, an address that a socket sends to is one its peer registered from. */
  lemma StoredAddressWasRegistered(s: State, k: Subscriber)
    requires Reachable(s) && k in s.sockets && s.sockets[k].stored.Some?
    ensures Registration(s.sockets[k].peer, s.sockets[k].stored.value) in s.registrations
  {
    var start, run :| Initial(start) && s == After(start, run);
    EveryRunKeepsTraced(start, run);
    assert TracedSocket(s, k);
  }
}
