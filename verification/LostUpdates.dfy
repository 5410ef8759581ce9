/** When an update is lost (SimpleRendezvousServer.cc, SimpleMobileNode.cc). */
module LostUpdates {
  // The exact effect of every step on what a socket will know, the step that decides it in a run,
  // and so exactly when the node that registered last, of two that both move, still reaches the
  // other.

  import opened IpAddress
  import opened Mobility
  import Rendezvous

  type Subscriber = Rendezvous.Subscriber

  // ----- Moves -----

  /** What a socket has yet to read if its node is at an address. */
  function UnreadAt(s: State, k: Subscriber, to: Address): seq<string>
    requires s.Known(k)
  {
    s.sockets[k].queue + s.channels(Flow(k, to))
  }

  /** A node that moves leaves behind what is under way to it, and finds what is under way to where it goes. */
  lemma MoveChangesView(s: State, k: Subscriber, to: Address)
    requires s.Connected(k)
    ensures Moved(s, k.name, to).Connected(k)
    ensures Moved(s, k.name, to).View(k) == LastRead(s.sockets[k].stored.value, UnreadAt(s, k, to))
  {
    assert Moved(s, k.name, to).Unread(k) == UnreadAt(s, k, to);
  }

  /**
   * Moving to where nothing is under way keeps what a socket will know exactly if nothing was under
   * way to where it was, or if the last of that only repeats what it has or holds already.
   */
  lemma MoveKeepsViewIff(s: State, k: Subscriber, to: Address)
    requires s.Connected(k) && s.channels(Flow(k, to)) == []
    ensures var channel, socket := s.channels(s.Live(k)), s.sockets[k];
      Moved(s, k.name, to).View(k) == s.View(k) <==>
        channel == [] || PushedAddress(channel[|channel| - 1]) == LastRead(socket.stored.value, socket.queue)
  {
    var channel, queue := s.channels(s.Live(k)), s.sockets[k].queue;
    MoveChangesView(s, k, to);
    assert UnreadAt(s, k, to) == queue;
    assert channel == [] ==> s.Unread(k) == queue;
    assert channel != [] ==> s.Unread(k)[|s.Unread(k)| - 1] == channel[|channel| - 1];
  }

  // ----- The effect of one step -----

  /** The steps that decide whether a socket is current: its node's moves, its peer's registrations, and connecting. */
  predicate Decides(s: State, e: Event, k: Subscriber)
    requires s.Known(k)
  {
    match e
    case Move(n, _) => n == k.name
    case Register(n) => n in s.nodes && n == s.sockets[k].peer
    case Lookup(j) => j == k && !s.Connected(k) && LookedUp(s, k).Connected(k)
    case _ => false
  }

  /** What they decide. Everything is told from the state before the step. */
  ghost predicate KeepsCurrent(s: State, e: Event, k: Subscriber)
    requires s.Known(k)
  {
    match e
    case Move(_, to) => s.Connected(k) && LastRead(s.sockets[k].stored.value, UnreadAt(s, k, to)) == Entry(s, k)
    case Register(n) => s.Connected(k) && n in s.nodes && (Reaches(s, n, k) || s.View(k) == s.nodes[n].location)
    case _ => true
  }

  lemma PeerRegisters(s: State, n: string, k: Subscriber)
    requires Inv(s) && s.Known(k) && n in s.nodes && n == s.sockets[k].peer
    ensures Current(Registered(s, n), k) <==> KeepsCurrent(s, Event.Register(n), k)
  {
    TextAfterUpdate(s.rs, n, IntToIPString(s.nodes[n].location), n);
    AddressRoundTrip(s.nodes[n].location);
    if s.Connected(k) {
      RegisterReachesIff(s, n, k);
    }
  }

  lemma SubscriberMoves(s: State, to: Address, k: Subscriber)
    requires s.Known(k)
    ensures Current(Moved(s, k.name, to), k) <==> KeepsCurrent(s, Move(k.name, to), k)
  {
    if s.Connected(k) {
      MoveChangesView(s, k, to);
    }
  }

  lemma LookupDecides(s: State, j: Subscriber, k: Subscriber)
    requires Inv(s) && s.Known(k)
    ensures Current(LookedUp(s, j), k) <==> Decides(s, Event.Lookup(j), k) || Current(s, k)
  {
    if s.Connected(k) {
      LookupKeepsCurrent(s, j, k);
    } else if LookedUp(s, j).Connected(k) {
      OnlyOwnLookupConnects(s, j, k);
      ConnectingIsCurrent(s, k);
    }
  }

  /** The exact effect of any step: the deciding ones decide, and no other makes a difference. */
  lemma StepDecidesIff(s: State, e: Event, k: Subscriber)
    requires Inv(s) && s.Known(k)
    ensures Current(Step(s, e), k) <==> if Decides(s, e, k) then KeepsCurrent(s, e, k) else Current(s, k)
  {
    match e {
      case Move(n, to) =>
        if n == k.name {
          SubscriberMoves(s, to, k);
        } else {
          OtherMovesKeepCurrent(s, n, to, k);
        }
      case Register(n) =>
        if n in s.nodes && n == s.sockets[k].peer {
          PeerRegisters(s, n, k);
        } else if n in s.nodes {
          OtherRegistrationsKeepCurrent(s, n, k);
        }
      case Lookup(j) => LookupDecides(s, j, k);
      case _ => TransportKeepsCurrent(s, e, k);
    }
  }

  // ----- The effect of a run -----

  lemma {:induction false} SocketsStay(start: State, run: seq<Event>, k: Subscriber)
    ensures After(start, run).Known(k) <==> start.Known(k)
    ensures k in After(start, run).sockets <==> k in start.sockets
    ensures k in start.sockets ==> After(start, run).sockets[k].peer == start.sockets[k].peer
    decreases |run|
  {
    if run != [] {
      SocketsStay(start, run[..|run| - 1], k);
      PeersAreFixed(After(start, run[..|run| - 1]), run[|run| - 1], k);
    }
  }

  ghost predicate DecidesAt(start: State, run: seq<Event>, k: Subscriber, i: nat)
    requires i < |run|
  {
    After(start, run[..i]).Known(k) && Decides(After(start, run[..i]), run[i], k)
  }

  /** The last step of the run that decides about the socket. */
  ghost predicate LastDecision(start: State, run: seq<Event>, k: Subscriber, d: nat) {
    d < |run| && DecidesAt(start, run, k, d) && forall i: nat :: d < i < |run| ==> !DecidesAt(start, run, k, i)
  }

  lemma DecidesEarlier(start: State, run: seq<Event>, k: Subscriber, i: nat)
    requires i < |run| - 1
    ensures DecidesAt(start, run, k, i) <==> DecidesAt(start, run[..|run| - 1], k, i)
  {
    var init := run[..|run| - 1];
    assert run[..i] == init[..i] && run[i] == init[i];
    assert After(start, run[..i]) == After(start, init[..i]);
  }

  lemma LastDecisionOfInit(start: State, run: seq<Event>, k: Subscriber, d: nat)
    requires LastDecision(start, run, k, d) && d < |run| - 1
    ensures LastDecision(start, run[..|run| - 1], k, d) && !DecidesAt(start, run, k, |run| - 1)
  {
    var init := run[..|run| - 1];
    DecidesEarlier(start, run, k, d);
    forall i: nat | d < i < |run| - 1 ensures !DecidesAt(start, init, k, i) {
      DecidesEarlier(start, run, k, i);
    }
    assert !DecidesAt(start, run, k, |run| - 1);
  }

  /** Whether a socket is current after a run was decided by the last deciding step. */
  lemma {:induction false} CurrentIsDecidedLast(start: State, run: seq<Event>, k: Subscriber, d: nat)
    requires Initial(start) && k in start.sockets && LastDecision(start, run, k, d)
    ensures After(start, run[..d]).Known(k)
    ensures Current(After(start, run), k) <==> KeepsCurrent(After(start, run[..d]), run[d], k)
    decreases |run|
  {
    var init := run[..|run| - 1];
    EveryRunKeepsInv(start, init);
    SocketsStay(start, init, k);
    StepDecidesIff(After(start, init), run[|run| - 1], k);
    if d < |run| - 1 {
      LastDecisionOfInit(start, run, k, d);
      CurrentIsDecidedLast(start, init, k, d);
      assert run[..d] == init[..d];
    }
  }

  /** A socket that is connected has had a deciding step. */
  lemma {:induction false} SomeStepDecided(start: State, run: seq<Event>, k: Subscriber) returns (d: nat)
    requires Initial(start) && k in start.sockets && After(start, run).Connected(k)
    ensures LastDecision(start, run, k, d)
    decreases |run|
  {
    NothingStartsConnected(start, run, k);
    if DecidesAt(start, run, k, |run| - 1) {
      return |run| - 1;
    }
    ConnectedBefore(start, run, k);
    d := SomeStepDecided(start, run[..|run| - 1], k);
    LastDecisionOfAll(start, run, k, d);
  }

  lemma NothingStartsConnected(start: State, run: seq<Event>, k: Subscriber)
    requires Initial(start) && After(start, run).Connected(k)
    ensures run != []
  {
    assert run == [] ==> After(start, run) == start;
  }

  lemma ConnectedBefore(start: State, run: seq<Event>, k: Subscriber)
    requires Initial(start) && k in start.sockets && run != [] && After(start, run).Connected(k)
    requires !DecidesAt(start, run, k, |run| - 1)
    ensures After(start, run[..|run| - 1]).Connected(k)
  {
    var init := run[..|run| - 1];
    EveryRunKeepsInv(start, init);
    SocketsStay(start, init, k);
    UndecidedKeepsConnected(After(start, init), run[|run| - 1], k);
  }

  lemma LastDecisionOfAll(start: State, run: seq<Event>, k: Subscriber, d: nat)
    requires run != [] && LastDecision(start, run[..|run| - 1], k, d) && !DecidesAt(start, run, k, |run| - 1)
    ensures LastDecision(start, run, k, d)
  {
    var init := run[..|run| - 1];
    DecidesEarlier(start, run, k, d);
    forall i: nat | d < i < |run| ensures !DecidesAt(start, run, k, i) {
      if i < |init| {
        DecidesEarlier(start, run, k, i);
        assert !DecidesAt(start, init, k, i);
      }
    }
  }

  lemma UndecidedKeepsConnected(s: State, e: Event, k: Subscriber)
    requires Inv(s) && s.Known(k) && !Decides(s, e, k) && Step(s, e).Connected(k)
    ensures s.Connected(k)
  {
    match e {
      case Lookup(j) => if !s.Connected(k) { OnlyOwnLookupConnects(s, j, k); }
      case Register(n) =>
        if n in s.nodes {
          TextAfterUpdate(s.rs, n, IntToIPString(s.nodes[n].location), s.sockets[k].peer);
        }
      case _ =>
    }
  }

  // ----- Two nodes that both move -----

  /**
   * The one-sidedness is exact, over every run. When both nodes of a pair have registered since their
   * last moves, the one that did so earlier reaches the other; and the other reaches it if and only
   * if its last deciding step kept it current, which can be told before that step: it was connecting,
   * or a registration of the first node that the server could send to where the second was (or that
   * changed nothing), or a move of the second that left no news behind.
   */
  lemma LaterRegistrantReachesIff(start: State, run: seq<Event>, a: Subscriber, b: Subscriber, d: nat)
    requires Initial(start) && LastDecision(start, run, b, d)
    requires var s := After(start, run);
      && Mutual(s, a, b) && s.Settled(a.name) && s.Settled(b.name) && Earlier(s.registrations, a.name, b.name)
    ensures After(start, run[..d]).Known(b)
    ensures WillReach(After(start, run), a)
    ensures WillReach(After(start, run), b) <==> KeepsCurrent(After(start, run[..d]), run[d], b)
  {
    var s := After(start, run);
    SocketsStay(start, run, b);
    EveryRunKeepsInv(start, run);
    EarlierRegistrantReachesLater(s, a, b);
    CurrentIsDecidedLast(start, run, b, d);
    AddressRoundTrip(s.nodes[a.name].location);
  }
}
