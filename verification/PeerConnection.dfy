/**
 * Connecting to a peer (SimpleMobileNode.cc, EchoApp.cc): one lookup through the name service and
 * the rendezvous server, and the loop that retries it while the rest of the world goes on.
 */
module PeerConnection {
  import opened Wrappers
  import opened IpAddress
  import opened Rendezvous
  import Runs

  const MAX_ATTEMPTS: nat := 10

  /** A node with a socket of its own. */
  datatype Node = Node(self: Subscriber, address: Address)

  /** The lookup that the server finds in the node's request for the peer. */
  function Asked(node: Node, peer: string): Event {
    var (subscriber, subscribee) := ParseRequest(Received(RequestText(node.self.name, peer)));
    Lookup(Subscriber(subscriber, node.self.port), subscribee)
  }

  /** That is the node's own lookup of the peer exactly if the request survives (IpAddress). */
  lemma AskedIsOwnIff(node: Node, peer: string)
    ensures Asked(node, peer) == Lookup(node.self, peer) <==> RequestSurvives(node.self.name, peer)
  {
    RequestRoundTripIff(node.self.name, peer);
  }

  // ----- Counting lookups -----

  /** How often the lookup occurs in a run. */
  function Lookups(run: seq<Event>, lookup: Event): nat {
    if run == [] then 0
    else
      var own := run[|run| - 1] == lookup;
      Lookups(run[..|run| - 1], lookup) + if own then 1 else 0
  }

  /** The occurrences that found the client bound to the empty text. */
  ghost function EmptyLookups(r: Registry, run: seq<Event>, lookup: Event): nat
    requires lookup.Lookup?
  {
    if run == [] then 0
    else
      var init := run[..|run| - 1];
      var empty := run[|run| - 1] == lookup && BoundToEmpty(After(r, init), lookup.client);
      EmptyLookups(r, init, lookup) + if empty then 1 else 0
  }

  /** The occurrences that toggled the subscription. */
  function Toggles(r: Registry, run: seq<Event>, lookup: Event): nat
    requires lookup.Lookup?
  {
    EffectiveLookups(r, run, lookup.subscriber, lookup.client)
  }

  ghost predicate IsSubscribed(r: Registry, lookup: Event)
    requires lookup.Lookup?
  {
    Subscribed(r, lookup.subscriber, lookup.client)
  }

  lemma OneMoreEvent(r: Registry, run: seq<Event>, e: Event, lookup: Event)
    requires lookup.Lookup?
    ensures After(r, run + [e]) == Apply(After(r, run), e)
    ensures Lookups(run + [e], lookup) == Lookups(run, lookup) + (if e == lookup then 1 else 0)
    ensures Toggles(r, run + [e], lookup) == Toggles(r, run, lookup)
      + (if e == lookup && lookup.client in After(r, run).registered then 1 else 0)
    ensures EmptyLookups(r, run + [e], lookup) == EmptyLookups(r, run, lookup)
      + (if e == lookup && BoundToEmpty(After(r, run), lookup.client) then 1 else 0)
  {
    assert (run + [e])[..|run|] == run;
  }

  /** Two runs in which the lookup had the same effects. */
  ghost predicate SameLookups(r: Registry, run: seq<Event>, run': seq<Event>, lookup: Event)
    requires lookup.Lookup?
  {
    && Lookups(run', lookup) == Lookups(run, lookup) && Toggles(r, run', lookup) == Toggles(r, run, lookup)
    && EmptyLookups(r, run', lookup) == EmptyLookups(r, run, lookup)
  }

  lemma {:induction false} OthersLookNothingUp(r: Registry, run: seq<Event>, events: seq<Event>, lookup: Event)
    requires lookup.Lookup? && lookup !in events
    ensures SameLookups(r, run, run + events, lookup)
    decreases |events|
  {
    if events == [] {
      assert run + events == run;
    } else {
      var init, last := events[..|events| - 1], events[|events| - 1];
      OthersLookNothingUp(r, run, init, lookup);
      OneMoreEvent(r, run + init, last, lookup);
      assert run + events == run + init + [last] && last in events;
    }
  }

  // ----- One attempt -----

  /** One attempt: nothing is asked of the rendezvous server unless the name service knows one. */
  method RegisterPeer(server: SimpleRendezvousServer, node: Node, peer: string, dnsKnows: bool)
      returns (location: Option<Address>)
    modifies server
    ensures !dnsKnows ==> location == None && server.State() == old(server.State())
    ensures dnsKnows ==> server.State() == Apply(old(server.State()), Asked(node, peer))
    ensures dnsKnows ==> location == Found(old(server.State()), Asked(node, peer).client)
    ensures server.sent == old(server.sent)
  {
    if !dnsKnows {
      return None;
    }
    var message := RequestText(node.self.name, peer);
    RequestHasNul(node.self.name, peer);
    var reply := server.HandleRequests(Some(Request(message, node.address, node.self.port)), true);
    if reply.text == "" {
      return None;
    }
    location := Some(IpValue(reply.text));
  }

  /** The address that a lookup yields: none if the text is empty. */
  function Found(r: Registry, client: string): Option<Address> {
    if TextIn(r.registered, client) == "" then None else Some(IpValue(TextIn(r.registered, client)))
  }

  /** That is the address the peer last registered from, if it has registered. */
  lemma FoundIsLastRegistered(history: seq<Event>, client: string, x: Address)
    ensures LastText(history, client) == None ==> Found(After(EMPTY_REGISTRY, history), client) == None
    ensures LastText(history, client) == Some(IntToIPString(x)) ==>
      Found(After(EMPTY_REGISTRY, history), client) == Some(x)
  {
    BindingRule(history, client);
    EmptyTextIsNoAddress(x);
    AddressRoundTrip(x);
  }

  // ----- The loop -----

  /** The world between two attempts: other nodes register, subscribe and unsubscribe. */
  method Meanwhile(server: SimpleRendezvousServer, events: seq<Event>)
    modifies server
    ensures server.State() == After(old(server.State()), events)
  {
    var i := 0;
    ghost var r := server.State();
    while i < |events|
      invariant 0 <= i <= |events| && server.State() == After(r, events[..i])
    {
      match events[i] {
        case Register(name, text) => server.UpdateAddress(name, text);
        case Lookup(subscriber, client) => var _ := server.ChangeSubscription(subscriber, client);
      }
      i := i + 1;
      assert events[..i][..i - 1] == events[..i - 1];
    }
    assert events[..i] == events;
  }

  /** What the attempts so far have done to the run. */
  ghost predicate Attempted(r: Registry, run: seq<Event>, lookup: Event, dnsKnows: bool, attempts: nat,
                            location: Option<Address>)
    requires lookup.Lookup?
  {
    && Lookups(run, lookup) == (if dnsKnows then attempts else 0)
    && Toggles(r, run, lookup) == EmptyLookups(r, run, lookup) + (if location.Some? then 1 else 0)
    && (location.Some? ==> location == Found(After(r, run), lookup.client))
  }

  lemma AttemptCounts(r: Registry, run: seq<Event>, lookup: Event, attempts: nat)
    requires lookup.Lookup? && Attempted(r, run, lookup, true, attempts, None)
    ensures Attempted(r, run + [lookup], lookup, true, attempts + 1, Found(After(r, run), lookup.client))
  {
    OneMoreEvent(r, run, lookup, lookup);
  }

  method Attempt(server: SimpleRendezvousServer, node: Node, peer: string, dnsKnows: bool, ghost r: Registry,
                 ghost run: seq<Event>, ghost attempts: nat) returns (location: Option<Address>, ghost run': seq<Event>)
    requires server.State() == After(r, run) && Attempted(r, run, Asked(node, peer), dnsKnows, attempts, None)
    modifies server
    ensures server.State() == After(r, run') && Attempted(r, run', Asked(node, peer), dnsKnows, attempts + 1, location)
    ensures dnsKnows ==> location == Found(After(r, run), Asked(node, peer).client)
  {
    location := RegisterPeer(server, node, peer, dnsKnows);
    run' := run;
    if dnsKnows {
      OneMoreEvent(r, run, Asked(node, peer), Asked(node, peer));
      AttemptCounts(r, run, Asked(node, peer), attempts);
      run' := run + [Asked(node, peer)];
    }
  }

  lemma SleepCounts(r: Registry, run: seq<Event>, events: seq<Event>, lookup: Event, dnsKnows: bool, attempts: nat)
    requires lookup.Lookup? && lookup !in events && Attempted(r, run, lookup, dnsKnows, attempts, None)
    ensures Attempted(r, run + events, lookup, dnsKnows, attempts, None)
    ensures After(After(r, run), events) == After(r, run + events)
  {
    OthersLookNothingUp(r, run, events, lookup);
    Runs.AfterConcat(Apply, r, run, events);
  }

  /**
   * Retries until the peer is found, at most ten times. `between` is what happens during the sleeps.
   * The run of the server that results is returned for the statement: the node's lookups in it
   * number the attempts, and those that toggled its subscription are the successful one and the
   * ones that found the peer bound to the empty text.
   */
  method ConnectToPeer(server: SimpleRendezvousServer, node: Node, peer: string, dnsKnows: bool,
                       between: seq<seq<Event>>) returns (location: Option<Address>, attempts: nat, ghost run: seq<Event>)
    requires |between| == 10 && forall i :: 0 <= i < |between| ==> Asked(node, peer) !in between[i]
    modifies server
    ensures 1 <= attempts <= 11 && (location.None? ==> attempts == 11)
    ensures server.State() == After(old(server.State()), run)
    ensures Attempted(old(server.State()), run, Asked(node, peer), dnsKnows, attempts, location)
    ensures dnsKnows && Found(old(server.State()), Asked(node, peer).client).Some? ==>
      attempts == 1 && location == Found(old(server.State()), Asked(node, peer).client)
  {
    ghost var r := server.State();
    run := [];
    location, run := Attempt(server, node, peer, dnsKnows, r, run, 0);
    var backoff := 1;
    while location.None?
      invariant 1 <= backoff <= MAX_ATTEMPTS + 1 && server.State() == After(r, run)
      invariant Attempted(r, run, Asked(node, peer), dnsKnows, backoff, location)
      invariant dnsKnows && Found(r, Asked(node, peer).client).Some? ==>
        backoff == 1 && location == Found(r, Asked(node, peer).client)
      decreases MAX_ATTEMPTS + 1 - backoff
    {
      if backoff > MAX_ATTEMPTS {
        return None, backoff, run;
      }
      Meanwhile(server, between[backoff - 1]);
      SleepCounts(r, run, between[backoff - 1], Asked(node, peer), dnsKnows, backoff);
      run := run + between[backoff - 1];
      backoff := backoff + 1;
      location, run := Attempt(server, node, peer, dnsKnows, r, run, backoff - 1);
    }
    attempts := backoff;
  }

  // ----- When connecting subscribes -----

  /** Whether the name is bound to the empty text, told from the server's history. */
  ghost predicate FoundEmpty(history: seq<Event>, name: string) {
    LastText(history, name) == Some("") || (LastText(history, name) == None && WasServed(EMPTY_REGISTRY, history, name))
  }

  /** None of the lookups in a run, which continues a history, comes when its client is found empty. */
  ghost predicate NeverFoundEmpty(history: seq<Event>, run: seq<Event>, lookup: Event)
    requires lookup.Lookup?
  {
    forall i :: 0 <= i < |run| && run[i] == lookup ==> !FoundEmpty(history + run[..i], lookup.client)
  }

  lemma NeverFoundEmptyUnfolds(history: seq<Event>, run: seq<Event>, lookup: Event)
    requires lookup.Lookup? && run != []
    ensures var init, last := run[..|run| - 1], run[|run| - 1];
      NeverFoundEmpty(history, run, lookup) <==>
        NeverFoundEmpty(history, init, lookup) && !(last == lookup && FoundEmpty(history + init, lookup.client))
  {
    var init := run[..|run| - 1];
    forall i | 0 <= i < |init| ensures run[i] == init[i] && run[..i] == init[..i] {
    }
  }

  lemma {:induction false} NoEmptyLookupsIff(history: seq<Event>, run: seq<Event>, lookup: Event)
    requires lookup.Lookup?
    ensures EmptyLookups(After(EMPTY_REGISTRY, history), run, lookup) == 0 <==> NeverFoundEmpty(history, run, lookup)
    decreases |run|
  {
    if run != [] {
      var init := run[..|run| - 1];
      NoEmptyLookupsIff(history, init, lookup);
      NeverFoundEmptyUnfolds(history, run, lookup);
      Runs.AfterConcat(Apply, EMPTY_REGISTRY, history, init);
      BoundToEmptyIff(history + init, lookup.client);
    }
  }

  /**
   * A successful connection toggles the subscription exactly once if and only if none of its lookups
   * came while the peer had never registered but had been served as a subscriber, or had last
   * registered with the empty text. So a node that was not subscribed is then.
   */
  lemma ConnectingTogglesOnceIff(history: seq<Event>, run: seq<Event>, lookup: Event, attempts: nat, location: Address)
    requires lookup.Lookup?
    requires Attempted(After(EMPTY_REGISTRY, history), run, lookup, true, attempts, Some(location))
    ensures Toggles(After(EMPTY_REGISTRY, history), run, lookup) == 1 <==> NeverFoundEmpty(history, run, lookup)
    ensures NeverFoundEmpty(history, run, lookup) ==>
      (IsSubscribed(After(EMPTY_REGISTRY, history + run), lookup) <==>
        !IsSubscribed(After(EMPTY_REGISTRY, history), lookup))
  {
    NoEmptyLookupsIff(history, run, lookup);
    ToggleParity(After(EMPTY_REGISTRY, history), run, lookup.subscriber, lookup.client);
    Runs.AfterConcat(Apply, EMPTY_REGISTRY, history, run);
  }

  lemma {:induction false} RegisteredIsNotFoundEmpty(r: Registry, run: seq<Event>, lookup: Event)
    requires lookup.Lookup? && TextIn(r.registered, lookup.client) != "" && Register(lookup.client, "") !in run
    ensures EmptyLookups(r, run, lookup) == 0
    decreases |run|
  {
    if run != [] {
      RegisteredIsNotFoundEmpty(r, run[..|run| - 1], lookup);
      TextStaysNonEmpty(r, run[..|run| - 1], lookup.client);
    }
  }

  /** A peer that has registered before the call, and never with the empty text, costs one toggle. */
  lemma RegisteredPeerTogglesOnce(r: Registry, run: seq<Event>, lookup: Event, attempts: nat, location: Address)
    requires lookup.Lookup? && Attempted(r, run, lookup, true, attempts, Some(location))
    requires TextIn(r.registered, lookup.client) != "" && Register(lookup.client, "") !in run
    ensures Toggles(r, run, lookup) == 1 && (IsSubscribed(After(r, run), lookup) <==> !IsSubscribed(r, lookup))
  {
    RegisteredIsNotFoundEmpty(r, run, lookup);
    ToggleParity(r, run, lookup.subscriber, lookup.client);
  }

  /** In general the parity of the lookups that found the empty text decides. */
  lemma ConnectingSubscribesIff(r: Registry, run: seq<Event>, lookup: Event, attempts: nat, location: Address)
    requires lookup.Lookup? && Attempted(r, run, lookup, true, attempts, Some(location)) && !IsSubscribed(r, lookup)
    ensures IsSubscribed(After(r, run), lookup) <==> EmptyLookups(r, run, lookup) % 2 == 0
  {
    var k := EmptyLookups(r, run, lookup);
    ToggleParity(r, run, lookup.subscriber, lookup.client);
    OddAfterEven(k);
  }

  lemma OddAfterEven(k: nat)
    ensures (k + 1) % 2 == 1 <==> k % 2 == 0
  {
  }

  /**
   * The hazard is real: a peer that subscribed to another name before it registered is bound to the
   * empty text by the fan-out, and the failed lookup it then causes toggles the subscription.
   */
  lemma EmptyBindingMisleads()
    ensures var self, peer, other := Subscriber("s", 1), "p", "o";
      var bound := Apply(Apply(Apply(EMPTY_REGISTRY, Register(other, "x")), Lookup(Subscriber(peer, 2), other)),
                         Register(other, "y"));
      var failed := Apply(bound, Lookup(self, peer));
      var found := Apply(Apply(failed, Register(peer, "z")), Lookup(self, peer));
      && TextIn(bound.registered, peer) == "" && Subscribed(failed, self, peer)
      && TextIn(found.registered, peer) == "z" && !Subscribed(found, self, peer)
  {
    var self, peer, other := Subscriber("s", 1), "p", "o";
    var r2 := Toggle(Update(EMPTY_REGISTRY, other, "x"), Subscriber(peer, 2), other);
    var r3 := Update(r2, other, "y");
    assert Subscriber(peer, 2) in r2.SubscribersOf(other);
    assert peer in Names(r2.SubscribersOf(other)) && peer in r3.registered;
    assert peer !in r2.registered[other := "y"];
    var r5 := Update(Toggle(r3, self, peer), peer, "z");
    assert peer !in Names({self});
  }
}
