/**
 * The rendezvous server (SimpleRendezvousServer.cc): a registry of names, the subscriptions to
 * them, and the pushes that a registration fans out.
 */
module Rendezvous {
  import opened Wrappers
  import opened IpAddress
  import Runs

  /** Who is told about a name: the subscriber's own name, and the port to tell it on. */
  datatype Subscriber = Subscriber(name: string, port: nat)

  /** A pushed update: the new address as text, sent to the subscriber's registered address. */
  datatype Push = Push(subscriber: Subscriber, dest: Address, text: string)

  /** The value a map entry has after it is read: reading a missing entry inserts the empty text. */
  function TextIn(registered: map<string, string>, name: string): string {
    if name in registered then registered[name] else ""
  }

  datatype Registry = Registry(registered: map<string, string>, subscriptions: map<string, set<Subscriber>>) {
    function SubscribersOf(name: string): set<Subscriber> {
      if name in subscriptions then subscriptions[name] else {}
    }
  }

  const EMPTY_REGISTRY := Registry(map[], map[])

  // ----- The operations, as functions of the registry -----

  function Names(subscribers: set<Subscriber>): set<string> {
    set s <- subscribers :: s.name
  }

  /** The registrations with the empty text for every name that is missing. */
  function WithDefaults(registered: map<string, string>, names: set<string>): map<string, string> {
    registered + map n | n in names - registered.Keys :: ""
  }

  /** Stores the address, and gives every unregistered subscriber the empty address. */
  function Update(r: Registry, name: string, text: string): Registry {
    var subscribers := r.SubscribersOf(name);
    Registry(WithDefaults(r.registered[name := text], Names(subscribers)), r.subscriptions[name := subscribers])
  }

  function PushTo(s: Subscriber, registered: map<string, string>, text: string): Push {
    Push(s, IpValue(TextIn(registered, s.name)), text)
  }

  /** One push for each of the subscribers, to the address it is registered at. */
  function Pushes(subscribers: set<Subscriber>, registered: map<string, string>, text: string): set<Push> {
    set s <- subscribers :: PushTo(s, registered, text)
  }

  /** Toggles the subscription, provided the name is registered. */
  function Toggle(r: Registry, subscriber: Subscriber, client: string): Registry {
    if client !in r.registered then r
    else
      var before := r.SubscribersOf(client);
      var after := if subscriber in before then before - {subscriber} else before + {subscriber};
      r.(subscriptions := r.subscriptions[client := after])
  }

  // ----- The server -----

  /** A datagram that arrived at one of the listeners. */
  datatype Request = Request(message: string, source: Address, port: nat)

  datatype Reply = NoReply | LookupReply(text: string) | RegistrationReply(name: string, address: Address)

  class SimpleRendezvousServer {
    var registeredNames: map<string, string>
    var subscriptions: map<string, set<Subscriber>>
    /** The updates handed to the network, oldest first. */
    var sent: seq<Push>

    ghost function State(): Registry
      reads this
    {
      Registry(registeredNames, subscriptions)
    }

    constructor ()
      ensures State() == EMPTY_REGISTRY && sent == []
    {
      registeredNames, subscriptions, sent := map[], map[], [];
    }

    /** Stores the address and sends every subscriber exactly one update, in no particular order. */
    method UpdateAddress(name: string, address: string)
      modifies this
      ensures State() == Update(old(State()), name, address)
      ensures exists batch :: sent == old(sent) + batch && multiset(batch) ==
        multiset(Pushes(old(State()).SubscribersOf(name), old(State()).registered[name := address], address))
    {
      registeredNames := registeredNames[name := address];
      if name !in subscriptions {
        subscriptions := subscriptions[name := {}];
      }
      FanOut(subscriptions[name], address);
    }

    /** The loop over the subscribers: a copy of the set is used up in an arbitrary order. */
    method FanOut(subscribers: set<Subscriber>, address: string)
      modifies this`registeredNames, this`sent
      ensures registeredNames == WithDefaults(old(registeredNames), Names(subscribers))
      ensures exists batch :: sent == old(sent) + batch &&
        multiset(batch) == multiset(Pushes(subscribers, old(registeredNames), address))
    {
      var todo := subscribers;
      ghost var base, batch: seq<Push> := registeredNames, [];
      FanOutStarts(base, subscribers, address, sent);
      while todo != {}
        invariant todo <= subscribers
        invariant FannedOut(base, subscribers - todo, address, registeredNames, old(sent), sent, batch)
        decreases todo
      {
        var i :| i in todo;
        FanOutAdvances(base, subscribers, todo, i, address, registeredNames, old(sent), sent, batch);
        SendUpdate(i, address);
        batch := batch + [PushTo(i, base, address)];
        todo := todo - {i};
      }
      assert subscribers - {} == subscribers;
    }

    /** Looks the subscriber's address up, defaulting it, and sends the update there. */
    method SendUpdate(i: Subscriber, address: string)
      modifies this`registeredNames, this`sent
      ensures registeredNames == WithDefault(old(registeredNames), i.name)
      ensures sent == old(sent) + [PushTo(i, registeredNames, address)]
    {
      if i.name !in registeredNames {
        registeredNames := registeredNames[i.name := ""];
      }
      sent := sent + [Push(i, IpValue(registeredNames[i.name]), address)];
    }

    method ChangeSubscription(subscriber: Subscriber, client: string) returns (location: string)
      modifies this`subscriptions
      ensures State() == Toggle(old(State()), subscriber, client)
      ensures location == TextIn(registeredNames, client)
    {
      if client in registeredNames {
        if client !in subscriptions {
          subscriptions := subscriptions[client := {}];
        }
        if subscriber !in subscriptions[client] {
          subscriptions := subscriptions[client := subscriptions[client] + {subscriber}];
        } else {
          subscriptions := subscriptions[client := subscriptions[client] - {subscriber}];
        }
      }
      location := if client in registeredNames then registeredNames[client] else "";
    }

    /** Handles a request waiting at a listener, if there is one with any content. */
    method HandleRequests(request: Option<Request>, lookup: bool) returns (reply: Reply)
      modifies this
      ensures request.None? || request.value.message == "" ==>
        reply == NoReply && State() == old(State()) && sent == old(sent)
      ensures request.Some? && request.value.message != "" && lookup ==>
        var (subscriber, subscribee) := ParseRequest(Received(request.value.message));
        && State() == Toggle(old(State()), Subscriber(subscriber, request.value.port), subscribee)
        && reply == LookupReply(TextIn(old(State()).registered, subscribee)) && sent == old(sent)
      ensures request.Some? && request.value.message != "" && !lookup ==>
        var name, source := Received(request.value.message), request.value.source;
        && State() == Update(old(State()), name, IntToIPString(source)) && reply == RegistrationReply(name, source)
        && old(sent) <= sent && multiset(sent[|old(sent)|..]) == multiset(Pushes(
          old(State()).SubscribersOf(name), old(State()).registered[name := IntToIPString(source)], IntToIPString(source)))
    {
      if request.None? || request.value.message == "" {
        return NoReply;
      }
      var buffer := Received(request.value.message);
      if lookup {
        var (subscriber, subscribee) := ParseRequest(buffer);
        var location := ChangeSubscription(Subscriber(subscriber, request.value.port), subscribee);
        reply := LookupReply(location);
      } else {
        ghost var before := sent;
        UpdateAddress(buffer, IntToIPString(request.value.source));
        ghost var batch :| sent == before + batch && multiset(batch) == multiset(Pushes(
          old(State()).SubscribersOf(buffer), old(State()).registered[buffer := IntToIPString(request.value.source)],
          IntToIPString(request.value.source)));
        assert sent[|before|..] == batch;
        reply := RegistrationReply(buffer, request.value.source);
      }
    }
  }

  /** The subscribers in `done` have been served, and `batch` is what that sent. */
  ghost predicate FannedOut(base: map<string, string>, done: set<Subscriber>, text: string,
                            registered: map<string, string>, before: seq<Push>, sent: seq<Push>, batch: seq<Push>)
  {
    && registered == WithDefaults(base, Names(done))
    && sent == before + batch && multiset(batch) == multiset(Pushes(done, base, text))
  }

  lemma FanOutStarts(base: map<string, string>, all: set<Subscriber>, text: string, sent: seq<Push>)
    ensures FannedOut(base, all - all, text, base, sent, sent, [])
  {
    assert all - all == {} && Pushes({}, base, text) == {} && Names({}) == {};
  }

  lemma FanOutAdvances(base: map<string, string>, all: set<Subscriber>, todo: set<Subscriber>, i: Subscriber, text: string,
                       registered: map<string, string>, before: seq<Push>, sent: seq<Push>, batch: seq<Push>)
    requires FannedOut(base, all - todo, text, registered, before, sent, batch) && i in todo && todo <= all
    ensures var after := WithDefault(registered, i.name);
      FannedOut(base, all - (todo - {i}), text, after, before, sent + [PushTo(i, after, text)], batch + [PushTo(i, base, text)])
  {
    var done := all - todo;
    assert all - (todo - {i}) == done + {i};
    DefaultsGrow(done, i, base, text);
    PushesGrow(done, i, base, text);
  }

  lemma NamesGrow(done: set<Subscriber>, i: Subscriber)
    ensures Names(done + {i}) == Names(done) + {i.name}
  {
  }

  function WithDefault(registered: map<string, string>, name: string): map<string, string> {
    if name in registered then registered else registered[name := ""]
  }

  lemma OneDefault(base: map<string, string>, names: set<string>, name: string)
    ensures WithDefaults(base, names + {name}) == WithDefault(WithDefaults(base, names), name)
  {
    assert WithDefaults(base, names + {name}).Keys == WithDefaults(base, names).Keys + {name};
  }

  /** One more subscriber served has its registration defaulted. */
  lemma DefaultsGrow(done: set<Subscriber>, i: Subscriber, base: map<string, string>, text: string)
    ensures WithDefaults(base, Names(done + {i})) == WithDefault(WithDefaults(base, Names(done)), i.name)
    ensures PushTo(i, WithDefault(WithDefaults(base, Names(done)), i.name), text) == PushTo(i, base, text)
  {
    NamesGrow(done, i);
    OneDefault(base, Names(done), i.name);
  }

  /** One more subscriber served has its push added once. */
  lemma PushesGrow(done: set<Subscriber>, i: Subscriber, base: map<string, string>, text: string)
    requires i !in done
    ensures multiset(Pushes(done + {i}, base, text)) == multiset(Pushes(done, base, text)) + multiset{PushTo(i, base, text)}
  {
    var before, p := Pushes(done, base, text), PushTo(i, base, text);
    assert p.subscriber == i;
    assert p !in before;
    assert Pushes(done + {i}, base, text) == before + {p};
  }

  /** An update sends as many pushes as there are subscribers. */
  lemma {:induction false} OnePushEach(subscribers: set<Subscriber>, registered: map<string, string>, text: string)
    ensures |Pushes(subscribers, registered, text)| == |subscribers|
    decreases subscribers
  {
    if subscribers == {} {
      assert Pushes({}, registered, text) == {};
    } else {
      var s :| s in subscribers;
      var rest := subscribers - {s};
      OnePushEach(rest, registered, text);
      assert Pushes(subscribers, registered, text) == Pushes(rest, registered, text) + {PushTo(s, registered, text)};
      assert PushTo(s, registered, text) !in Pushes(rest, registered, text);
    }
  }

  // ----- Runs of the server -----

  datatype Event =
    | Register(name: string, text: string)
    | Lookup(subscriber: Subscriber, client: string)

  function Apply(r: Registry, e: Event): Registry {
    match e
    case Register(name, text) => Update(r, name, text)
    case Lookup(subscriber, client) => Toggle(r, subscriber, client)
  }

  function After(r: Registry, run: seq<Event>): Registry {
    Runs.After(Apply, r, run)
  }

  /** The number of the subscriber's lookups of the client made while the client was registered. */
  function EffectiveLookups(r: Registry, run: seq<Event>, subscriber: Subscriber, client: string): nat {
    if run == [] then 0
    else
      var init, last := run[..|run| - 1], run[|run| - 1];
      var effective := last == Lookup(subscriber, client) && client in After(r, init).registered;
      EffectiveLookups(r, init, subscriber, client) + if effective then 1 else 0
  }

  ghost predicate Subscribed(r: Registry, subscriber: Subscriber, client: string) {
    subscriber in r.SubscribersOf(client)
  }

  lemma ApplyTogglesOnlyItsPair(r: Registry, e: Event, subscriber: Subscriber, client: string)
    ensures Subscribed(Apply(r, e), subscriber, client) <==>
      (Subscribed(r, subscriber, client) != (e == Lookup(subscriber, client) && client in r.registered))
  {
  }

  /** Parity: a run flips a subscription exactly as often as the pair looked up a registered name. */
  lemma {:induction false} ToggleParity(r: Registry, run: seq<Event>, subscriber: Subscriber, client: string)
    ensures Subscribed(After(r, run), subscriber, client) <==>
      (Subscribed(r, subscriber, client) != (EffectiveLookups(r, run, subscriber, client) % 2 == 1))
    decreases |run|
  {
    if run != [] {
      var init := run[..|run| - 1];
      ToggleParity(r, init, subscriber, client);
      ApplyTogglesOnlyItsPair(After(r, init), run[|run| - 1], subscriber, client);
    }
  }

  /** A name, once registered, stays registered. */
  lemma {:induction false} RegisteredStays(r: Registry, run: seq<Event>, name: string)
    requires name in r.registered
    ensures name in After(r, run).registered
    decreases |run|
  {
    if run != [] {
      RegisteredStays(r, run[..|run| - 1], name);
    }
  }

  // ----- Names bound to the empty text -----

  ghost predicate BoundToEmpty(r: Registry, name: string) {
    name in r.registered && r.registered[name] == ""
  }

  /** The text of the name's last registration in a run. */
  function LastText(run: seq<Event>, name: string): Option<string> {
    if run == [] then None
    else
      var last := run[|run| - 1];
      if last.Register? && last.name == name then Some(last.text) else LastText(run[..|run| - 1], name)
  }

  /** The i-th event is a registration that is fanned out to the name. */
  ghost predicate Serves(r: Registry, run: seq<Event>, name: string, i: nat)
    requires i < |run|
  {
    run[i].Register? && name in Names(After(r, run[..i]).SubscribersOf(run[i].name))
  }

  ghost predicate WasServed(r: Registry, run: seq<Event>, name: string) {
    exists i: nat :: i < |run| && Serves(r, run, name, i)
  }

  lemma WasServedUnfolds(r: Registry, run: seq<Event>, name: string)
    requires run != []
    ensures WasServed(r, run, name) <==> WasServed(r, run[..|run| - 1], name) || Serves(r, run, name, |run| - 1)
  {
    var init := run[..|run| - 1];
    forall i: nat | i < |init| ensures Serves(r, run, name, i) <==> Serves(r, init, name, i) {
      assert run[..i] == init[..i];
    }
  }

  lemma UpdateBinds(r: Registry, n: string, text: string, name: string)
    ensures name in Update(r, n, text).registered <==>
      name == n || name in r.registered || name in Names(r.SubscribersOf(n))
    ensures TextIn(Update(r, n, text).registered, name) == if name == n then text else TextIn(r.registered, name)
  {
  }

  /** In every run a name is bound once it has registered or been served, and to its last text. */
  lemma {:induction false} BindingRule(run: seq<Event>, name: string)
    ensures name in After(EMPTY_REGISTRY, run).registered <==>
      LastText(run, name).Some? || WasServed(EMPTY_REGISTRY, run, name)
    ensures TextIn(After(EMPTY_REGISTRY, run).registered, name) ==
      match LastText(run, name) case None => "" case Some(text) => text
    decreases |run|
  {
    if run != [] {
      var init := run[..|run| - 1];
      BindingRule(init, name);
      WasServedUnfolds(EMPTY_REGISTRY, run, name);
      match run[|run| - 1] {
        case Register(n, text) => UpdateBinds(After(EMPTY_REGISTRY, init), n, text, name);
        case Lookup(_, _) =>
      }
    }
  }

  /**
   * A name is bound to the empty text exactly if it has last registered with that, which no node
   * does, or has never registered and was a subscriber of a name that has.
   */
  lemma BoundToEmptyIff(run: seq<Event>, name: string)
    ensures BoundToEmpty(After(EMPTY_REGISTRY, run), name) <==>
      LastText(run, name) == Some("") || (LastText(run, name) == None && WasServed(EMPTY_REGISTRY, run, name))
  {
    BindingRule(run, name);
  }

  /** A name registered with an address keeps one, unless it registers with the empty text. */
  lemma {:induction false} TextStaysNonEmpty(r: Registry, run: seq<Event>, name: string)
    requires TextIn(r.registered, name) != "" && Register(name, "") !in run
    ensures TextIn(After(r, run).registered, name) != ""
    decreases |run|
  {
    if run != [] {
      TextStaysNonEmpty(r, run[..|run| - 1], name);
      match run[|run| - 1] {
        case Register(n, text) => UpdateBinds(After(r, run[..|run| - 1]), n, text, name);
        case Lookup(_, _) =>
      }
    }
  }
}
