/** The mobile node's daemon loop (SimpleMobileNode.cc, SimpleMobileNode.h). */
module NodeDaemon {
  // The node samples its location when it is constructed, and twice in every turn of the loop, and
  // registers when it starts and when the first sample of a turn differs from the last one it
  // noted. Other nodes register and look names up in between.

  import opened IpAddress
  import opened Rendezvous
  import Runs

  datatype Daemon = Daemon(logicalAddress: string, rs: Registry, lastKnown: Address) {
    /** The name that the server receives. */
    function Name(): string { Received(logicalAddress) }
  }

  datatype DaemonEvent =
    | Others(event: Event)
    /** The location at the check, where a registration would come from, and the location noted. */
    | Turn(seen: Address, source: Address, noted: Address)

  /** A registration from the location; the server ignores a node without a name. */
  function Registering(rs: Registry, logicalAddress: string, source: Address): Registry {
    if logicalAddress == "" then rs else Update(rs, Received(logicalAddress), IntToIPString(source))
  }

  /** Constructed at one location, started at another. */
  function Started(rs: Registry, logicalAddress: string, constructed: Address, source: Address): Daemon {
    Daemon(logicalAddress, Registering(rs, logicalAddress, source), constructed)
  }

  function Step(d: Daemon, e: DaemonEvent): Daemon {
    match e
    case Others(event) => d.(rs := Apply(d.rs, event))
    case Turn(seen, source, noted) =>
      var rs := if seen == d.lastKnown then d.rs else Registering(d.rs, d.logicalAddress, source);
      Daemon(d.logicalAddress, rs, noted)
  }

  function After(d: Daemon, run: seq<DaemonEvent>): Daemon {
    Runs.After(Step, d, run)
  }

  /** The server has the node where the daemon last noted it to be. */
  ghost predicate RegisteredWhereNoted(d: Daemon) {
    TextIn(d.rs.registered, d.Name()) == IntToIPString(d.lastKnown)
  }

  /** Nobody else registers the name. */
  ghost predicate OthersOnly(run: seq<DaemonEvent>, name: string) {
    forall e :: e in run && e.Others? && e.event.Register? ==> e.event.name != name
  }

  // ----- What the samples tell -----

  /** The last location noted. */
  function Noted(constructed: Address, run: seq<DaemonEvent>): Address {
    if run == [] then constructed
    else match run[|run| - 1]
      case Others(_) => Noted(constructed, run[..|run| - 1])
      case Turn(_, _, noted) => noted
  }

  /** The last location registered from. */
  function LastSource(constructed: Address, source: Address, run: seq<DaemonEvent>): Address {
    if run == [] then source
    else
      var init := run[..|run| - 1];
      match run[|run| - 1]
      case Others(_) => LastSource(constructed, source, init)
      case Turn(seen, from, _) =>
        if seen == Noted(constructed, init) then LastSource(constructed, source, init) else from
  }

  /** What the server has for the name is unaffected by the others. */
  lemma OthersKeepText(rs: Registry, e: Event, name: string)
    requires e.Register? ==> e.name != name
    ensures TextIn(Apply(rs, e).registered, name) == TextIn(rs.registered, name)
  {
  }

  lemma InitOthersOnly(run: seq<DaemonEvent>, name: string)
    requires OthersOnly(run, name) && run != []
    ensures OthersOnly(run[..|run| - 1], name) && run[|run| - 1] in run
  {
  }

  /** If the node has no name, the server has nothing for the empty one. */
  predicate EmptyNameIsFree(rs: Registry, logicalAddress: string) {
    logicalAddress == "" ==> TextIn(rs.registered, "") == ""
  }

  /** After every run the server has where the daemon last registered from, if it has a name. */
  lemma {:induction false} RunsTellTheServer(rs: Registry, logicalAddress: string, constructed: Address, source: Address,
                                             run: seq<DaemonEvent>)
    requires EmptyNameIsFree(rs, logicalAddress) && OthersOnly(run, Received(logicalAddress))
    ensures var d := After(Started(rs, logicalAddress, constructed, source), run);
      && d.logicalAddress == logicalAddress && d.lastKnown == Noted(constructed, run)
      && TextIn(d.rs.registered, d.Name()) ==
        if logicalAddress == "" then "" else IntToIPString(LastSource(constructed, source, run))
    decreases |run|
  {
    if run != [] {
      var init := run[..|run| - 1];
      InitOthersOnly(run, Received(logicalAddress));
      RunsTellTheServer(rs, logicalAddress, constructed, source, init);
      var d := After(Started(rs, logicalAddress, constructed, source), init);
      match run[|run| - 1] {
        case Others(event) => OthersKeepText(d.rs, event, d.Name());
        case Turn(_, from, _) => RegisteringSetsText(d.rs, logicalAddress, from);
      }
    } else {
      RegisteringSetsText(rs, logicalAddress, source);
    }
  }

  lemma RegisteringSetsText(rs: Registry, logicalAddress: string, source: Address)
    ensures TextIn(Registering(rs, logicalAddress, source).registered, Received(logicalAddress)) ==
      if logicalAddress == "" then TextIn(rs.registered, Received(logicalAddress)) else IntToIPString(source)
  {
  }

  lemma TextsDiffer(x: Address, y: Address)
    ensures IntToIPString(x) == IntToIPString(y) <==> x == y
    ensures IntToIPString(x) != ""
  {
    AddressRoundTrip(x);
    AddressRoundTrip(y);
    EmptyTextIsNoAddress(x);
  }

  /** After a run the server has the node where it was last noted exactly if it last registered from there. */
  lemma RegisteredWhereNotedIff(rs: Registry, logicalAddress: string, constructed: Address, source: Address,
                                run: seq<DaemonEvent>)
    requires EmptyNameIsFree(rs, logicalAddress) && OthersOnly(run, Received(logicalAddress))
    ensures RegisteredWhereNoted(After(Started(rs, logicalAddress, constructed, source), run)) <==>
      logicalAddress != "" && LastSource(constructed, source, run) == Noted(constructed, run)
  {
    RunsTellTheServer(rs, logicalAddress, constructed, source, run);
    TextsDiffer(LastSource(constructed, source, run), Noted(constructed, run));
    TextsDiffer(Noted(constructed, run), Noted(constructed, run));
  }

  /** The turn notes the location it registers from or, if it does not register, the one it saw. */
  predicate NotesWhatItTold(constructed: Address, run: seq<DaemonEvent>, i: nat)
    requires i < |run|
  {
    match run[i]
    case Others(_) => true
    case Turn(seen, source, noted) => noted == if seen == Noted(constructed, run[..i]) then seen else source
  }

  /** The samples agree at the start and in every turn. */
  ghost predicate SamplesAgree(constructed: Address, source: Address, run: seq<DaemonEvent>) {
    constructed == source && forall i: nat :: i < |run| ==> NotesWhatItTold(constructed, run, i)
  }

  ghost predicate Told(constructed: Address, source: Address, run: seq<DaemonEvent>, n: nat)
    requires n <= |run|
  {
    LastSource(constructed, source, run[..n]) == Noted(constructed, run[..n])
  }

  lemma ToldNext(constructed: Address, source: Address, run: seq<DaemonEvent>, n: nat)
    requires n < |run| && Told(constructed, source, run, n)
    ensures Told(constructed, source, run, n + 1) <==> NotesWhatItTold(constructed, run, n)
  {
    assert run[..n + 1][..n] == run[..n];
  }

  lemma {:induction false} ToldThroughoutIff(constructed: Address, source: Address, run: seq<DaemonEvent>, n: nat)
    requires n <= |run|
    ensures (forall m: nat :: m <= n ==> Told(constructed, source, run, m)) <==>
      constructed == source && forall i: nat :: i < n ==> NotesWhatItTold(constructed, run, i)
    decreases n
  {
    if n == 0 {
      assert Told(constructed, source, run, 0) <==> constructed == source;
    } else {
      ToldThroughoutIff(constructed, source, run, n - 1);
      if Told(constructed, source, run, n - 1) {
        ToldNext(constructed, source, run, n - 1);
      }
    }
  }

  ghost predicate RegisteredAfter(start: Daemon, run: seq<DaemonEvent>, n: nat)
    requires n <= |run|
  {
    RegisteredWhereNoted(After(start, run[..n]))
  }

  /**
   * The server has the node where it was last noted throughout a run exactly if the samples agree:
   * at the construction and the start, and within each turn.
   */
  lemma RegisteredThroughoutIff(rs: Registry, logicalAddress: string, constructed: Address, source: Address,
                                run: seq<DaemonEvent>)
    requires EmptyNameIsFree(rs, logicalAddress) && OthersOnly(run, Received(logicalAddress))
    ensures var start := Started(rs, logicalAddress, constructed, source);
      (forall n: nat :: n <= |run| ==> RegisteredAfter(start, run, n)) <==>
        logicalAddress != "" && SamplesAgree(constructed, source, run)
  {
    var start := Started(rs, logicalAddress, constructed, source);
    ToldThroughoutIff(constructed, source, run, |run|);
    forall n: nat | n <= |run|
      ensures RegisteredAfter(start, run, n) <==> logicalAddress != "" && Told(constructed, source, run, n)
    {
      RegisteredWhereNotedIff(rs, logicalAddress, constructed, source, run[..n]);
    }
    assert logicalAddress == "" ==> !RegisteredAfter(start, run, 0);
  }

  /** A node that moves only while the daemon sleeps, so that the samples of a turn are the same. */
  ghost predicate StillDuringTurns(run: seq<DaemonEvent>) {
    forall e :: e in run && e.Turn? ==> e.seen == e.source == e.noted
  }

  /** Such a node, started where it was constructed, is always registered where it was last noted. */
  lemma StillNodesAreRegistered(rs: Registry, logicalAddress: string, location: Address, run: seq<DaemonEvent>)
    requires logicalAddress != "" && OthersOnly(run, Received(logicalAddress)) && StillDuringTurns(run)
    ensures RegisteredWhereNoted(After(Started(rs, logicalAddress, location, location), run))
  {
    forall i: nat | i < |run| ensures NotesWhatItTold(location, run, i) {
      assert run[i] in run;
    }
    RegisteredThroughoutIff(rs, logicalAddress, location, location, run);
    assert RegisteredAfter(Started(rs, logicalAddress, location, location), run, |run|);
    assert run[..|run|] == run;
  }

  /** A node constructed at one place, started at another, and back at the first, stays registered at the second. */
  lemma ReturnIsMissed(logicalAddress: string, home: Address, away: Address)
    requires logicalAddress != "" && home != away
    ensures var d := After(Started(EMPTY_REGISTRY, logicalAddress, home, away), [Turn(home, home, home)]);
      d.lastKnown == home && TextIn(d.rs.registered, d.Name()) == IntToIPString(away) != IntToIPString(home)
  {
    var run := [Turn(home, home, home)];
    assert run[..0] == [];
    RunsTellTheServer(EMPTY_REGISTRY, logicalAddress, home, away, run);
    TextsDiffer(home, away);
  }

  /** A move between the two samples of a turn is missed in the same way. */
  lemma MoveWithinTurnIsMissed(logicalAddress: string, home: Address, away: Address)
    requires logicalAddress != "" && home != away
    ensures var d := After(Started(EMPTY_REGISTRY, logicalAddress, home, home), [Turn(home, home, away)]);
      d.lastKnown == away && TextIn(d.rs.registered, d.Name()) == IntToIPString(home) != IntToIPString(away)
  {
    var run := [Turn(home, home, away)];
    assert run[..0] == [];
    RunsTellTheServer(EMPTY_REGISTRY, logicalAddress, home, home, run);
    TextsDiffer(home, away);
  }
}
