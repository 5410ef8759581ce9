/** Two echo applications that keep a keyword each. */
module EchoTokens {
  // Each is the other's peer, with its mobile node's buffer and the messages under way between
  // them. A keyword is a token that its application holds, that is on its way to the peer, or that
  // is on its way back. Messages may overtake each other; they are lost when their addressee moves
  // away; and a mobile node that is told of a relocation resends its buffer.

  import opened Wrappers
  import opened IpAddress
  import opened EchoApp
  import Runs

  /** A message under way: applications send the terminating NUL, resends do not. */
  datatype Parcel = Parcel(message: string, terminated: bool) {
    function Content(): string { if terminated then OnWire(message) else message }
  }

  /** An application, what is under way to it, and the messages that its node would resend. */
  datatype Side = Side(app: App, inbox: multiset<Parcel>, buffer: set<string>) {
    /** How often a message is under way to this side. */
    function Waiting(message: string): nat { inbox[Parcel(message, true)] + inbox[Parcel(message, false)] }
  }

  datatype State = State(a: Side, b: Side) {
    /** The same, seen from the other side. */
    function Mirror(): State { State(b, a) }
  }

  datatype Event =
    | Heartbeat(atA: bool)
    | Handle(atA: bool, parcel: Parcel)
    | Resend(atA: bool)
    /** A parcel under way to A, or to B, is lost with the address that it was sent to. */
    | Lose(atA: bool, parcel: Parcel)
  {
    function Mirror(): Event { this.(atA := !atA) }
  }

  // ----- Steps -----

  /** What a call at A sends goes into A's buffer and on its way to B. */
  function Apply(s: State, outcome: Outcome): State {
    if outcome.sent.None? then s.(a := s.a.(app := outcome.app))
    else
      var m := outcome.sent.value;
      State(s.a.(app := outcome.app, buffer := s.a.buffer + {m}), s.b.(inbox := s.b.inbox + multiset{Parcel(m, true)}))
  }

  function HeartbeatAtA(s: State): State { Apply(s, s.a.app.Send(s.a.app.keyword)) }

  /** A takes any parcel with content. */
  predicate Takes(s: State, parcel: Parcel) { parcel in s.a.inbox && parcel.Content() != "" }

  /** What is left when a parcel no longer is under way to A. */
  function Taken(s: State, parcel: Parcel): State { s.(a := s.a.(inbox := s.a.inbox - multiset{parcel})) }

  function HandleAtA(s: State, parcel: Parcel): State {
    if Takes(s, parcel) then Apply(Taken(s, parcel), s.a.app.Take(parcel.Content())) else s
  }

  function Parcels(messages: set<string>): set<Parcel> {
    set m <- messages :: Parcel(m, false)
  }

  function ResendAtA(s: State): State {
    s.(b := s.b.(inbox := s.b.inbox + multiset(Parcels(s.a.buffer))))
  }

  function StepAtA(s: State, e: Event): State {
    match e
    case Heartbeat(_) => HeartbeatAtA(s)
    case Handle(_, parcel) => HandleAtA(s, parcel)
    case Resend(_) => ResendAtA(s)
    case Lose(_, parcel) => Taken(s, parcel)
  }

  function Step(s: State, e: Event): State {
    if e.atA then StepAtA(s, e) else StepAtA(s.Mirror(), e.Mirror()).Mirror()
  }

  function After(s: State, run: seq<Event>): State {
    Runs.After(Step, s, run)
  }

  function Start(ka: string, kb: string): State {
    State(Side(App(ka, true), multiset{}, {}), Side(App(kb, true), multiset{}, {}))
  }

  // ----- Tokens -----

  /** How often A's keyword is held, on its way out, or on its way back. */
  function Tokens(s: State): nat {
    (if s.a.app.received then 1 else 0) + s.b.Waiting(s.a.app.keyword) + s.a.Waiting(s.a.app.keyword)
  }

  /** Each application has exactly one token. */
  predicate Conserved(s: State) { Tokens(s) == 1 && Tokens(s.Mirror()) == 1 }

  /** A keyword that survives transmission. */
  predicate Fits(keyword: string) { Received(OnWire(keyword)) == keyword }

  /** One that has no NUL and fills the receive buffer at most. */
  lemma FitsIff(keyword: string)
    ensures Fits(keyword) <==> '\0' !in keyword && |keyword| <= 4096
  {
    if |keyword| < BUFFER_SIZE && '\0' !in keyword {
      ReceivedText(keyword);
    } else if |keyword| >= BUFFER_SIZE {
      assert OnWire(keyword)[..BUFFER_SIZE] == keyword[..BUFFER_SIZE];
    }
  }

  predicate Usable(ka: string, kb: string) { ka != kb && Fits(ka) && Fits(kb) }

  /** A usable keyword arrives in either form. */
  lemma FittingArrives(parcel: Parcel)
    requires Fits(parcel.message)
    ensures Received(parcel.Content()) == parcel.message
  {
    FitsIff(parcel.message);
    ReceivedWholeIff(parcel.message);
  }

  ghost predicate OnlyKeywords(side: Side, ka: string, kb: string) {
    && (forall p :: p in side.inbox ==> p.message == ka || p.message == kb)
    && forall m :: m in side.buffer ==> m == ka || m == kb
  }

  /** The keywords are usable, and nothing but the two is ever under way or buffered. */
  ghost predicate Inv(s: State, ka: string, kb: string) {
    && Usable(ka, kb) && s.a.app.keyword == ka && s.b.app.keyword == kb
    && OnlyKeywords(s.a, ka, kb) && OnlyKeywords(s.b, ka, kb)
  }

  // ----- What one step does to the tokens -----

  /** A resend adds a token of A if the sender's buffer holds A's keyword. */
  function AddedBy(s: State, e: Event): nat {
    if e.Resend? && s.a.app.keyword in (if e.atA then s.a.buffer else s.b.buffer) then 1 else 0
  }

  /** A token of A is lost when it comes back while A already holds one. */
  function BuriedBy(s: State, e: Event): nat {
    if e.Handle? && e.atA && Takes(s, e.parcel) && s.a.app.received && e.parcel.message == s.a.app.keyword then 1 else 0
  }

  /** A token of A is lost with a parcel under way. */
  function LostBy(s: State, e: Event): nat {
    if e.Lose? && LosesParcel(s, e) && e.parcel.message == s.a.app.keyword then 1 else 0
  }

  predicate LosesParcel(s: State, e: Event)
    requires e.Lose?
  {
    e.parcel in if e.atA then s.a.inbox else s.b.inbox
  }

  lemma HandleTakes(s: State, parcel: Parcel, ka: string, kb: string)
    requires Inv(s, ka, kb) && Takes(s, parcel)
    ensures parcel.message == ka || parcel.message == kb
    ensures s.a.app.Take(parcel.Content()) == if parcel.message == ka
      then Outcome(App(ka, true), None) else Outcome(s.a.app, Some(kb))
  {
    FittingArrives(parcel);
  }

  /** The step changes A's count by what it adds, buries and loses. */
  ghost predicate Accounted(s: State, e: Event) {
    Tokens(Step(s, e)) == Tokens(s) + AddedBy(s, e) - BuriedBy(s, e) - LostBy(s, e)
  }

  lemma HeartbeatIsAccounted(s: State, ka: string, kb: string)
    requires Inv(s, ka, kb)
    ensures Inv(HeartbeatAtA(s), ka, kb) && Tokens(HeartbeatAtA(s)) == Tokens(s)
    ensures Tokens(HeartbeatAtA(s).Mirror()) == Tokens(s.Mirror())
  {
  }

  lemma TakenTokens(s: State, parcel: Parcel, ka: string, kb: string)
    requires Inv(s, ka, kb) && parcel in s.a.inbox
    ensures Inv(Taken(s, parcel), ka, kb)
    ensures Tokens(Taken(s, parcel)) == Tokens(s) - if parcel.message == ka then 1 else 0
    ensures Tokens(Taken(s, parcel).Mirror()) == Tokens(s.Mirror()) - if parcel.message == kb then 1 else 0
  {
    TakenWaits(s.a, parcel, ka);
    TakenWaits(s.a, parcel, kb);
  }

  lemma TakenWaits(side: Side, parcel: Parcel, m: string)
    requires parcel in side.inbox
    ensures side.(inbox := side.inbox - multiset{parcel}).Waiting(m) == side.Waiting(m) - if parcel.message == m then 1 else 0
  {
    assert parcel == Parcel(parcel.message, true) || parcel == Parcel(parcel.message, false);
  }

  lemma BuryTokens(s: State, ka: string, kb: string)
    requires Inv(s, ka, kb)
    ensures var t := Apply(s, Outcome(App(ka, true), None));
      && Inv(t, ka, kb) && Tokens(t.Mirror()) == Tokens(s.Mirror())
      && Tokens(t) == Tokens(s) + if s.a.app.received then 0 else 1
  {
  }

  lemma PostTokens(s: State, ka: string, kb: string)
    requires Inv(s, ka, kb)
    ensures var t := Apply(s, Outcome(s.a.app, Some(kb)));
      Inv(t, ka, kb) && Tokens(t.Mirror()) == Tokens(s.Mirror()) + 1 && Tokens(t) == Tokens(s)
  {
  }

  lemma HandleIsAccounted(s: State, parcel: Parcel, ka: string, kb: string)
    requires Inv(s, ka, kb) && Takes(s, parcel)
    ensures var t := HandleAtA(s, parcel);
      && Inv(t, ka, kb) && Tokens(t.Mirror()) == Tokens(s.Mirror())
      && Tokens(t) == Tokens(s) - if s.a.app.received && parcel.message == ka then 1 else 0
  {
    HandleTakes(s, parcel, ka, kb);
    TakenTokens(s, parcel, ka, kb);
    if parcel.message == ka {
      BuryTokens(Taken(s, parcel), ka, kb);
    } else {
      PostTokens(Taken(s, parcel), ka, kb);
    }
  }

  lemma ResendIsAccounted(s: State, ka: string, kb: string)
    requires Inv(s, ka, kb)
    ensures Inv(ResendAtA(s), ka, kb)
    ensures Tokens(ResendAtA(s)) == Tokens(s) + (if ka in s.a.buffer then 1 else 0)
    ensures Tokens(ResendAtA(s).Mirror()) == Tokens(s.Mirror()) + (if kb in s.a.buffer then 1 else 0)
  {
    var parcels := multiset(Parcels(s.a.buffer));
    assert forall m :: parcels[Parcel(m, true)] == 0;
    assert forall m :: parcels[Parcel(m, false)] == if m in s.a.buffer then 1 else 0;
  }

  lemma LossIsAccounted(s: State, parcel: Parcel, ka: string, kb: string)
    requires Inv(s, ka, kb)
    ensures Inv(Taken(s, parcel), ka, kb)
    ensures Tokens(Taken(s, parcel)) == Tokens(s) - if parcel in s.a.inbox && parcel.message == ka then 1 else 0
    ensures Tokens(Taken(s, parcel).Mirror()) == Tokens(s.Mirror()) -
      if parcel in s.a.inbox && parcel.message == kb then 1 else 0
  {
    if parcel in s.a.inbox {
      TakenTokens(s, parcel, ka, kb);
    } else {
      assert s.a.inbox - multiset{parcel} == s.a.inbox;
    }
  }

  /** The step keeps what is known of the keywords, and its effect on both counts is accounted for. */
  ghost predicate Explained(s: State, e: Event, ka: string, kb: string) {
    Inv(Step(s, e), ka, kb) && Accounted(s, e) && Accounted(s.Mirror(), e.Mirror())
  }

  /** A step at A, seen from B, is the same step. */
  lemma MirroredStep(s: State, e: Event)
    requires e.atA
    ensures Step(s, e) == StepAtA(s, e) && Step(s.Mirror(), e.Mirror()) == StepAtA(s, e).Mirror()
  {
    assert e.Mirror().Mirror() == e && s.Mirror().Mirror() == s;
  }

  lemma HeartbeatIsExplained(s: State, ka: string, kb: string)
    requires Inv(s, ka, kb)
    ensures Explained(s, Heartbeat(true), ka, kb)
  {
    MirroredStep(s, Heartbeat(true));
    HeartbeatIsAccounted(s, ka, kb);
  }

  lemma HandleIsExplained(s: State, parcel: Parcel, ka: string, kb: string)
    requires Inv(s, ka, kb)
    ensures Explained(s, Handle(true, parcel), ka, kb)
  {
    MirroredStep(s, Handle(true, parcel));
    HandleEffects(s, parcel, ka, kb);
    if Takes(s, parcel) {
      HandleIsAccounted(s, parcel, ka, kb);
    }
  }

  lemma HandleEffects(s: State, parcel: Parcel, ka: string, kb: string)
    requires Inv(s, ka, kb)
    ensures var e := Handle(true, parcel);
      && AddedBy(s, e) == LostBy(s, e) == AddedBy(s.Mirror(), e.Mirror()) == LostBy(s.Mirror(), e.Mirror()) == 0
      && BuriedBy(s.Mirror(), e.Mirror()) == 0
      && BuriedBy(s, e) == if Takes(s, parcel) && s.a.app.received && parcel.message == ka then 1 else 0
  {
  }

  lemma ResendIsExplained(s: State, ka: string, kb: string)
    requires Inv(s, ka, kb)
    ensures Explained(s, Resend(true), ka, kb)
  {
    MirroredStep(s, Resend(true));
    ResendIsAccounted(s, ka, kb);
  }

  lemma LossIsExplained(s: State, parcel: Parcel, ka: string, kb: string)
    requires Inv(s, ka, kb)
    ensures Explained(s, Lose(true, parcel), ka, kb)
  {
    MirroredStep(s, Lose(true, parcel));
    LossIsAccounted(s, parcel, ka, kb);
  }

  lemma StepAtAIsExplained(s: State, e: Event, ka: string, kb: string)
    requires Inv(s, ka, kb) && e.atA
    ensures Explained(s, e, ka, kb)
  {
    match e {
      case Heartbeat(_) => HeartbeatIsExplained(s, ka, kb);
      case Handle(_, parcel) => HandleIsExplained(s, parcel, ka, kb);
      case Resend(_) => ResendIsExplained(s, ka, kb);
      case Lose(_, parcel) => LossIsExplained(s, parcel, ka, kb);
    }
  }

  /** The exact change of both counts in any step. */
  lemma StepIsAccounted(s: State, e: Event, ka: string, kb: string)
    requires Inv(s, ka, kb)
    ensures Inv(Step(s, e), ka, kb) && Accounted(s, e) && Accounted(s.Mirror(), e.Mirror())
  {
    if e.atA {
      StepAtAIsExplained(s, e, ka, kb);
    } else {
      assert e.Mirror().Mirror() == e && s.Mirror().Mirror() == s;
      StepAtAIsExplained(s.Mirror(), e.Mirror(), kb, ka);
      assert Step(s.Mirror(), e.Mirror()).Mirror() == Step(s, e);
    }
  }

  // ----- Over runs -----

  /** The tokens of A that resends have added. */
  function Added(s: State, run: seq<Event>): nat {
    if run == [] then 0
    else Added(s, run[..|run| - 1]) + AddedBy(After(s, run[..|run| - 1]), run[|run| - 1])
  }

  /** The tokens of A that came back while it held one. */
  function Buried(s: State, run: seq<Event>): nat {
    if run == [] then 0
    else Buried(s, run[..|run| - 1]) + BuriedBy(After(s, run[..|run| - 1]), run[|run| - 1])
  }

  /** The tokens of A that were lost under way. */
  function Lost(s: State, run: seq<Event>): nat {
    if run == [] then 0
    else Lost(s, run[..|run| - 1]) + LostBy(After(s, run[..|run| - 1]), run[|run| - 1])
  }

  /** Accounting for every run: a token, those that resends have added, less those that met another or were lost. */
  lemma {:induction false} TokenAccount(ka: string, kb: string, run: seq<Event>)
    requires Usable(ka, kb)
    ensures Inv(After(Start(ka, kb), run), ka, kb)
    ensures var s := Start(ka, kb);
      Tokens(After(s, run)) == 1 + Added(s, run) - Buried(s, run) - Lost(s, run)
    decreases |run|
  {
    if run != [] {
      TokenAccount(ka, kb, run[..|run| - 1]);
      StepIsAccounted(After(Start(ka, kb), run[..|run| - 1]), run[|run| - 1], ka, kb);
    }
  }

  // ----- Conservation -----

  /** A resend by a node that has posted nothing, or a loss of nothing, or neither. */
  predicate Harmless(s: State, e: Event) {
    match e
    case Resend(atA) => (if atA then s.a.buffer else s.b.buffer) == {}
    case Lose(_, _) => !LosesParcel(s, e)
    case _ => true
  }

  ghost predicate HarmlessAt(s: State, run: seq<Event>, i: nat)
    requires i < |run|
  {
    Harmless(After(s, run[..i]), run[i])
  }

  lemma ConservedStepIff(s: State, e: Event, ka: string, kb: string)
    requires Inv(s, ka, kb) && Conserved(s)
    ensures Conserved(Step(s, e)) <==> Harmless(s, e)
  {
    StepIsAccounted(s, e, ka, kb);
    NothingBuried(s, e);
    NothingBuried(s.Mirror(), e.Mirror());
    BufferedKeyword(s.a, ka, kb);
    BufferedKeyword(s.b, ka, kb);
    if e.Lose? && LosesParcel(s, e) {
      assert e.parcel.message == ka || e.parcel.message == kb;
    }
  }

  lemma NothingBuried(s: State, e: Event)
    requires Tokens(s) == 1
    ensures BuriedBy(s, e) == 0
  {
    if e.Handle? && e.parcel in s.a.inbox {
      assert e.parcel == Parcel(e.parcel.message, true) || e.parcel == Parcel(e.parcel.message, false);
    }
  }

  lemma BufferedKeyword(side: Side, ka: string, kb: string)
    requires OnlyKeywords(side, ka, kb)
    ensures side.buffer == {} <==> ka !in side.buffer && kb !in side.buffer
  {
  }

  ghost predicate ConservedAt(s: State, run: seq<Event>, n: nat)
    requires n <= |run|
  {
    Conserved(After(s, run[..n]))
  }

  lemma ConservedNextIff(ka: string, kb: string, run: seq<Event>, n: nat)
    requires Usable(ka, kb) && n < |run| && ConservedAt(Start(ka, kb), run, n)
    ensures ConservedAt(Start(ka, kb), run, n + 1) <==> HarmlessAt(Start(ka, kb), run, n)
  {
    TokenAccount(ka, kb, run[..n]);
    ConservedStepIff(After(Start(ka, kb), run[..n]), run[n], ka, kb);
    assert run[..n + 1][..n] == run[..n];
  }

  lemma StartIsConserved(ka: string, kb: string, run: seq<Event>)
    requires Usable(ka, kb)
    ensures ConservedAt(Start(ka, kb), run, 0)
  {
    assert run[..0] == [];
  }

  /**
   * Throughout a run each application has exactly one token if and only if nothing under way is lost
   * and no node resends after it has posted something.
   */
  lemma RunConservesIff(ka: string, kb: string, run: seq<Event>)
    requires Usable(ka, kb)
    ensures (forall m: nat :: m <= |run| ==> ConservedAt(Start(ka, kb), run, m)) <==>
      forall i: nat :: i < |run| ==> HarmlessAt(Start(ka, kb), run, i)
  {
    var s := Start(ka, kb);
    var holds := (m: nat) => m <= |run| && ConservedAt(s, run, m);
    var good := (i: nat) => i < |run| && HarmlessAt(s, run, i);
    StartIsConserved(ka, kb, run);
    forall m: nat | m < |run| && holds(m) ensures holds(m + 1) <==> good(m) {
      ConservedNextIff(ka, kb, run, m);
    }
    Runs.ThroughoutIff(holds, good, |run|);
    assert forall m: nat :: m <= |run| ==> (holds(m) <==> ConservedAt(s, run, m));
    assert forall i: nat :: i < |run| ==> (good(i) <==> HarmlessAt(s, run, i));
  }

  // ----- Without relocation -----

  ghost predicate NoRelocation(run: seq<Event>) { forall e :: e in run ==> !e.Resend? && !e.Lose? }

  /** The peer buries or mangles a keyword that is its own or does not survive: the token is gone. */
  lemma TokenIsLost(ka: string, kb: string)
    requires ka == kb || !Fits(ka)
    ensures Tokens(After(Start(ka, kb), [Heartbeat(true), Handle(false, Parcel(ka, true))])) == 0
  {
    var e, f := Heartbeat(true), Handle(false, Parcel(ka, true));
    Runs.AfterTwo(Step, Start(ka, kb), e, f);
    FirstHeartbeat(ka, kb);
    PeerLosesIt(ka, kb);
  }

  /** The state after A's first heartbeat, as B sees it. */
  function OnItsWay(ka: string, kb: string): State {
    State(Side(App(kb, true), multiset{Parcel(ka, true)}, {}), Side(App(ka, false), multiset{}, {ka}))
  }

  lemma FirstHeartbeat(ka: string, kb: string)
    ensures Step(Start(ka, kb), Heartbeat(true)) == OnItsWay(ka, kb).Mirror()
  {
  }

  /** The peer takes the keyword, and sends nothing or something else. */
  lemma PeerLosesIt(ka: string, kb: string)
    requires ka == kb || !Fits(ka)
    ensures Tokens(HandleAtA(OnItsWay(ka, kb), Parcel(ka, true)).Mirror()) == 0
  {
    var t, parcel := OnItsWay(ka, kb), Parcel(ka, true);
    assert Takes(t, parcel);
    assert Taken(t, parcel).a.inbox == multiset{};
  }

  lemma MirroredRun(ka: string, kb: string)
    ensures After(Start(ka, kb), [Heartbeat(false), Handle(true, Parcel(kb, true))]) ==
      After(Start(kb, ka), [Heartbeat(true), Handle(false, Parcel(kb, true))]).Mirror()
  {
    var e, f := Heartbeat(false), Handle(true, Parcel(kb, true));
    Runs.AfterTwo(Step, Start(ka, kb), e, f);
    Runs.AfterTwo(Step, Start(kb, ka), e.Mirror(), f.Mirror());
    assert Start(ka, kb).Mirror() == Start(kb, ka);
  }

  lemma UsableConserves(ka: string, kb: string, run: seq<Event>)
    requires Usable(ka, kb) && NoRelocation(run)
    ensures Conserved(After(Start(ka, kb), run))
  {
    RunConservesIff(ka, kb, run);
    assert forall i: nat :: i < |run| ==> run[i] in run && HarmlessAt(Start(ka, kb), run, i);
    assert ConservedAt(Start(ka, kb), run, |run|) && run[..|run|] == run;
  }

  lemma OthersDoNot(ka: string, kb: string) returns (run: seq<Event>)
    requires !Usable(ka, kb)
    ensures NoRelocation(run) && !Conserved(After(Start(ka, kb), run))
  {
    if ka == kb || !Fits(ka) {
      run := [Heartbeat(true), Handle(false, Parcel(ka, true))];
      TokenIsLost(ka, kb);
    } else {
      run := [Heartbeat(false), Handle(true, Parcel(kb, true))];
      TokenIsLost(kb, ka);
      MirroredRun(ka, kb);
    }
  }

  /**
   * Token conservation: every run without relocation keeps exactly one token of each application
   * exactly when the keywords differ, as the application assumes, and both survive transmission.
   */
  lemma TokensConservedIff(ka: string, kb: string)
    ensures (forall run :: NoRelocation(run) ==> Conserved(After(Start(ka, kb), run))) <==> Usable(ka, kb)
  {
    if Usable(ka, kb) {
      forall run | NoRelocation(run) ensures Conserved(After(Start(ka, kb), run)) {
        UsableConserves(ka, kb, run);
      }
    } else {
      var run := OthersDoNot(ka, kb);
    }
  }
}
