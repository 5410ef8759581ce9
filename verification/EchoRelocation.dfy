/** What the resend is for (SimpleMobileNode.cc). */
module EchoRelocation {
  // When an echo application's peer moves, what was under way to it is lost, and the application's
  // node resends its buffer to the new address. The token of an application survives that, and is
  // doubled exactly when it was not among what was lost; without a resend, a lost token never comes
  // back.

  import opened EchoApp
  import opened EchoTokens
  import opened EchoBuffers
  import Runs

  // ----- What is under way is buffered -----

  /** Whatever is under way to a side is in the other's buffer. */
  ghost predicate Buffered(s: State) {
    && (forall p :: p in s.b.inbox ==> p.message in s.a.buffer)
    && forall p :: p in s.a.inbox ==> p.message in s.b.buffer
  }

  lemma PostKeepsBuffered(s: State, outcome: Outcome)
    requires Buffered(s)
    ensures Buffered(Apply(s, outcome))
  {
  }

  lemma LossKeepsBuffered(s: State, parcel: Parcel)
    requires Buffered(s)
    ensures Buffered(Taken(s, parcel))
  {
  }

  lemma ResendKeepsBuffered(s: State)
    requires Buffered(s)
    ensures Buffered(ResendAtA(s))
  {
    assert forall p :: p in multiset(Parcels(s.a.buffer)) ==> p.message in s.a.buffer;
  }

  lemma StepAtAKeepsBuffered(s: State, e: Event)
    requires Buffered(s)
    ensures Buffered(StepAtA(s, e))
  {
    match e {
      case Heartbeat(_) => PostKeepsBuffered(s, s.a.app.Send(s.a.app.keyword));
      case Handle(_, parcel) =>
        LossKeepsBuffered(s, parcel);
        PostKeepsBuffered(Taken(s, parcel), s.a.app.Take(parcel.Content()));
      case Resend(_) => ResendKeepsBuffered(s);
      case Lose(_, parcel) => LossKeepsBuffered(s, parcel);
    }
  }

  lemma StepKeepsBuffered(s: State, e: Event)
    requires Buffered(s)
    ensures Buffered(Step(s, e))
  {
    if e.atA {
      StepAtAKeepsBuffered(s, e);
    } else {
      StepAtAKeepsBuffered(s.Mirror(), e.Mirror());
    }
  }

  lemma {:induction false} EveryRunKeepsBuffered(ka: string, kb: string, run: seq<Event>)
    ensures Buffered(After(Start(ka, kb), run))
    decreases |run|
  {
    if run != [] {
      EveryRunKeepsBuffered(ka, kb, run[..|run| - 1]);
      StepKeepsBuffered(After(Start(ka, kb), run[..|run| - 1]), run[|run| - 1]);
    }
  }

  // ----- A relocation of B -----

  /** B leaves its address, and what was under way to it, behind. */
  function Left(s: State): State { s.(b := s.b.(inbox := multiset{})) }

  /** B has moved, and A's node has followed. */
  function Relocated(s: State): State { ResendAtA(Left(s)) }

  /** Losing one parcel after the other loses them all. */
  lemma {:induction false} LoseAll(s: State) returns (run: seq<Event>)
    ensures forall e :: e in run ==> e.Lose? && !e.atA
    ensures After(s, run) == Left(s)
    decreases |s.b.inbox|
  {
    if s.b.inbox == multiset{} {
      run := [];
    } else {
      var parcel :| parcel in s.b.inbox;
      var e := Lose(false, parcel);
      var rest := LoseAll(Step(s, e));
      Runs.AfterFirst(Step, s, e, rest);
      run := [e] + rest;
    }
  }

  /** A relocation is a run of losses and a resend. */
  lemma RelocationIsRun(s: State) returns (run: seq<Event>)
    ensures run != [] && run[|run| - 1] == Resend(true)
    ensures forall i :: 0 <= i < |run| - 1 ==> run[i].Lose? && !run[i].atA
    ensures After(s, run) == Relocated(s)
  {
    var losses := LoseAll(s);
    run := losses + [Resend(true)];
    OneMoreStep(s, losses, Resend(true));
  }

  lemma OneMoreStep(s: State, run: seq<Event>, e: Event)
    ensures After(s, run + [e]) == Step(After(s, run), e)
  {
    assert (run + [e])[..|run|] == run;
  }

  lemma LeftTokens(s: State, ka: string, kb: string)
    requires Inv(s, ka, kb)
    ensures Inv(Left(s), ka, kb)
    ensures Tokens(Left(s)) == Tokens(s) - s.b.Waiting(ka)
    ensures Tokens(Left(s).Mirror()) == Tokens(s.Mirror()) - s.b.Waiting(kb)
  {
  }

  /** How a relocation of B changes both counts, whatever they were. */
  lemma RelocationTokens(s: State, ka: string, kb: string)
    requires Inv(s, ka, kb)
    ensures Inv(Relocated(s), ka, kb)
    ensures Tokens(Relocated(s)) == Tokens(s) - s.b.Waiting(ka) + (if ka in s.a.buffer then 1 else 0)
    ensures Tokens(Relocated(s).Mirror()) == Tokens(s.Mirror()) - s.b.Waiting(kb) + (if kb in s.a.buffer then 1 else 0)
  {
    LeftTokens(s, ka, kb);
    ResendIsAccounted(Left(s), ka, kb);
  }

  lemma WaitingIsBuffered(s: State, m: string)
    requires Buffered(s) && s.b.Waiting(m) > 0
    ensures m in s.a.buffer
  {
    assert Parcel(m, true) in s.b.inbox || Parcel(m, false) in s.b.inbox;
  }

  /**
   * In every reachable state in which each application has one token, a relocation of B loses
   * neither: a token that was under way to B is replaced. One that was not is doubled, provided that
   * A has ever posted it.
   */
  lemma RelocationKeepsTokensIff(ka: string, kb: string, run: seq<Event>)
    requires Usable(ka, kb) && Conserved(After(Start(ka, kb), run))
    ensures var s := After(Start(ka, kb), run);
      && 1 <= Tokens(Relocated(s)) <= 2 && 1 <= Tokens(Relocated(s).Mirror()) <= 2
      && (Tokens(Relocated(s)) == 1 <==> s.b.Waiting(ka) == 1 || !Posted(Start(ka, kb), run, ka))
      && (Tokens(Relocated(s).Mirror()) == 1 <==> s.b.Waiting(kb) == 1 || !Posted(Start(ka, kb), run, kb))
  {
    var s := After(Start(ka, kb), run);
    TokenAccount(ka, kb, run);
    EveryRunKeepsBuffered(ka, kb, run);
    RelocationTokens(s, ka, kb);
    BufferIsAllPosted(ka, kb, run, ka);
    BufferIsAllPosted(ka, kb, run, kb);
    if s.b.Waiting(ka) > 0 {
      WaitingIsBuffered(s, ka);
    }
    if s.b.Waiting(kb) > 0 {
      WaitingIsBuffered(s, kb);
    }
  }

  // ----- Without a resend -----

  /** No step of the run resends A's keyword. */
  ghost predicate NeverResent(s: State, run: seq<Event>) {
    forall i: nat :: i < |run| ==> AddedAt(s, run, i) == 0
  }

  function AddedAt(s: State, run: seq<Event>, i: nat): nat
    requires i < |run|
  {
    AddedBy(After(s, run[..i]), run[i])
  }

  lemma InitNeverResent(s: State, run: seq<Event>)
    requires run != [] && NeverResent(s, run)
    ensures NeverResent(s, run[..|run| - 1]) && AddedBy(After(s, run[..|run| - 1]), run[|run| - 1]) == 0
  {
    var init := run[..|run| - 1];
    forall i: nat | i < |init| ensures AddedAt(s, init, i) == 0 {
      assert init[..i] == run[..i] && init[i] == run[i];
      assert AddedAt(s, run, i) == 0;
    }
    assert AddedAt(s, run, |run| - 1) == 0;
  }

  /** Once A's token is lost, it stays lost, and A silent, in every run that does not resend it. */
  lemma {:induction false} LostTokenStaysLost(s: State, ka: string, kb: string, run: seq<Event>)
    requires Inv(s, ka, kb) && Tokens(s) == 0 && NeverResent(s, run)
    ensures Inv(After(s, run), ka, kb) && Tokens(After(s, run)) == 0 && !After(s, run).a.app.received
    decreases |run|
  {
    if run != [] {
      InitNeverResent(s, run);
      LostTokenStaysLost(s, ka, kb, run[..|run| - 1]);
      StepIsAccounted(After(s, run[..|run| - 1]), run[|run| - 1], ka, kb);
    }
  }

  // ----- Coming home -----

  /** The keyword is under way to a side in a form that the application there takes. */
  predicate ArrivesAt(side: Side, keyword: string) {
    Parcel(keyword, true) in side.inbox || (keyword != "" && Parcel(keyword, false) in side.inbox)
  }

  /** A holds its keyword, or it is on its way in a form that is taken. */
  predicate CanComeHome(s: State) {
    s.a.app.received || ArrivesAt(s.a, s.a.app.keyword) || ArrivesAt(s.b, s.a.app.keyword)
  }

  ghost predicate HandlesOnly(run: seq<Event>) { forall e :: e in run ==> e.Handle? }

  /** The parcel in which the keyword arrives. */
  function Arriving(side: Side, keyword: string): (p: Parcel)
    requires ArrivesAt(side, keyword)
    ensures p in side.inbox && p.message == keyword && p.Content() != ""
  {
    if Parcel(keyword, true) in side.inbox then Parcel(keyword, true) else Parcel(keyword, false)
  }

  lemma TakenHome(s: State, ka: string, kb: string)
    requires Inv(s, ka, kb) && ArrivesAt(s.a, ka)
    ensures Step(s, Handle(true, Arriving(s.a, ka))).a.app.received
  {
    HandleTakes(s, Arriving(s.a, ka), ka, kb);
  }

  lemma EchoedHome(s: State, ka: string, kb: string)
    requires Inv(s, ka, kb) && ArrivesAt(s.b, ka)
    ensures var t := Step(s, Handle(false, Arriving(s.b, ka)));
      Inv(t, ka, kb) && ArrivesAt(t.a, ka)
  {
    var e := Handle(false, Arriving(s.b, ka));
    HandleTakes(s.Mirror(), e.parcel, kb, ka);
    StepIsAccounted(s, e, ka, kb);
  }

  lemma BringInHome(s: State, ka: string, kb: string) returns (run: seq<Event>)
    requires Inv(s, ka, kb) && ArrivesAt(s.a, ka)
    ensures HandlesOnly(run) && After(s, run).a.app.received
  {
    var e := Handle(true, Arriving(s.a, ka));
    TakenHome(s, ka, kb);
    Runs.AfterFirst(Step, s, e, []);
    run := [e] + [];
  }

  lemma BringBackHome(s: State, ka: string, kb: string) returns (run: seq<Event>)
    requires Inv(s, ka, kb) && ArrivesAt(s.b, ka)
    ensures HandlesOnly(run) && After(s, run).a.app.received
  {
    var e := Handle(false, Arriving(s.b, ka));
    EchoedHome(s, ka, kb);
    var rest := BringInHome(Step(s, e), ka, kb);
    Runs.AfterFirst(Step, s, e, rest);
    run := [e] + rest;
  }

  lemma BringHome(s: State, ka: string, kb: string) returns (run: seq<Event>)
    requires Inv(s, ka, kb) && CanComeHome(s)
    ensures HandlesOnly(run) && After(s, run).a.app.received
  {
    if s.a.app.received {
      run := [];
    } else if ArrivesAt(s.a, ka) {
      run := BringInHome(s, ka, kb);
    } else {
      run := BringBackHome(s, ka, kb);
    }
  }

  /** If A's keyword does not arrive anywhere, A takes only its peer's, and echoes it. */
  lemma HandlingAtA(s: State, parcel: Parcel, ka: string, kb: string)
    requires Inv(s, ka, kb) && !CanComeHome(s)
    ensures !CanComeHome(HandleAtA(s, parcel))
  {
    if Takes(s, parcel) {
      HandleTakes(s, parcel, ka, kb);
      assert parcel == Parcel(parcel.message, true) || parcel == Parcel(parcel.message, false);
      assert parcel.message == kb;
    }
  }

  lemma HandlingAtB(s: State, parcel: Parcel, ka: string, kb: string)
    requires Inv(s, ka, kb) && !CanComeHome(s)
    ensures !CanComeHome(HandleAtA(s.Mirror(), parcel).Mirror())
  {
    if Takes(s.Mirror(), parcel) {
      HandleTakes(s.Mirror(), parcel, kb, ka);
      assert parcel == Parcel(parcel.message, true) || parcel == Parcel(parcel.message, false);
      assert parcel.message == kb;
    }
  }

  lemma HandlingBringsNothingNew(s: State, e: Event, ka: string, kb: string)
    requires Inv(s, ka, kb) && e.Handle? && !CanComeHome(s)
    ensures Inv(Step(s, e), ka, kb) && !CanComeHome(Step(s, e))
  {
    StepIsAccounted(s, e, ka, kb);
    if e.atA {
      HandlingAtA(s, e.parcel, ka, kb);
    } else {
      HandlingAtB(s, e.parcel, ka, kb);
    }
  }

  lemma {:induction false} NothingComesHome(s: State, ka: string, kb: string, run: seq<Event>)
    requires Inv(s, ka, kb) && HandlesOnly(run) && !CanComeHome(s)
    ensures Inv(After(s, run), ka, kb) && !CanComeHome(After(s, run))
    decreases |run|
  {
    if run != [] {
      var init := run[..|run| - 1];
      assert forall e :: e in init ==> e in run;
      NothingComesHome(s, ka, kb, init);
      assert run[|run| - 1] in run;
      HandlingBringsNothingNew(After(s, init), run[|run| - 1], ka, kb);
    }
  }

  /** Handling what is under way can bring A's keyword home exactly if it is held or arrives in a form that is taken. */
  lemma ComesHomeIff(s: State, ka: string, kb: string)
    requires Inv(s, ka, kb)
    ensures (exists run :: HandlesOnly(run) && After(s, run).a.app.received) <==> CanComeHome(s)
  {
    if CanComeHome(s) {
      var run := BringHome(s, ka, kb);
    } else {
      forall run | HandlesOnly(run) ensures !After(s, run).a.app.received {
        NothingComesHome(s, ka, kb, run);
      }
    }
  }

  /**
   * A resend of A's keyword lets it come home, unless it is the empty one: that is resent as an empty
   * datagram, which no application takes.
   */
  lemma ResendRevivesIff(s: State, ka: string, kb: string)
    requires Inv(s, ka, kb) && ka in s.a.buffer
    ensures Tokens(ResendAtA(s)) >= 1
    ensures CanComeHome(ResendAtA(s)) <==> ka != "" || CanComeHome(s)
  {
    ResendIsAccounted(s, ka, kb);
    var parcels := multiset(Parcels(s.a.buffer));
    assert Parcel(ka, false) in parcels && Parcel(ka, true) !in parcels;
  }
}
