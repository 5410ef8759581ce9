/** One socket queue shared by two threads (EchoApp.cc, SimpleMobileNode.cc). */
module SharedSocket {
  // Each thread peeks at the head and, if the datagram is for it, receives in a second, separate
  // system call. The threads, and arrivals, interleave arbitrarily.

  import opened Wrappers
  import opened Sequences
  import Runs

  /** A datagram: whether the rendezvous server sent it, and its content. */
  datatype Datagram = Datagram(fromServer: bool, content: string) {
    predicate ForApp() { content != "" && !fromServer }

    predicate ForNode() { content != "" && fromServer }
  }

  /**
   * The queue, what each thread has peeked at and decided to receive, and what each has received.
   * `arrived` is the history of arrivals.
   */
  datatype State = State(queue: seq<Datagram>, appPeek: Option<Datagram>, nodePeek: Option<Datagram>,
                         appLog: seq<Datagram>, nodeLog: seq<Datagram>, arrived: seq<Datagram>)

  const START := State([], None, None, [], [], [])

  datatype Event = Arrive(d: Datagram) | AppPeek | AppReceive | NodePeek | NodeReceive

  /** A receive takes whatever is at the head at that moment, if anything is. */
  function Step(s: State, e: Event): State {
    match e
    case Arrive(d) => s.(queue := s.queue + [d], arrived := s.arrived + [d])
    case AppPeek =>
      if s.appPeek.Some? then s
      else s.(appPeek := if s.queue != [] && s.queue[0].ForApp() then Some(s.queue[0]) else None)
    case AppReceive =>
      if s.appPeek.None? then s
      else if s.queue == [] then s.(appPeek := None)
      else s.(appPeek := None, queue := s.queue[1..], appLog := s.appLog + [s.queue[0]])
    case NodePeek =>
      if s.nodePeek.Some? then s
      else s.(nodePeek := if s.queue != [] && s.queue[0].ForNode() then Some(s.queue[0]) else None)
    case NodeReceive =>
      if s.nodePeek.None? then s
      else if s.queue == [] then s.(nodePeek := None)
      else s.(nodePeek := None, queue := s.queue[1..], nodeLog := s.nodeLog + [s.queue[0]])
  }

  function After(s: State, run: seq<Event>): State {
    Runs.After(Step, s, run)
  }

  ghost predicate Reachable(s: State) {
    exists run :: s == After(START, run)
  }

  /** What has left the queue. */
  function Consumed(s: State): seq<Datagram>
    requires |s.queue| <= |s.arrived|
  {
    s.arrived[..|s.arrived| - |s.queue|]
  }

  /** A thread that has decided to receive finds the datagram it peeked at still at the head. */
  ghost predicate PeeksHold(s: State) {
    && (s.appPeek.Some? ==> s.queue != [] && s.appPeek.value == s.queue[0] && s.queue[0].ForApp())
    && (s.nodePeek.Some? ==> s.queue != [] && s.nodePeek.value == s.queue[0] && s.queue[0].ForNode())
  }

  /** Arrivals leave in order; each goes to the thread it is for, and to no other. */
  ghost predicate LogsSplitArrivals(s: State) {
    && |s.queue| <= |s.arrived| && s.queue == s.arrived[|s.arrived| - |s.queue|..]
    && s.appLog == Filter((d: Datagram) => d.ForApp(), Consumed(s))
    && s.nodeLog == Filter((d: Datagram) => d.ForNode(), Consumed(s))
    && forall d :: d in Consumed(s) ==> d.ForApp() || d.ForNode()
  }

  ghost predicate Inv(s: State) { PeeksHold(s) && LogsSplitArrivals(s) }

  lemma ConsumeHead(s: State, t: State)
    requires LogsSplitArrivals(s) && s.queue != [] && t.queue == s.queue[1..] && t.arrived == s.arrived
    ensures |t.queue| <= |t.arrived| && t.queue == t.arrived[|t.arrived| - |t.queue|..]
    ensures Consumed(t) == Consumed(s) + [s.queue[0]]
  {
  }

  lemma ReceiveKeepsLogs(s: State, e: Event)
    requires Inv(s) && (e.AppReceive? || e.NodeReceive?)
    ensures LogsSplitArrivals(Step(s, e))
  {
    var t := Step(s, e);
    if if e.AppReceive? then s.appPeek.Some? else s.nodePeek.Some? {
      ConsumeHead(s, t);
      FilterAppend((d: Datagram) => d.ForApp(), Consumed(s), s.queue[0]);
      FilterAppend((d: Datagram) => d.ForNode(), Consumed(s), s.queue[0]);
    }
  }

  lemma ArriveKeepsInv(s: State, d: Datagram)
    requires Inv(s)
    ensures Inv(Step(s, Arrive(d)))
  {
    assert Consumed(Step(s, Arrive(d))) == Consumed(s);
  }

  lemma StepKeepsInv(s: State, e: Event)
    requires Inv(s)
    ensures Inv(Step(s, e))
  {
    match e {
      case Arrive(d) => ArriveKeepsInv(s, d);
      case AppPeek =>
      case NodePeek =>
      case AppReceive => ReceiveKeepsLogs(s, e);
      case NodeReceive => ReceiveKeepsLogs(s, e);
    }
  }

  /** In every interleaving the threads' receives split the arrivals between them, in order. */
  lemma {:induction false} EveryRunKeepsInv(run: seq<Event>)
    ensures Inv(After(START, run))
    decreases |run|
  {
    if run != [] {
      EveryRunKeepsInv(run[..|run| - 1]);
      StepKeepsInv(After(START, run[..|run| - 1]), run[|run| - 1]);
    }
  }

  /** A receive removes exactly the datagram that was peeked at, and the other thread is not about to. */
  lemma ReceiveTakesWhatWasPeeked(s: State)
    requires Reachable(s)
    ensures s.appPeek.Some? ==> s.nodePeek.None? && s.queue == [s.appPeek.value] + Step(s, AppReceive).queue
    ensures s.appPeek.Some? ==> Step(s, AppReceive).appLog == s.appLog + [s.appPeek.value]
    ensures s.nodePeek.Some? ==> s.appPeek.None? && s.queue == [s.nodePeek.value] + Step(s, NodeReceive).queue
    ensures s.nodePeek.Some? ==> Step(s, NodeReceive).nodeLog == s.nodeLog + [s.nodePeek.value]
  {
    var run :| s == After(START, run);
    EveryRunKeepsInv(run);
  }

  // ----- Progress -----

  ghost predicate ThreadStepsOnly(run: seq<Event>) {
    forall i :: 0 <= i < |run| ==> !run[i].Arrive?
  }

  /** The threads can take the head if it has any content. */
  lemma TakeHead(s: State) returns (run: seq<Event>)
    requires Inv(s) && s.queue != [] && s.queue[0].content != ""
    ensures ThreadStepsOnly(run) && Inv(After(s, run)) && After(s, run).queue == s.queue[1..]
  {
    if s.queue[0].fromServer {
      run := TwoSteps(s, NodePeek, NodeReceive);
    } else {
      run := TwoSteps(s, AppPeek, AppReceive);
    }
  }

  lemma TwoSteps(s: State, e: Event, f: Event) returns (run: seq<Event>)
    requires Inv(s) && !e.Arrive? && !f.Arrive?
    ensures ThreadStepsOnly(run) && After(s, run) == Step(Step(s, e), f) && Inv(After(s, run))
  {
    run := [e, f];
    StepKeepsInv(s, e);
    StepKeepsInv(Step(s, e), f);
    Runs.AfterTwo(Step, s, e, f);
  }

  lemma {:induction false} Drain(s: State) returns (run: seq<Event>)
    requires Inv(s) && forall d :: d in s.queue ==> d.content != ""
    ensures ThreadStepsOnly(run) && After(s, run).queue == []
    decreases |s.queue|
  {
    if s.queue == [] {
      return [];
    }
    var a := TakeHead(s);
    var b := Drain(After(s, a));
    run := a + b;
    Runs.AfterConcat(Step, s, a, b);
  }

  /** A datagram without content is received by neither thread, and blocks all behind it. */
  lemma {:induction false} EmptyDatagramStays(s: State, run: seq<Event>, k: nat)
    requires Inv(s) && ThreadStepsOnly(run) && k < |s.queue| && s.queue[k].content == ""
    ensures Inv(After(s, run)) && exists j :: 0 <= j < |After(s, run).queue| && After(s, run).queue[j].content == ""
    decreases |run|
  {
    if run != [] {
      var init := run[..|run| - 1];
      EmptyDatagramStays(s, init, k);
      var t := After(s, init);
      var j: nat :| j < |t.queue| && t.queue[j].content == "";
      EmptyDatagramStaysOnce(t, run[|run| - 1], j);
    }
  }

  lemma EmptyDatagramStaysOnce(t: State, e: Event, j: nat)
    requires Inv(t) && !e.Arrive? && j < |t.queue| && t.queue[j].content == ""
    ensures Inv(Step(t, e)) && exists i :: 0 <= i < |Step(t, e).queue| && Step(t, e).queue[i].content == ""
  {
    StepKeepsInv(t, e);
    var u := Step(t, e);
    assert u.queue == t.queue || (u.queue == t.queue[1..] && t.queue[0].content != "");
    if u.queue == t.queue {
      assert u.queue[j].content == "";
    } else {
      assert u.queue[j - 1] == t.queue[j];
    }
  }

  /** The threads can empty the queue exactly when every datagram in it has content. */
  lemma DrainsIff(s: State)
    requires Reachable(s)
    ensures (exists run :: ThreadStepsOnly(run) && After(s, run).queue == []) <==>
      forall d :: d in s.queue ==> d.content != ""
  {
    var run :| s == After(START, run);
    EveryRunKeepsInv(run);
    if forall d :: d in s.queue ==> d.content != "" {
      var drain := Drain(s);
    } else {
      var k :| 0 <= k < |s.queue| && s.queue[k].content == "";
      forall run' | ThreadStepsOnly(run') ensures After(s, run').queue != [] {
        EmptyDatagramStays(s, run', k);
      }
    }
  }
}
