/** What the mobile nodes' buffers hold in a run of the two echo applications (EchoApp.cc, SimpleMobileNode.cc). */
module EchoBuffers {
  import opened Wrappers
  import opened EchoApp
  import opened EchoTokens

  /** The message that A posts in a step, if it posts one. */
  function PostAtA(s: State, e: Event): Option<string> {
    if !e.atA then None
    else match e
      case Heartbeat(_) => s.a.app.Send(s.a.app.keyword).sent
      case Handle(_, parcel) => if Takes(s, parcel) then s.a.app.Take(parcel.Content()).sent else None
      case _ => None
  }

  ghost predicate PostedAt(s: State, run: seq<Event>, m: string, i: nat)
    requires i < |run|
  {
    PostAtA(After(s, run[..i]), run[i]) == Some(m)
  }

  lemma BufferGrows(s: State, e: Event)
    ensures Step(s, e).a.buffer == s.a.buffer + match PostAtA(s, e) case None => {} case Some(m) => {m}
  {
  }

  ghost predicate Posted(s: State, run: seq<Event>, m: string) {
    exists i: nat :: i < |run| && PostedAt(s, run, m, i)
  }

  lemma PostedEarlier(s: State, init: seq<Event>, last: Event, m: string, i: nat)
    requires i < |init|
    ensures PostedAt(s, init + [last], m, i) <==> PostedAt(s, init, m, i)
  {
    assert (init + [last])[..i] == init[..i];
  }

  lemma PostedLast(s: State, init: seq<Event>, last: Event, m: string)
    ensures PostedAt(s, init + [last], m, |init|) <==> PostAtA(After(s, init), last) == Some(m)
  {
    assert (init + [last])[..|init|] == init;
  }

  lemma PostedUnfolds(s: State, init: seq<Event>, last: Event, m: string)
    ensures Posted(s, init + [last], m) <==> Posted(s, init, m) || PostAtA(After(s, init), last) == Some(m)
  {
    PostedLast(s, init, last, m);
    forall i: nat | i < |init| ensures PostedAt(s, init + [last], m, i) <==> PostedAt(s, init, m, i) {
      PostedEarlier(s, init, last, m, i);
    }
  }

  ghost predicate BufferIsPosted(s: State, run: seq<Event>, m: string) {
    m in After(s, run).a.buffer <==> Posted(s, run, m)
  }

  lemma BufferStaysPosted(s: State, init: seq<Event>, last: Event, m: string)
    requires BufferIsPosted(s, init, m)
    ensures BufferIsPosted(s, init + [last], m)
  {
    assert (init + [last])[..|init|] == init;
    BufferGrows(After(s, init), last);
    PostedUnfolds(s, init, last, m);
  }

  lemma {:induction false} BufferIsPostedFrom(s: State, run: seq<Event>, m: string)
    requires forall x :: x !in s.a.buffer
    ensures BufferIsPosted(s, run, m)
    decreases |run|
  {
    if run == [] {
      assert After(s, run) == s;
    } else {
      var init, last := run[..|run| - 1], run[|run| - 1];
      BufferIsPostedFrom(s, init, m);
      BufferStaysPosted(s, init, last, m);
      assert run == init + [last];
    }
  }

  /** A's buffer holds exactly what A has posted in the run. */
  lemma BufferIsAllPosted(ka: string, kb: string, run: seq<Event>, m: string)
    ensures m in After(Start(ka, kb), run).a.buffer <==> Posted(Start(ka, kb), run, m)
  {
    BufferIsPostedFrom(Start(ka, kb), run, m);
  }
}
