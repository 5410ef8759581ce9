/** The buffers of messages that a mobile node keeps for resending (SimpleMobileNode.cc, MobileNode.h). */
module ResendBuffer {
  import opened Network

  /** What a node is told about a socket's messages. */
  datatype Op =
    | MessageSent(socket: Descriptor, message: string)
    | MessageReceived(socket: Descriptor, message: string)

  type Buffers = map<Descriptor, set<string>>

  /** A socket's buffer; the first use of a missing one inserts the empty set. */
  function Buffer(buffers: Buffers, socket: Descriptor): set<string> {
    if socket in buffers then buffers[socket] else {}
  }

  /** An acknowledged message is erased from a copy of the buffer only. */
  function Apply(buffers: Buffers, op: Op): Buffers {
    match op
    case MessageSent(k, m) => buffers[k := Buffer(buffers, k) + {m}]
    case MessageReceived(k, _) => buffers[k := Buffer(buffers, k)]
  }

  function After(history: seq<Op>): Buffers {
    if history == [] then map[] else Apply(After(history[..|history| - 1]), history[|history| - 1])
  }

  /** The buffer as MobileNode.h describes it: an acknowledgement frees the message. */
  function Outstanding(history: seq<Op>, socket: Descriptor): set<string> {
    if history == [] then {}
    else
      var before := Outstanding(history[..|history| - 1], socket);
      match history[|history| - 1]
      case MessageSent(k, m) => if k == socket then before + {m} else before
      case MessageReceived(k, m) => if k == socket then before - {m} else before
  }

  /** A buffer holds exactly the messages ever sent on its socket. */
  lemma {:induction false} BufferIsAllEverSent(history: seq<Op>, socket: Descriptor)
    ensures forall m :: m in Buffer(After(history), socket) <==> MessageSent(socket, m) in history
    decreases |history|
  {
    if history != [] {
      var init := history[..|history| - 1];
      BufferIsAllEverSent(init, socket);
      assert history == init + [history[|history| - 1]];
    }
  }

  ghost predicate SentAndNotAcknowledgedSince(history: seq<Op>, socket: Descriptor, m: string) {
    exists i :: 0 <= i < |history| && history[i] == MessageSent(socket, m) &&
      MessageReceived(socket, m) !in history[i..]
  }

  lemma SinceAfterOneMore(history: seq<Op>, op: Op, socket: Descriptor, m: string)
    ensures SentAndNotAcknowledgedSince(history + [op], socket, m) <==>
      op != MessageReceived(socket, m) &&
      (op == MessageSent(socket, m) || SentAndNotAcknowledgedSince(history, socket, m))
  {
    var more := history + [op];
    if SentAndNotAcknowledgedSince(history, socket, m) && op != MessageReceived(socket, m) {
      var i :| 0 <= i < |history| && history[i] == MessageSent(socket, m) && MessageReceived(socket, m) !in history[i..];
      assert more[i] == history[i] && more[i..] == history[i..] + [op];
    }
    if op == MessageSent(socket, m) {
      assert more[|history|] == op && more[|history|..] == [op];
    }
    if SentAndNotAcknowledgedSince(more, socket, m) {
      var i :| 0 <= i < |more| && more[i] == MessageSent(socket, m) && MessageReceived(socket, m) !in more[i..];
      assert op == more[i..][|history| - i];
      if i < |history| {
        assert history[i] == more[i] && more[i..] == history[i..] + [op];
      }
    }
  }

  /** The described buffer is what its description says. */
  lemma {:induction false} OutstandingMeaning(history: seq<Op>, socket: Descriptor, m: string)
    ensures m in Outstanding(history, socket) <==> SentAndNotAcknowledgedSince(history, socket, m)
    decreases |history|
  {
    if history != [] {
      var init, last := history[..|history| - 1], history[|history| - 1];
      OutstandingMeaning(init, socket, m);
      SinceAfterOneMore(init, last, socket, m);
      assert history == init + [last];
    }
  }

  /** Nothing outstanding is missing from a buffer. */
  lemma {:induction false} OutstandingIsBuffered(history: seq<Op>, socket: Descriptor)
    ensures Outstanding(history, socket) <= Buffer(After(history), socket)
    decreases |history|
  {
    if history != [] {
      OutstandingIsBuffered(history[..|history| - 1], socket);
    }
  }

  /** An acknowledgement that finds its message in the buffer. */
  ghost predicate Effective(history: seq<Op>, j: nat, socket: Descriptor)
    requires j < |history|
  {
    history[j].MessageReceived? && history[j].socket == socket && history[j].message in Buffer(After(history[..j]), socket)
  }

  lemma OutstandingAfter(history: seq<Op>, j: nat, socket: Descriptor)
    requires j < |history| && Outstanding(history[..j], socket) == Buffer(After(history[..j]), socket)
    ensures Outstanding(history[..j + 1], socket) == Buffer(After(history[..j + 1]), socket) <==> !Effective(history, j, socket)
  {
    assert history[..j + 1][..j] == history[..j];
  }

  /**
   * The buffer is as described throughout a history exactly if no acknowledgement in it finds its
   * message in the buffer, which a caller can tell by looking before the call.
   */
  lemma {:induction false} BufferIsAsDescribedIff(history: seq<Op>, socket: Descriptor, n: nat)
    requires n <= |history|
    ensures (forall i :: 0 <= i <= n ==> Outstanding(history[..i], socket) == Buffer(After(history[..i]), socket)) <==>
      forall j :: 0 <= j < n ==> !Effective(history, j, socket)
    decreases n
  {
    if n > 0 {
      BufferIsAsDescribedIff(history, socket, n - 1);
      if Outstanding(history[..n - 1], socket) == Buffer(After(history[..n - 1]), socket) {
        OutstandingAfter(history, n - 1, socket);
      }
    }
  }

  /** One message sent and acknowledged is still in the buffer. */
  lemma AcknowledgedMessageStays(socket: Descriptor, m: string)
    ensures var history := [MessageSent(socket, m), MessageReceived(socket, m)];
      Outstanding(history, socket) == {} && Buffer(After(history), socket) == {m}
  {
    var history := [MessageSent(socket, m), MessageReceived(socket, m)];
    BufferIsAllEverSent(history, socket);
    assert history[..1] == [MessageSent(socket, m)] && history[..1][..0] == [];
    assert m in Buffer(After(history), socket);
    assert Outstanding(history[..1], socket) == {m};
  }
}
