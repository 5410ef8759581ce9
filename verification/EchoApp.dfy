/**
 * The echo application (EchoApp.cc): it sends its keyword, waits until the peer's echo of it comes
 * back, and echoes everything else that it receives.
 */
module EchoApp {
  import opened Wrappers
  import opened IpAddress
  import opened Network
  import opened ResendBuffer
  import opened MobileNode

  /** A message as it is sent: with its terminating NUL. */
  function OnWire(message: string): string { message + ['\0'] }

  /** What is left of an application after a call, and the message that the call sends. */
  datatype Outcome = Outcome(app: App, sent: Option<string>)

  /** An application: its keyword, and whether that is back from the peer. */
  datatype App = App(keyword: string, received: bool) {
    /** The keyword goes out only once it has come back. */
    function Send(message: string): Outcome {
      if message == keyword && !received then Outcome(this, None)
      else Outcome(App(keyword, received && message != keyword), Some(message))
    }

    /** The application's own keyword is buried, the rest is echoed. */
    function Take(content: string): Outcome {
      var text := Received(content);
      if text == keyword then Outcome(App(keyword, true), None) else Send(text)
    }
  }

  /** A datagram that the application takes: one with content that is not the rendezvous server's. */
  predicate ForApp(inbox: seq<Datagram>, rendezvousServer: Address) {
    inbox != [] && inbox[0].content != "" && inbox[0].source.address != rendezvousServer
  }

  class EchoApp {
    const keyword: string
    const rendezvousServer: Address
    const appSocket: Descriptor
    const host: Host
    const mobileNode: SimpleMobileNode
    /** The structure that the mobile node returned, and keeps up to date. */
    const peerInfo: SockAddr
    var received: bool

    constructor (keyword: string, rendezvousServer: Address, appSocket: Descriptor, host: Host,
                 mobileNode: SimpleMobileNode, peerInfo: SockAddr)
      ensures this.keyword == keyword && this.rendezvousServer == rendezvousServer && this.appSocket == appSocket
      ensures this.host == host && this.mobileNode == mobileNode && this.peerInfo == peerInfo && received
    {
      this.keyword, this.rendezvousServer, this.appSocket := keyword, rendezvousServer, appSocket;
      this.host, this.mobileNode, this.peerInfo, received := host, mobileNode, peerInfo, true;
    }

    function Buffers(): ResendBuffer.Buffers
      reads mobileNode`appSocketMessages
    {
      mobileNode.appSocketMessages
    }

    function State(): App
      reads this`received
    {
      App(keyword, received)
    }

    /** What is put on the wire, if anything is. */
    function Posted(message: Option<string>, dest: Endpoint): seq<Sent> {
      if message.None? then [] else [Sent(appSocket, dest, message.value + ['\0'])]
    }

    /** Sends to the peer, unless told where to. */
    method SendMessage(message: string, dest: Option<Endpoint>) returns (ok: bool)
      modifies this`received, host`sent, mobileNode`appSocketMessages
      ensures State() == old(State()).Send(message).app && ok == old(State()).Send(message).sent.Some?
      ensures host.sent == old(host.sent)
        + Posted(old(State()).Send(message).sent, if dest.None? then peerInfo.Value() else dest.value)
      ensures Buffers() == if ok then Apply(old(Buffers()), Op.MessageSent(appSocket, message)) else old(Buffers())
    {
      if message == keyword && !received {
        return false;
      }
      if message == keyword {
        received := false;
      }
      var to := if dest.None? then peerInfo.Value() else dest.value;
      host.SendTo(appSocket, to, OnWire(message));
      mobileNode.MessageSent(appSocket, message);
      ok := true;
    }

    /** Takes the oldest datagram, provided that it is for the application, and answers its source. */
    method PrintReceivedData()
      modifies this`received, host, mobileNode`appSocketMessages
      ensures !ForApp(old(host.Inbox(appSocket)), rendezvousServer) ==>
        State() == old(State()) && host.sent == old(host.sent) && Buffers() == old(Buffers())
      ensures !ForApp(old(host.Inbox(appSocket)), rendezvousServer) ==>
        forall k :: host.Inbox(k) == old(host.Inbox(k))
      ensures ForApp(old(host.Inbox(appSocket)), rendezvousServer) ==>
        Took(old(host.Inbox(appSocket))[0], old(State()), old(host.sent), old(Buffers()))
      ensures ForApp(old(host.Inbox(appSocket)), rendezvousServer) ==>
        forall k :: host.Inbox(k) == if k == appSocket then old(host.Inbox(k))[1..] else old(host.Inbox(k))
    {
      var d := host.Peek(appSocket);
      if d.None? || d.value.content == "" || d.value.source.address == rendezvousServer {
        return;
      }
      var _ := host.Receive(appSocket);
      Answer(d.value);
    }

    /** The state after taking a datagram; a message echoed is also buffered. */
    ghost predicate Took(d: Datagram, app: App, sent: seq<Sent>, buffers: ResendBuffer.Buffers)
      reads this`received, host`sent, mobileNode`appSocketMessages
    {
      var outcome := app.Take(d.content);
      && State() == outcome.app && host.sent == sent + Posted(outcome.sent, d.source)
      && (forall k :: k != appSocket ==> Buffer(Buffers(), k) == Buffer(buffers, k))
      && Buffer(Buffers(), appSocket) == Buffer(buffers, appSocket) +
        if outcome.sent.Some? then {outcome.sent.value} else {}
    }

    method Answer(d: Datagram)
      modifies this`received, host`sent, mobileNode`appSocketMessages
      ensures Took(d, old(State()), old(host.sent), old(Buffers()))
    {
      var text := Received(d.content);
      mobileNode.MessageReceived(appSocket, text);
      if text != keyword {
        var ok := SendMessage(text, Some(d.source));
        assert ok;
        mobileNode.MessageReceived(appSocket, text);
      } else {
        received := true;
      }
    }
  }
}
