/** The datagram sockets of one host: what waits at each, and what the host has handed over to be sent. */
module Network {
  import opened Wrappers
  import opened IpAddress

  /** A socket of the host. */
  datatype Descriptor = Descriptor(fd: int)

  datatype Endpoint = Endpoint(address: Address, port: nat)

  datatype Datagram = Datagram(source: Endpoint, content: string)

  datatype Sent = Sent(socket: Descriptor, dest: Endpoint, content: string)

  /** A socket address in memory, which an application and its mobile node share. */
  class SockAddr {
    var address: Address
    var port: nat

    constructor (address: Address, port: nat)
      ensures this.address == address && this.port == port
    {
      this.address, this.port := address, port;
    }

    function Value(): Endpoint
      reads this
    {
      Endpoint(address, port)
    }
  }

  function InboxOf(inboxes: map<Descriptor, seq<Datagram>>, socket: Descriptor): seq<Datagram> {
    if socket in inboxes then inboxes[socket] else []
  }

  class Host {
    var inboxes: map<Descriptor, seq<Datagram>>
    var sent: seq<Sent>

    function Inbox(socket: Descriptor): seq<Datagram>
      reads this
    {
      InboxOf(inboxes, socket)
    }

    /** The oldest datagram, left where it is. */
    method Peek(socket: Descriptor) returns (d: Option<Datagram>)
      ensures d == if Inbox(socket) == [] then None else Some(Inbox(socket)[0])
    {
      d := if Inbox(socket) == [] then None else Some(Inbox(socket)[0]);
    }

    method Receive(socket: Descriptor) returns (d: Option<Datagram>)
      modifies this`inboxes
      ensures d == if old(Inbox(socket)) == [] then None else Some(old(Inbox(socket))[0])
      ensures Inbox(socket) == if old(Inbox(socket)) == [] then [] else old(Inbox(socket))[1..]
      ensures forall k :: k != socket ==> InboxOf(inboxes, k) == InboxOf(old(inboxes), k)
    {
      d := Peek(socket);
      if d.Some? {
        inboxes := inboxes[socket := inboxes[socket][1..]];
      }
    }

    method SendTo(socket: Descriptor, dest: Endpoint, content: string)
      modifies this`sent
      ensures sent == old(sent) + [Sent(socket, dest, content)]
    {
      sent := sent + [Sent(socket, dest, content)];
    }
  }
}
