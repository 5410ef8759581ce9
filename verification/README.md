# Permanent IP identifiers: a verified model

The repository lets two mobile hosts keep talking while both change address. A *rendezvous server*
keeps a registry of names and pushes every new registration to the subscribers of that name. Each
host runs a *mobile node* that registers the host when it has moved, polls the application sockets for
pushed updates, rewrites the peer's address in place and resends buffered messages. An *echo
application* shares its socket with that node. The repository also bundles Google Test, whose small
algorithmic engines are modelled here too.

The modules follow the program:

- `Rendezvous`, `PeerConnection`, `Network`, `ResendBuffer`, `MobileNode`, `EchoApp`: the objects whose
  methods update their fields, as classes. Each method is proved against a function of the old state.
- `SharedSocket`, `NodeDaemon`, `Mobility`, `LostUpdates`, `EchoTokens`, `EchoBuffers`,
  `EchoRelocation`: transition systems built from those functions. Their theorems range over every run,
  with every interleaving of the steps.
- `Refinement`: a poll of the mobile node is a run of `Mobility`'s steps, and both readers of a socket
  take the steps of `SharedSocket`.
- `IpAddress`, `AddressText`: the two address conversions and the message formats, and what the texts
  are, digit by digit.
- `Regex`, `TestFilter`, `Utf8`, `Utf8Validity`, `StringLiteral`, `PrintedText`, `XmlCData`,
  `TestOrder`, `ShuffleDraws`, `TestRuns`, `TestSharding`, `CommandLine`, `PrimeTables`: the engines of
  Google Test and its samples, each against an independent definition (a language, a table of
  characters, a decoder, a lexer, a parser, a stream of draws, primality).
- `Wrappers`, `Strings`, `Sequences`, `Runs`, `Arithmetic`, `OutputStream`: shared vocabulary.

Where the code and its documentation disagree, the code is modelled:

- README:9-10 says that both hosts may move at the same time without losing contact. An update goes to
  the address that the subscriber is registered at, so only the node whose last registration was
  processed earlier is sure to know the other (`Mobility.EarlierRegistrantReachesLater`);
  `LostUpdates.LaterRegistrantReachesIff` says for every run exactly when both do.
- MobileNode.h says that an acknowledged message is freed from the buffer. The code erases it from a
  copy, so a buffer is all that was ever sent (`ResendBuffer.BufferIsAllEverSent`), and it is as
  described exactly while no acknowledgement finds its message (`ResendBuffer.BufferIsAsDescribedIff`);
  one message sent and acknowledged already differs (`ResendBuffer.AcknowledgedMessageStays`). So a
  relocation restores an echo token that was lost with the old address, and doubles one that was
  posted before but not lost (`EchoRelocation.RelocationKeepsTokensIff`).
- The daemon samples its location at construction, and twice in each turn, as if they were one. A node
  that moves in between can stay registered elsewhere (`NodeDaemon.ReturnIsMissed`,
  `NodeDaemon.MoveWithinTurnIsMissed`); `NodeDaemon.RegisteredThroughoutIff` is the exact condition.
- The fan-out reads a missing registration as the empty text and stores it, so a later lookup of that
  name both fails and subscribes (`PeerConnection.EmptyBindingMisleads`); `Rendezvous.BoundToEmptyIff`
  says exactly which names are in that state.
- `RE::FullMatch` takes a trailing escaped `$` for the end anchor (`Regex.FullMatchIsWholeMatchIff`).
- The string printer writes NUL as `\0` even before an octal digit (`StringLiteral.NulOneIsMisread`).
- The comments on `CodePointToUtf8` and `WideStringToUtf8` promise a message for values above U+10FFFF.
  The code encodes those up to 0x1FFFFF (`Utf8Validity.FirstInvalidIsEncoded`); the promise is met
  exactly for strings without such a unit (`Utf8Validity.TranscodedIsDocumentedIff`).
- With a precalculated table that reaches 2, the hybrid `GetNextPrime(-1)` is 2, where trial division
  alone gives -1.

## Model

| member | source | states |
|---|---|---|
| Mobility.StepKeepsInv | src/RendezvousServer/SimpleRendezvousServer.cc:140-185 | Every move, registration, lookup, delivery, loss and poll keeps: a settled node is registered where it is, a socket subscribes only to its own peer, and nothing was sent to a socket before it subscribed |
| Mobility.EarlierRegistrantReachesLater | src/RendezvousServer/SimpleRendezvousServer.cc:140-172 | Simultaneous mobility: in every reachable state of two settled, mutually subscribed nodes, exactly one has the earlier last registration, and it sends or will send to the other's current location |
| Mobility.QuiescentNodesKeepContact | src/MobileNode/SimpleMobileNode.cc:48-103 | With nothing unread, the earlier registrant holds the other's current location, so one of the two always does |
| Mobility.EarlierRegistrantSettles | src/MobileNode/SimpleMobileNode.cc:73-80 | Deliveries and polls of its own socket alone bring the earlier registrant there |
| Mobility.SimultaneousMoveLosesOneIff | src/RendezvousServer/SimpleRendezvousServer.cc:154-168 | The plainest schedule: after both nodes of a pair in step move and register in turn, the second is reached, and reaches the first exactly when one of the moves led nowhere new |
| LostUpdates.LaterRegistrantReachesIff | src/RendezvousServer/SimpleRendezvousServer.cc:140-172 | For every run that ends with both nodes settled: the earlier registrant reaches the later, and the later reaches the earlier if and only if the last step that decides about its socket keeps it current, told from the state before that step |
| LostUpdates.CurrentIsDecidedLast | src/RendezvousServer/SimpleRendezvousServer.cc:142-168 | In every run, whether a socket is current is what its last deciding step made of it: connecting, a registration of its peer, or a move of its node |
| LostUpdates.StepDecidesIff | src/RendezvousServer/SimpleRendezvousServer.cc:142-168 | The exact effect of any step, the subscriber's own moves included, on whether the socket will have the server's entry |
| LostUpdates.MoveKeepsViewIff | src/MobileNode/SimpleMobileNode.cc:63-80 | A move to where nothing is under way keeps what a socket will know exactly if nothing was under way to the old place, or its last text repeats what is held or queued |
| LostUpdates.SomeStepDecided | src/MobileNode/SimpleMobileNode.cc:112-125 | Every connected socket has had a deciding step |
| Mobility.PairsGetInStep | src/MobileNode/SimpleMobileNode.cc:105-126 | From every initial state two registrations and two lookups bring such a pair in step, so the loss is reachable |
| Mobility.RegisterReachesIff | src/RendezvousServer/SimpleRendezvousServer.cc:148-168 | A registration changes what a connected socket will know exactly if it is of the socket's peer and the server has the subscriber registered where it is |
| Mobility.CoherenceIsKept | src/RendezvousServer/SimpleRendezvousServer.cc:142-168 | Push-cache coherence for a stationary subscriber: any other step keeps the last of its stored and unread addresses equal to the server's entry for its peer (a move of the subscriber is decided by `LostUpdates.StepDecidesIff`) |
| Mobility.CoherenceOverRuns | src/RendezvousServer/SimpleRendezvousServer.cc:142-168 | The same over every run without a move of the subscriber |
| Mobility.ConnectingIsCurrent | src/MobileNode/SimpleMobileNode.cc:112-125 | The lookup that connects a socket makes it current, because nothing was sent to it before |
| Mobility.Settle | src/MobileNode/SimpleMobileNode.cc:73-80 | Draining a connected socket ends with the stored address equal to the last one sent, and moves no node |
| Mobility.StoredAddressWasRegistered | src/MobileNode/SimpleMobileNode.cc:80-121 | Provenance: in every reachable state each stored peer address is one from which that peer registered |
| Rendezvous.SimpleRendezvousServer.UpdateAddress | src/RendezvousServer/SimpleRendezvousServer.cc:140-172 | Stores the address, defaults the unregistered subscribers, and sends each subscriber exactly one update, to its registered address |
| Rendezvous.SimpleRendezvousServer.FanOut | src/RendezvousServer/SimpleRendezvousServer.cc:148-168 | The loop over the set sends one push per subscriber, in any order, and changes the registry only by defaulting |
| Rendezvous.SimpleRendezvousServer.ChangeSubscription | src/RendezvousServer/SimpleRendezvousServer.cc:174-185 | Toggles the pair's subscription when the client is registered, and returns its address or the empty text |
| Rendezvous.SimpleRendezvousServer.HandleRequests | src/RendezvousServer/SimpleRendezvousServer.cc:79-138 | A lookup is parsed and toggles once; a registration is stored and fanned out; anything else changes nothing |
| Rendezvous.OnePushEach | src/RendezvousServer/SimpleRendezvousServer.cc:148-168 | An update sends as many pushes as the name has subscribers |
| Rendezvous.ToggleParity | src/RendezvousServer/SimpleRendezvousServer.cc:174-185 | In every run a subscription is flipped exactly when an odd number of the pair's lookups found the client registered |
| Rendezvous.RegisteredStays | src/RendezvousServer/SimpleRendezvousServer.cc:140-172 | A registered name stays registered in every run |
| Rendezvous.BindingRule | src/RendezvousServer/SimpleRendezvousServer.cc:140-172 | In every run a name is bound once it has registered, or been a subscriber of a name that did, and to the text of its last registration |
| Rendezvous.BoundToEmptyIff | src/RendezvousServer/SimpleRendezvousServer.cc:154-155 | A name is bound to the empty text exactly if it last registered with that, or never registered and was a subscriber of a name that did |
| Rendezvous.TextStaysNonEmpty | src/RendezvousServer/SimpleRendezvousServer.cc:140-172 | A name registered with an address keeps one in every run in which it does not register with the empty text |
| PeerConnection.RegisterPeer | src/MobileNode/SimpleMobileNode.cc:105-126 | One attempt, for any names, makes the one lookup that the server parses from the request, if the name service knows a server, and yields the address unless its text is empty |
| PeerConnection.AskedIsOwnIff | src/RendezvousServer/SimpleRendezvousServer.cc:99-107 | That lookup is the node's own lookup of the peer exactly if the request survives transmission and parsing |
| PeerConnection.FoundIsLastRegistered | src/MobileNode/SimpleMobileNode.cc:112-121 | Over every history, a lookup yields the address from which the peer last registered, and nothing for a peer that never has |
| PeerConnection.ConnectToPeer | src/Applications/EchoApp.cc:76-85 | Between other nodes' events the loop makes at most 11 attempts, and just one if the peer has an address already; its effective lookups are the successful one and those that found the empty text |
| PeerConnection.ConnectingTogglesOnceIff | src/Applications/EchoApp.cc:76-85 | Over every history from the empty registry, a success toggles the subscription exactly once if and only if no lookup came while the peer was bound to the empty text, told by who had registered and subscribed before |
| PeerConnection.RegisteredPeerTogglesOnce | src/Applications/EchoApp.cc:76-85 | A peer with an address before the call, which does not register the empty text, costs exactly one toggle |
| PeerConnection.ConnectingSubscribesIff | src/Applications/EchoApp.cc:76-85 | In general a node that starts unsubscribed ends a success subscribed exactly when the number of empty bindings it met is even |
| PeerConnection.EmptyBindingMisleads | src/RendezvousServer/SimpleRendezvousServer.cc:154-155 | A run in which an empty binding leaves a connected node unsubscribed |
| MobileNode.SimpleMobileNode.RegisterPeer | src/MobileNode/SimpleMobileNode.cc:105-126 | For any names, returns a fresh shared address structure exactly on success, records it for the socket, and keeps structures unshared between sockets |
| MobileNode.SimpleMobileNode.Start | src/MobileNode/SimpleMobileNode.cc:13-14 | Registers from the location at the start, whatever the one at construction was |
| MobileNode.SimpleMobileNode.Turn | src/MobileNode/SimpleMobileNode.cc:16-23 | One turn of the daemon, with the locations at the check, at the registration and at the note: registers exactly if the first differs from the last one noted, polls, and notes the third |
| NodeDaemon.RegisteredThroughoutIff | src/MobileNode/SimpleMobileNode.cc:13-26 | Over every run of construction, start, turns and other nodes' events, the server has the node where the daemon last noted it, at every point, if and only if it has a name and the samples agree at the start and within each turn |
| NodeDaemon.RegisteredWhereNotedIff | src/MobileNode/SimpleMobileNode.cc:13-26 | After a run it does exactly if the last registration came from the last location noted |
| NodeDaemon.StillNodesAreRegistered | src/MobileNode/SimpleMobileNode.cc:16-23 | A named node that moves only while the daemon sleeps is always registered where it was last noted, whatever the server had for it before |
| NodeDaemon.ReturnIsMissed | src/MobileNode/SimpleMobileNode.h:45-49 | Constructed at one place, started at another and back at the first, a node stays registered at the second |
| NodeDaemon.MoveWithinTurnIsMissed | src/MobileNode/SimpleMobileNode.cc:18-22 | A move between the two samples of a turn is missed too |
| MobileNode.SimpleMobileNode.PollSubscriptions | src/MobileNode/SimpleMobileNode.cc:48-103 | Every socket whose head is an update takes it, gets the new address and keeps its port; no other socket, peer or buffer changes; the batch sent is the resends of the sockets with updates |
| MobileNode.SimpleMobileNode.ResendAll | src/MobileNode/SimpleMobileNode.cc:82-95 | Each buffered message is sent exactly once, to the peer as it now is |
| MobileNode.PollResendsEachOnce | src/MobileNode/SimpleMobileNode.cc:73-95 | Resend completeness: in a poll's batch a message occurs once if it was ever sent on a socket with an update and goes to that peer's new address, and otherwise not at all |
| Refinement.PollTakesUpdate | src/MobileNode/SimpleMobileNode.cc:73-95 | If the oldest datagram of a socket is the server's push of an address, then after the poll the peer is at that address and its old port, that datagram alone is gone, and each buffered message is sent once, there and nowhere else |
| Refinement.PollTakesText | src/MobileNode/SimpleMobileNode.cc:73-95 | The same for any text that the server pushes: the address is what the text reads as |
| Refinement.PollLeavesSocket | src/MobileNode/SimpleMobileNode.cc:67-73 | If there is no datagram, or the oldest is empty or from elsewhere, the peer and the queue stay and nothing is resent |
| Refinement.PollRefinesStep | src/MobileNode/SimpleMobileNode.cc:48-103 | On a socket, the poll of the code is the `Poll` step of `Mobility` if the server's datagram is at the head, and otherwise no step |
| Refinement.PollRefinesRun | src/MobileNode/SimpleMobileNode.cc:48-103 | A poll of all sockets is a run of `Poll` steps that leads to the state that the sockets are then in |
| MobileNode.SimpleMobileNode.MessageSent | src/MobileNode/SimpleMobileNode.cc:178-180 | Adds the message to the socket's buffer |
| MobileNode.SimpleMobileNode.MessageReceived | src/MobileNode/SimpleMobileNode.cc:182-186 | Leaves every buffer as it is, whatever it acknowledges |
| ResendBuffer.BufferIsAllEverSent | src/MobileNode/SimpleMobileNode.cc:178-186 | After any history a buffer holds exactly the messages ever sent on its socket |
| ResendBuffer.OutstandingMeaning | src/MobileNode/MobileNode.h:69-78 | The buffer that the header describes is what was sent and not acknowledged since |
| ResendBuffer.OutstandingIsBuffered | src/MobileNode/SimpleMobileNode.cc:178-186 | Nothing outstanding is missing from a buffer |
| ResendBuffer.BufferIsAsDescribedIff | src/MobileNode/SimpleMobileNode.cc:182-186 | The buffer is as the header describes throughout a history exactly if no acknowledgement finds its message in it |
| ResendBuffer.AcknowledgedMessageStays | src/MobileNode/SimpleMobileNode.cc:182-186 | The shortest history that differs: one send and its acknowledgement leave the message in the buffer |
| SharedSocket.EveryRunKeepsInv | src/Applications/EchoApp.cc:104-118 | In every interleaving each thread's log is the arrivals for it that have left the queue, in order, and everything that left is for one of the two |
| SharedSocket.ReceiveTakesWhatWasPeeked | src/MobileNode/SimpleMobileNode.cc:63-76 | A receive removes exactly the datagram that its thread peeked at, and the other thread is not about to receive |
| SharedSocket.DrainsIff | src/Applications/EchoApp.cc:104-118 | The threads can empty the queue exactly when every datagram in it has content |
| Refinement.HeadIsFor | src/Applications/EchoApp.cc:111-118 | A datagram with content is the node's if the server sent it and the application's otherwise; an empty one is neither's |
| Refinement.AppTakesItsSteps | src/Applications/EchoApp.cc:104-118 | The application's turn at its socket is its two steps of `SharedSocket`, from every state |
| Refinement.NodeTakesItsSteps | src/MobileNode/SimpleMobileNode.cc:61-80 | The node's poll of a socket is its two steps |
| EchoApp.EchoApp.SendMessage | src/Applications/EchoApp.cc:144-165 | The keyword goes out only if it is back, and then is not; what is sent is buffered |
| EchoApp.EchoApp.PrintReceivedData | src/Applications/EchoApp.cc:97-142 | Takes the head only if it is not the server's; buries its own keyword and echoes the rest to its source |
| EchoTokens.TokensConservedIff | src/Applications/EchoApp.cc:113-165 | Every run without losses and resends keeps exactly one token per application (held, on its way out, or on its way back) exactly when the keywords differ and both survive transmission |
| EchoTokens.TokenAccount | src/Applications/EchoApp.cc:113-165 | In every run, losses and resends included, an application has one token, and one for each resend of a buffer that held its keyword, less those that came back while it held one and those lost under way |
| EchoBuffers.BufferIsAllPosted | src/Applications/EchoApp.cc:144-165 | A node's buffer is exactly what its application has posted in the run |
| EchoTokens.RunConservesIff | src/MobileNode/SimpleMobileNode.cc:82-95 | A run keeps exactly one token of each application throughout if and only if nothing under way is lost and no node resends after its application has posted something |
| EchoRelocation.RelocationKeepsTokensIff | src/MobileNode/SimpleMobileNode.cc:73-95 | From every reachable state with one token each, a relocation of the peer (all that is under way to it is lost, and the buffer resent) leaves at least one token of each, and exactly one if and only if the token was among what was lost or had never been posted |
| EchoRelocation.RelocationIsRun | src/MobileNode/SimpleMobileNode.cc:73-95 | Such a relocation is a run of losses and one resend |
| EchoRelocation.LostTokenStaysLost | src/Applications/EchoApp.cc:144-149 | A lost token stays lost, and its application silent, in every run that does not resend it |
| EchoRelocation.ComesHomeIff | src/Applications/EchoApp.cc:113-134 | Handling what is under way can bring a keyword home exactly if it is held or arrives in a datagram with content |
| EchoRelocation.ResendRevivesIff | src/MobileNode/SimpleMobileNode.cc:82-95 | After a resend of its keyword an application has a token, which can come home exactly if the keyword is not empty or it could before: the empty one is resent as an empty datagram |
| EchoTokens.FitsIff | src/Applications/EchoApp.cc:113-120 | A keyword survives exactly if it has no NUL and is at most 4096 characters |
| IpAddress.IPStringToInt | src/Common/Utils.h:307-321 | The loop terminates with the value of the dotted text: the pieces before each dot, weighted by powers of 256, modulo 2^32 |
| IpAddress.AddressRoundTrip | src/Common/Utils.h:287-321 | Printing a 32-bit address and reading it back is the identity |
| IpAddress.QuadRoundTrip | src/Common/Utils.h:287-321 | Reading a dotted quad and printing it back is the identity |
| IpAddress.EmptyTextIsNoAddress | src/Common/Utils.h:307-321 | No address prints as the empty text, which reads as 0 |
| IpAddress.PushRoundTrip | src/MobileNode/SimpleMobileNode.cc:61-80 | An address survives being printed, sent with its NUL, received into the buffer and read |
| AddressText.AtoiReads | src/Common/Utils.h:307-321 | The reader of numbers skips white space, heeds one sign, reads the decimal numeral that follows and looks no further |
| AddressText.DecimalIsNumeral | src/Common/Utils.h:287-298 | A byte is printed as the decimal numeral that denotes it, without a leading zero |
| AddressText.LowestByteComesFirst | src/Common/Utils.h:287-298 | The pieces of the printed text are the bytes of the integer, the lowest first |
| AddressText.NumeralsRead | src/Common/Utils.h:307-321 | Four numerals of any length are read as bytes, the first being the lowest, and added modulo 2^32 |
| IpAddress.RequestRoundTripIff | src/RendezvousServer/SimpleRendezvousServer.cc:99-103 | For all names, parsing a lookup request recovers both exactly when neither has a NUL, the subscriber's has no separator and they fit the buffer, or the separator is cut off between two equal names |
| Regex.ValidateRegex | ext/googletest/src/gtest-port.cc:232-286 | Accepts exactly the strings of the pattern grammar |
| Regex.AcceptedIsWellFormed | ext/googletest/src/gtest-port.cc:232-286 | The tail condition that the loop checks is the grammar |
| Regex.AtomTestDecides | ext/googletest/src/gtest-port.cc:203-222 | The test of an atom against a character decides what the atom stands for by an independent table of characters, which also defines the languages below |
| Regex.ClassesListed | ext/googletest/src/gtest-port.cc:185-222 | `\d`, `\s` and `\w` match exactly the characters listed one by one, and `\D`, `\S` and `\W` exactly the others |
| Regex.ValidEscapeIff | ext/googletest/src/gtest-port.cc:182-201 | What may be escaped is exactly the eleven class letters and the 32 punctuation characters |
| Regex.MatchRepetitionAndRegexAtHead | ext/googletest/src/gtest-port.cc:288-317 | Decides whether some prefix is a repetition of the atom followed by a match of the rest |
| Regex.MatchRegexAtHead | ext/googletest/src/gtest-port.cc:319-348 | Decides whether some prefix (all of the string, under an end anchor) is in the pattern's language; the recursion terminates |
| Regex.MatchRegexAnywhere | ext/googletest/src/gtest-port.cc:350-371 | Decides whether the pattern's language occurs, subject to the anchors |
| Regex.RE.Init | ext/googletest/src/gtest-port.cc:391-423 | Sets validity by the grammar and stores the anchored pattern |
| Regex.RE.FullMatch | ext/googletest/src/gtest-port.cc:380-383 | Decides membership of the whole string, and with a trailing escaped `$` only of a prefix |
| Regex.RE.PartialMatch | ext/googletest/src/gtest-port.cc:385-389 | Decides whether the pattern occurs in the string |
| Regex.FullPatternDenotes | ext/googletest/src/gtest-port.cc:404-422 | The anchored pattern denotes the same items, anchored at both ends except after an escaped `$` |
| Regex.FullMatchIsWholeMatchIff | ext/googletest/src/gtest-port.cc:404-422 | Full matching is whole-string matching on all strings exactly for patterns that do not end with an escaped `$` |
| Regex.RenderInjective | ext/googletest/src/gtest-port.cc:232-286 | The grammar is unambiguous |
| TestFilter.MatcherDecidesGlob | ext/googletest/src/gtest.cc:433-448 | The matcher decides the `?`/`*` language of the pattern up to `:` |
| TestFilter.MatchesFilter | ext/googletest/src/gtest.cc:450-468 | The loop decides whether some `:`-separated component matches |
| Strings.SplitJoins | ext/googletest/src/gtest.cc:450-468 | The components of a filter are the filter cut at every separator: none holds one, and joined again they are the filter |
| TestFilter.FilterMatchesTest | ext/googletest/src/gtest.cc:472-502 | Decides whether the flag selects the full name; the next two rows say what that means |
| TestFilter.FlagWithDash | ext/googletest/src/gtest.cc:480-497 | A flag with a `-` selects the names that the patterns before the first one match, or all names if there is none, and those after it do not |
| TestFilter.FlagWithoutDash | ext/googletest/src/gtest.cc:483-485 | A flag without `-` selects the names that its patterns match |
| TestFilter.EmptyNegativeExcludesNothing | ext/googletest/src/gtest.cc:472-502 | An absent negative part excludes no named test |
| TestFilter.DeathTestFilterMeaning | ext/googletest/src/gtest.cc:152-155 | The death test filter decides: ends with `DeathTest` or contains `DeathTest/` |
| TestFilter.DisabledFilterMeaning | ext/googletest/src/gtest.cc:149-150 | The disabled filter decides: starts with `DISABLED_` or contains `/DISABLED_` |
| Utf8.SixBitsRejoinIff | ext/googletest/src/gtest.cc:1418-1425 | Chopping six bits, as the encoder does, yields the only two parts that make up the pattern |
| Utf8.CodePointToUtf8 | ext/googletest/src/gtest.cc:1427-1466 | Fills the buffer with the encoding, or the text for an invalid code point, and a NUL |
| Utf8.EncodeDecodes | ext/googletest/src/gtest.cc:1434-1460 | The shortest-form decoder of the bit patterns, for all 21-bit values, inverts the encoder whatever follows, so the output is a prefix code |
| Utf8Validity.EncodedIsUtf8Iff | ext/googletest/src/gtest.cc:1434-1460 | The output is a character of UTF-8, by the octets of section 4 of RFC 3629, exactly for Unicode scalar values |
| Utf8Validity.TranscodedIsUtf8Iff | ext/googletest/src/gtest.cc:1491-1526 | The output for a wide string is UTF-8 exactly if it has no lone surrogate, and no four-byte unit that is a surrogate or from 0x110000 to 0x1FFFFF |
| Utf8Validity.TextIsDocumentedIff | ext/googletest/src/gtest.cc:1427-1466 | The text of a code point is the one documented exactly outside 0x110000 to 0x1FFFFF |
| Utf8Validity.TranscodedIsDocumentedIff | ext/googletest/src/gtest.cc:1500-1526 | The output for a wide string is as documented for all two-byte units, and for four-byte units exactly if none is from 0x110000 to 0x1FFFFF |
| Utf8Validity.FirstInvalidIsEncoded | ext/googletest/src/gtest.cc:1431-1460 | The value 0x110000 becomes four octets, no message and no UTF-8 |
| Utf8Validity.MessageNamesValue | ext/googletest/src/gtest.cc:1460-1461 | The message for an invalid code point is its fixed text around the upper-case hexadecimal numeral of the value, without a leading zero |
| Utf8.DecodeEncodes | ext/googletest/src/gtest.cc:1434-1460 | Only the encoder's output decodes, so it is the shortest form |
| Utf8.WideStringToUtf8 | ext/googletest/src/gtest.cc:1491-1526 | The stream is the texts of the code points, pairs combined and lone surrogates kept, of the first `numChars` units; of all units if the limit is -1 or beyond the end; and empty for any other negative limit |
| Utf8.CodePointsLossless | ext/googletest/src/gtest.cc:1472-1489 | Splitting the combined code points again gives back every 16-bit unit |
| Utf8.ScalarsSurvive | ext/googletest/src/gtest.cc:1472-1489 | Combining inverts UTF-16 on every sequence of scalar values |
| Utf8.Utf16RoundTrip | ext/googletest/src/gtest.cc:1507-1526 | Decoding the output for 16-bit input gives its surrogate-aware code points, from which the input is recovered |
| Utf8.LimitedRoundTrip | ext/googletest/src/gtest.cc:1507-1526 | For any limit the output decodes to what splits again into exactly the selected units, even if the limit cuts a pair in two |
| Utf8.Utf32RoundTrip | ext/googletest/src/gtest.cc:1507-1526 | Decoding the output for 32-bit input up to 0x1FFFFF gives the input |
| StringLiteral.PrintAsCharLiteralTo | ext/googletest/src/gtest-printers.cc:145-192 | Appends the character's text and returns its format |
| StringLiteral.PrintAsStringLiteralTo | ext/googletest/src/gtest-printers.cc:194-213 | The same within a string, format included, where the quotes change places |
| StringLiteral.PrintCharsAsStringTo | ext/googletest/src/gtest-printers.cc:258-275 | Appends the literal, broken after a hexadecimal escape before a hexadecimal digit |
| PrintedText.VisibleText | ext/googletest/src/gtest-printers.cc:138-192 | A byte from 0x20 to 0x7E other than the quote and the backslash is printed as itself |
| PrintedText.NamedEscapes | ext/googletest/src/gtest-printers.cc:149-181 | Exactly ten bytes have an escape sequence of their own, each as listed |
| PrintedText.OtherText | ext/googletest/src/gtest-printers.cc:182-190 | Every other byte is printed as `\x` and its upper-case hexadecimal digits, without a leading zero |
| PrintedText.QuotesChangePlaces | ext/googletest/src/gtest-printers.cc:194-213 | Within a string the double quote is escaped and the single quote is not, and nothing else differs |
| PrintedText.PrintedLiteralIs | ext/googletest/src/gtest-printers.cc:258-275 | A literal is the texts of its bytes between quotes, broken exactly between a byte printed in hexadecimal and one of the 22 hexadecimal digits |
| PrintedText.PlainStringIsVerbatim | ext/googletest/src/gtest-printers.cc:258-275 | A string of visible characters without double quotes and backslashes is printed as it is, between quotes |
| StringLiteral.CharLiteralRoundTrip | ext/googletest/src/gtest-printers.cc:145-192 | A printed character lexes as itself |
| StringLiteral.LiteralRoundTripIff | ext/googletest/src/gtest-printers.cc:258-275 | Lexing the output as adjacent C literals returns the bytes exactly when no NUL is directly followed by an octal digit |
| StringLiteral.NulOneIsMisread | ext/googletest/src/gtest-printers.cc:149-152 | The shortest failing input |
| XmlCData.OutputXmlCDataSection | ext/googletest/src/gtest.cc:3202-3220 | The loop terminates having written the sections of the data |
| XmlCData.CleanDataIsOneSection | ext/googletest/src/gtest.cc:3202-3220 | Data without `]]>` is printed as one section that holds it |
| XmlCData.SectionsSplit | ext/googletest/src/gtest.cc:3206-3215 | At the first `]]>` the section is closed, the escaped text follows, and another section holds the rest |
| XmlCData.CDataRoundTrip | ext/googletest/src/gtest.cc:3202-3220 | Parsing the sections and the text between them returns the data, for every string |
| TestOrder.Random.Generate | ext/googletest/src/gtest.cc:281-298 | Draws a number below the range by a step that can be undone: the state before is recovered modulo 2^31 from the state after |
| TestOrder.StateIsReachedOnceIff | ext/googletest/src/gtest.cc:284-286 | Every state below 2^31 follows exactly one other, so no draw is out of reach |
| ShuffleDraws.NextRandomIs | ext/googletest/src/gtest.cc:284-286 | A step multiplies by 1103515245, adds 12345 and reduces modulo 2^31; the wrap-around at 32 bits cannot be seen |
| TestOrder.ShuffleRange | ext/googletest/src/gtest-internal-inl.h:297-325 | The in-place loop is the Fisher-Yates function of the generator's selections |
| TestOrder.ShuffleIsPermutation | ext/googletest/src/gtest-internal-inl.h:297-325 | For any selections a shuffle permutes its range and touches nothing else |
| TestOrder.EveryPermutationIsReached | ext/googletest/src/gtest-internal-inl.h:297-325 | Every permutation of the range is the outcome of some selections |
| ShuffleDraws.ShuffledIs | ext/googletest/src/gtest-internal-inl.h:315-325 | A shuffle of a range takes the elements out, from the last place on: each draw is the next state modulo the number left, and the last element left fills the gap |
| ShuffleDraws.CasesAreShuffledApart | ext/googletest/src/gtest.cc:4483-4490 | Shuffling everything takes out the death test cases with the first draws and the other cases, behind them, with the next |
| ShuffleDraws.TestsAreShuffledInTurn | ext/googletest/src/gtest.cc:4492-4495 | The tests of the cases are taken out case by case with the draws that follow, one stream serving all |
| TestOrder.UnitTestImpl.GetTestCase | ext/googletest/src/gtest.cc:4096-4129 | Returns the case of that name, registered after the last death test case, or at the end, if there was none |
| TestOrder.UnitTestImpl.AddTestInfo | ext/googletest/src/gtest-internal-inl.h:633-653 | Registers the case if need be and adds a test at its end |
| TestOrder.UnitTestImpl.ShuffleTests | ext/googletest/src/gtest.cc:4482-4496 | Shuffles the death test cases, the others, and the tests in each case |
| TestOrder.UnitTestImpl.UnshuffleTests | ext/googletest/src/gtest.cc:4498-4506 | Unshuffles the cases and the tests in each; `TestRuns.UnshuffledIff` says what that leaves |
| TestRuns.UnshuffledIff | ext/googletest/src/gtest.cc:2467-2472 | The one order with the same cases and the same number of tests in each, in which the index at every place, of the cases and of the tests, is the place |
| TestRuns.UnshuffleForgetsShuffles | ext/googletest/src/gtest.cc:4497-4506 | After every history of registering, adding tests, shuffling and unshuffling, unshuffling gives the order that the registrations alone would have given |
| TestRuns.ShuffleUnshuffleRestoresIff | ext/googletest/src/gtest.cc:4497-4506 | After every history, a shuffle and an unshuffle give the order back exactly if neither cases nor tests were shuffled in it |
| TestOrder.UnitTestImpl.GetMutableTestCase | ext/googletest/src/gtest-internal-inl.h:570-575 | Returns the case that comes at that place in the run, and none for an index out of range |
| TestOrder.UnitTestImpl.RunAll | ext/googletest/src/gtest.cc:4235-4238 | Visits the cases, and in each of them the tests, in the order of the run |
| TestOrder.UnitTestImpl.RunCase | ext/googletest/src/gtest.cc:2430-2453 | Visits the tests of a case in its current order |
| TestOrder.HistoriesKeepPrefix | ext/googletest/src/gtest.cc:4096-4129 | Any history that registers only while unshuffled keeps the death test cases as the prefix up to the recorded index |
| TestOrder.RegisterKeepsPrefixIff | ext/googletest/src/gtest.cc:4113-4128 | Registering keeps that prefix exactly when the next slot of the order holds the next index |
| TestOrder.RegisterAfterShuffleBreaks | ext/googletest/src/gtest.cc:4113-4128 | Otherwise a death test case runs after one that is not |
| TestOrder.RunVisitsEachOnceDeathFirst | ext/googletest/src/gtest.cc:4235-4238 | A run visits each case exactly once, all death test cases first |
| TestOrder.UnshuffledRunIsRegistrationOrder | ext/googletest/src/gtest.cc:4498-4506 | After unshuffling, a run follows the order of registration |
| TestRuns.UnshuffledRunIsRegistered | ext/googletest/src/gtest.cc:2467-2472 | After unshuffling, a run visits the tests case by case and in each case in the order of registration |
| TestRuns.EachTestRunsOnce | ext/googletest/src/gtest.cc:2430-2453 | In any well-formed order a run visits each test of each case exactly once, and nothing else |
| TestRuns.AddedTestIsRegistered | ext/googletest/src/gtest.cc:2424-2427 | Adding a test makes it, and no other, one more test of its case |
| TestRuns.CasesFollowRegistration | ext/googletest/src/gtest.cc:4096-4129 | After every history the cases are the death test cases and then the others, each in the order of first registration |
| TestRuns.UnshuffledRunFollowsRegistration | ext/googletest/src/gtest.cc:4498-4506 | After any history and an unshuffle, a run visits the death test cases and then the others in that order |
| TestSharding.TestSelector.FilterTests | ext/googletest/src/gtest.cc:4370-4428 | Marks the runnable tests that fall to this shard, marks a case exactly if one of its tests is, and returns the number marked |
| TestSharding.FilterCase | ext/googletest/src/gtest.cc:4387-4424 | The inner loop, for one case |
| TestSharding.RunnableIff | ext/googletest/src/gtest.cc:4390-4408 | A test is runnable exactly if it is not disabled by its name or its case's, or disabled tests run too, and its full name is selected by the filter around its first `-` |
| TestSharding.MarkedOnExactlyOneShard | ext/googletest/src/gtest.cc:4362-4368 | A runnable test is marked on exactly one shard, another on none |
| TestSharding.ShardsCoverRunnableTests | ext/googletest/src/gtest.cc:4370-4428 | The shards together mark as many tests as are runnable |
| TestSharding.ShardSizesDifferByAtMostOne | ext/googletest/src/gtest.cc:4362-4368 | Any two shards differ by at most one test |
| TestSharding.ShardSizesAddUp | ext/googletest/src/gtest.cc:4362-4368 | The sizes of the shards add up to the number of tests |
| CommandLine.ParseGoogleTestFlagsOnly | ext/googletest/src/gtest.cc:4768-4830 | Leaves the program name, the unrecognised arguments in order and NULLs up to the old end; counts them; help is asked for exactly by one that stays |
| CommandLine.ShiftLeft | ext/googletest/src/gtest.cc:4808-4815 | The inner loop removes one element and shifts the rest, with the NULL |
| CommandLine.SecondPassChangesNothing | ext/googletest/src/gtest.cc:4768-4830 | A second pass removes nothing |
| CommandLine.ArgumentsAreConserved | ext/googletest/src/gtest.cc:4768-4830 | Kept and removed arguments together are the original ones |
| CommandLine.KeptAreNoFlags | ext/googletest/src/gtest.cc:4800-4822 | The arguments kept are exactly those that are no flags, in their order |
| PrimeTables.Euclid | ext/googletest/samples/prime_tables.h:69-75 | There is a prime above every number, so the unbounded search ends |
| PrimeTables.OnTheFlyPrimeTable.IsPrime | ext/googletest/samples/prime_tables.h:58-67 | Trial division up to the square root decides primality |
| PrimeTables.OnTheFlyPrimeTable.GetNextPrime | ext/googletest/samples/prime_tables.h:69-75 | Returns the least prime above p, and -1 for a negative p |
| PrimeTables.IsPrimeByOddSteps | ext/googletest/samples/sample1.cc:46-68 | Trial division by odd numbers decides primality |
| PrimeTables.PreCalculatedPrimeTable.CalculatePrimesUpTo | ext/googletest/samples/prime_tables.h:103-114 | The sieve leaves exactly the primes marked |
| PrimeTables.PreCalculatedPrimeTable.GetNextPrime | ext/googletest/samples/prime_tables.h:94-100 | Returns the least prime above p in the table, or -1 if there is none |
| PrimeTables.CompositeStep | ext/googletest/samples/prime_tables.h:107-113 | A composite needs no striking out |
| PrimeTables.HybridPrimeTable.IsPrime | ext/googletest/samples/sample8_unittest.cc:63-68 | Decides primality for every n, whichever table is asked |
| PrimeTables.HybridPrimeTable.GetNextPrime | ext/googletest/samples/sample8_unittest.cc:70-76 | Returns the least prime above p for every p from 0 |
| PrimeTables.NextPrimeUnique | ext/googletest/samples/prime_tables.h:69-75 | The least prime above a number is unique, so the tables agree |

## Left out

- Sockets, binding, options, sleeps, signals, logging and the TCP branches: queues and arbitrary interleavings stand for them.
- A lookup and its reply, and a registration and its reply, are one step each; replies are not lost. The registration reply's text ends in a decimal number that nothing reads.
- An update under way to where its addressee is now is never lost, only one to another address; `Mobility.EarlierRegistrantReachesLater` rests on that.
- Reassigned addresses: an update under way to an address reaches its addressee or is lost, never another host that has taken the address over.
- Several peers on one socket: each socket has one peer, as the application uses it.
- Names in `Mobility` are as the server received them; what it receives of a request is in `PeerConnection.AskedIsOwnIff`.
- `Mobility` takes a registration and the location it comes from as one step, and reads no samples; what the samples miss is in `NodeDaemon`, whose nodes are registered where they are if they move only while the daemon sleeps.
- PeerConnection.ConnectToPeer: nobody else makes the node's own lookup during its sleeps.
- Mobility.StepKeepsInv: application datagrams are not in its queues; `SharedSocket` proves that they do not disturb the updates.
- Unsynchronised access of the two threads to the node's maps, and memory errors: a text that fills the 4096-byte buffer is read as ending there.
- IpAddress.IPStringToInt: a fifth and later piece shifts by 32 bits or more, which C leaves undefined; here it contributes nothing. Overflow in `atoi` is not modelled.
- The name service beyond whether it knows a server, and how the host learns its own address.
- PrimeTables.OnTheFlyPrimeTable.GetNextPrime: integers are unbounded, so overflow near the largest machine integer is not modelled.
- Regex.MatchRegexAtHead: strings are at most 2^64 - 2 characters, the cap on repetitions in the code.
- CommandLine.ParseGoogleTestFlagsOnly: which arguments are flags and which ask for help are parameters; parsing of their values is left out.
- StringLiteral.LiteralRoundTripIff: trigraphs are not lexed, and wide strings are not printed.
- TestOrder.UnitTestImpl.RunAll: runs every test that is registered; the marks of `TestSharding`, by which a run skips cases and tests, are not read.
- The overload of `GetTestCase` that takes an index, which ignores the shuffled order; test fixtures' set-up and tear-down; the working directory that `AddTestInfo` records; repeated iterations.
- Environment variables and files behind sharding: whether to shard, the total and the index are parameters.
- Death-test forking, stream capture, assertion macros, console output, and the queue, counter and string samples.
