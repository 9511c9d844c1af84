# A model of an X11 logging proxy

The proxy sits between X11 clients and an X server. It relays the two byte streams of every connection,
cuts them into protocol messages, matches replies to requests by their 16-bit sequence numbers, and edits
one byte on the way: the `present` flag of the server's answer about an extension that is not allowed.

The model follows the program's layers:

- `SocketBuffer.dfy`: the growable buffer with its read, parsed and written marks, as a value and as the
  object that changes it in place. Bytes beyond the read mark are kept, because the loops can look at them.
- `Wire.dfy`, `Bytes.dfy`: lengths and framing as functions of the byte stream alone.
- `Tracking.dfy`, `Replies.dfy`, `Histories.dfy`, `SequenceTable.dfy`, `AtomMirror.dfy`, `Stale.dfy`, `Overwrites.dfy`:
  sequence numbers, stashed views of strings, the extension filter and the atom mirror, over every interleaving of
  connections, reads, requests and replies.
- `MessageLoops.dfy`, `Passes.dfy`, `LoopRules.dfy`, `Crops.dfy`, `Deliveries.dfy`, `ProtocolParser.dfy`: the two loops
  that frame and log, as a function (`Pass`), and as methods on the parser and connection objects that equal it.
- `Relay.dfy`, `Worlds.dfy`, `WorldRuns.dfy`: one direction, then the whole relay as a state machine in which the
  system chooses every chunk, every order and every moment. `Cuts.dfy`, `Echo.dfy`, `EchoRuns.dfy`,
  `CropRuns.dfy`: which chunks leave a direction in order, and what happens after those that do not.
  `Transparency.dfy` holds the main theorems.
- `PollIndex.dfy`, `EventLoop.dfy`, `Turns.dfy`, `ConnectionTurns.dfy`, `ProxyServer.dfy`: the poll table, one
  connection's turn on the buffer and parser objects, and one turn of the event loop, shown to be a run of that
  state machine and told by the bytes it moves.
- `Handshakes.dfy`: the two messages that open a connection.
- `Records.dfy`, `SetupCodec.dfy`, `SetupPlaces.dfy`, `LengthInference.dfy`, `XAuth.dfy`, `HexDump.dfy`: the codecs.

A result `None`, or `ok == false`, means that the process ends there (an assertion that fails, a lookup that
throws, an explicit exit), or that it reads beyond its buffer or one that has been freed. Assertions count as part
of the program: the project's default build keeps them.

## Where the code is narrower than its intent

The code is modelled as it is written. Each of these is proved, with the exact condition.

- A stashed string is a view into the client's buffer (`src/include/X11ProtocolParser.hpp:165`,
  `src/X11ProtocolParser__parseRequest.cpp:1072`, `:6003`), and is looked at only when the reply comes. A drained
  buffer is filled again from its front, so by then the view can spell a later request's string, although the
  comment beside it calls it a copy. The filter and the atom mirror go by what it spells then:
  `Histories.FilterReadsThePlace`, `Transparency.FilterIsExactOnStreams`, `AtomMirror.TrafficKeepsMirror`, each for
  all runs. So does the opcode table: `Histories.ReplyRegisters`, `Histories.DeniedIsNotRegistered`.
  `Overwrites.StillSpellsExactly` says after which reads a view still spells its string,
  `Stale.NextRequestOverwrites` when the next request takes the place over, and
  `Stale.OverwrittenNameIsShown` and `Stale.OverwrittenNameIsMirrored` give a run of two requests each. If nothing is
  read from the client in between, the string is still its own: `Histories.UnreadNameIsItsOwn`,
  `Transparency.DeniedIsNeverShown`, `AtomMirror.UnreadIsIntact`.
- A buffer counts as ready for reading while it waits for the rest of a message, even when whole parsed
  messages are in front of it (`src/include/SocketBuffer.hpp:150-152`). A read that ends inside a message
  behind a whole one therefore leaves bytes that are never sent: `Cuts.SticksExactly`,
  `Transparency.StuckForEver`. The unsigned size of the next read can then wrap: `Transparency.PollDiscipline`.
- The header guards count all bytes held, parsed ones included (`src/X11ProtocolParser.cpp:320`, `:345`), and a
  reply's length is read once four bytes are held (`src/X11ProtocolParser.cpp:457`), so that it may come from
  stale bytes: `Relay.LostMeansTorn`. `Cuts.StaysInOrderExactly` and `Cuts.OrderlyExactly` say exactly which reads,
  and which whole runs, meet neither this, nor the case before, nor an extended length of one (below).
- A call of a loop starts at the first unsent byte, whatever is parsed (`src/X11ProtocolParser.cpp:314`), and
  can frame a client's message twice; a server's never is. `Echo.EchoesExactly`, `Echo.EchoAgainExactly` and
  `Echo.EchoedExactly` say exactly when, `Echo.EchoSends` what is sent then. The numbers of later requests shift, and
  the filter misses: `EchoRuns.EchoShowsDenied`.
- The printers of NoOperation, PutImage, QueryTextExtents and of requests that no table has subtract their fixed
  part from the announced length in unsigned arithmetic (`src/X11ProtocolParser__parseRequest.cpp:38-42`,
  `:2877-2880`, `:4365-4370`, `:7113-7120`). A request of extended length one is therefore logged and counted as a
  message of four bytes, and the loop goes on at the length itself: `CropRuns.LengthOfOneIsLogged`.
  `Cuts.CropsExactly`, `Crops.PassCrops` and, over whole runs, `CropRuns.CroppedExactly` say exactly when; the numbers
  shift then, and the filter misses: `CropRuns.CropShowsDenied`.
- Registering a request does not replace an entry that is still there (`src/include/Connection.hpp:191`). The
  attribution of replies holds for 65,536 requests of a connection;
  beyond them, `Histories.FilterIsExact` says exactly when the filter holds, and
  `SequenceTable.FilterMissesAfterAFullTurn` gives a run in which it does not.
- A reply to InternAtom without an atom does not take its view back (`src/X11ProtocolParser__parseReply.cpp:315-325`).
  The view stays for good, and the next request with a string that is given the same number fails the assertion in
  `src/X11ProtocolParser.cpp:30-37`: `Replies.NoAtomLeavesView`, `Replies.LeftBehindStays`,
  `Replies.NamedRequestIsTaken`.
- List counts are 16-bit parameters (`src/include/X11ProtocolParser.hpp:854`): longer lists in requests of the
  extended form are not recovered: `LengthInference.ListRequestRoundTrip`.
- A cookie cut short at the end of the authority file is completed with zeros: `XAuth.FileRoundTrip`.
- Prefetched atom names end at their first zero byte: `AtomMirror.PrefetchMirrors`.

## Model

| member | source | states |
|---|---|---|
| `Transparency.ClientBytesAreRelayed` | `src/ProxyX11Server.cpp:543-671` | In every reachable state the client's bytes received are the bytes sent to the server followed by the bytes buffered, in order and unchanged, and as many have been sent as the messages logged for sending have; unless a message was framed twice these are those messages, so that the server has been sent whole ones. `Echo.EchoedExactly` says when one is framed twice, and `Echo.EchoSends` what is sent then. |
| `Transparency.ServerBytesAreRelayed` | `src/X11ProtocolParser__parseReply.cpp:2061-2070` | In every reachable state the server's bytes received are the logged messages and the pending bytes, and the client has been sent exactly the first of those messages as edited, ending on a message boundary. The first message is not edited; any other has its `present` byte cleared if and only if, when it came, it was taken for the answer to a QueryExtension request and the bytes then under the view stashed for that request spelled a denied name. |
| `Transparency.ChunksDoNotShow` | `src/X11ProtocolParser.cpp:308-423` | However the sockets cut the streams into reads, the messages logged on an open connection are a front part of the one framing of the received stream unless one was framed twice or a request of extended length one was logged; if every cut was clean they are all of it, and the pending bytes are its rest. |
| `Transparency.ChunkingIndependence` | `src/X11ProtocolParser.cpp:425-550` | Two runs in which the same bytes arrived in different pieces, with every cut of both clean, have logged the same messages and hold the same rest. Whether a cut is clean depends on the stream and the cuts alone. |
| `Transparency.StuckForEver` | `src/ProxyX11Server.cpp:520-541` | Once a direction waits for the rest of a message behind parsed bytes, it sends and logs nothing more, whatever else happens, until its connection is closed. |
| `Transparency.PollDiscipline` | `src/ProxyX11Server.cpp:528-539` | In every reachable state every buffer is ready for exactly one of reading and writing and the two assertions hold; a write drains the buffer; a read that is not behind stuck bytes starts with nothing parsed and asks for at least one byte; the unsigned read size of `src/SocketBuffer.cpp:40` wraps exactly when stuck bytes outweigh the message waited for. What the two sockets are then asked for is `Turns.NeverFrozen`. |
| `Transparency.DeniedIsNeverShown` | `src/X11ProtocolParser__parseReply.cpp:2061-2070` | Over every interleaving and chunking, as long as a connection has made at most 65,536 requests, none framed twice and none of extended length one: the reply to the n-th request of the client's byte stream, a query for a denied extension, goes out with `present` cleared and nothing else changed, if nothing was read from that client between the query and the reply. |
| `Transparency.FilterIsExactOnStreams` | `src/X11ProtocolParser.cpp:39-47` | Without that last condition: the reply goes out with `present` cleared if and only if the bytes then at the place where the query's string was in the client's buffer spell a denied name, and otherwise as it came. |
| `Transparency.RequestsAreTheStream` | `src/X11ProtocolParser.cpp:80-132` | The n-th request that a connection has counted is the n-th message in the framing of the bytes its client has sent since the connection opened, unless a message was framed twice or a request of extended length one was logged. `Echo.EchoedExactly` and `CropRuns.CroppedExactly` say exactly when either has happened. |
| `WorldRuns.ReachableHolds` | `src/ProxyX11Server.cpp:543-671` | Every reachable state keeps the invariant of every connection and agrees with the tracking run of everything logged so far; each logged response left as it was edited when logged. |
| `WorldRuns.ActKeepsAll` | `src/ProxyX11Server.cpp:543-671` | Accepting, reading, writing and closing each keep that invariant. |
| `WorldRuns.LogsTraced` | `src/X11ProtocolParser.cpp:510-548` | The messages one call logs one after another are a run of the tracking state, ending in the state the call leaves. |
| `Worlds.ServerAnswers` | `src/X11ProtocolParser.cpp:511-517` | A pass over a server's first bytes either logs nothing, or logs an acceptance that opens the connection and goes on under the open rules. |
| `Worlds.OpenReadHolds` | `src/X11ProtocolParser.cpp:308-423` | A read on an open connection keeps the invariants of both directions, the byte order and the serial number. |
| `Worlds.AnswerHolds` | `src/X11ProtocolParser.cpp:434-448` | A read of the server's answer keeps both directions' invariants across the change of status. |
| `Relay.ReceiveConserves` | `src/ProxyX11Server.cpp:548-581` | Reading and logging lose, add and reorder no byte. |
| `Relay.FlushConserves` | `src/SocketBuffer.cpp:61-82` | Neither does writing; everything parsed has then been sent. |
| `Relay.StuckReceives` | `src/X11ProtocolParser.cpp:315-316` | A read behind stuck bytes with a remembered size only appends. |
| `Relay.ReceiveFrames` | `src/X11ProtocolParser.cpp:308-423` | On an open connection everything logged is a well-formed message or a request of extended length one, told apart exactly; and unless there is one of those, no whole message is left unlogged unless parsed bytes are stuck or a size is wrong. |
| `Relay.LostMeansTorn` | `src/X11ProtocolParser.cpp:457-473` | A wrong size is remembered if and only if a server's read ends inside the first eight bytes of a reply with at least four of them there and nothing parsed before it; never for a client. |
| `Relay.LoggedSizeIsGenuine` | `src/X11ProtocolParser.cpp:539` | A remembered size under which a message has been logged was the message's own, or the four bytes taken for a request of extended length one. |
| `Cuts.SticksExactly` | `src/include/SocketBuffer.hpp:150-152` | A read leaves an orderly direction with parsed bytes that are never asked to be written if and only if the read ends inside a message that comes behind a whole one; it logs exactly the messages framed in what it then holds. `Cuts.CropsExactly` says when a read logs a request of extended length one instead. |
| `Cuts.StaysInOrderExactly` | `src/ProxyX11Server.cpp:520-541` | A read keeps an orderly direction in order if and only if it is a clean cut: it does not end inside a message behind a whole one; nor, from the server, with four to seven bytes of a reply alone; nor, from the client, does a request of extended length one follow the whole messages. |
| `Cuts.ServerStartsExactly` | `src/X11ProtocolParser.cpp:511-517` | A connection opens with the server's direction in order if and only if the answer's read ends on a message boundary. |
| `Cuts.OrderlyExactly` | `src/ProxyX11Server.cpp:543-671` | Over whole runs: a direction has been in order in every state of a run since its connection opened if and only if every piece in which its stream came was a clean cut. |
| `Cuts.CropsExactly` | `src/X11ProtocolParser__parseRequest.cpp:7094-7120` | A read behind nothing parsed logs a request that ends in front of its own length if and only if the messages framed in what it then holds are followed by a request whose extended length, as the buffer has it, stale bytes included, is one. It has logged those messages then, and the first four bytes behind them. |
| `Echo.EchoesExactly` | `src/X11ProtocolParser.cpp:343-348` | A read from a client in order leaves parsed bytes with bytes of no known size behind them if and only if it frames exactly one message, of four bytes, ends one to three bytes behind it, and the bytes at offsets 6 and 7 of the buffer, stale or not, are zero. |
| `Echo.EchoAgainExactly` | `src/X11ProtocolParser.cpp:314` | The next read then frames the first message again if and only if at least four unparsed bytes are held; otherwise it logs nothing, and the size of the read after it wraps. |
| `Echo.EchoSends` | `src/X11ProtocolParser.cpp:314-316` | A read that frames it again has four bytes more than the logged messages ready to be sent; unless the stream goes on with a request of extended length one, it logs the stream from that message on, as far as four bytes before the end of what is held, so that what is ready ends on a message boundary if and only if the next message has four bytes. |
| `Echo.EchoedExactly` | `src/X11ProtocolParser.cpp:308-423` | Over whole runs: something has been framed twice on a connection if and only if some read found one parsed message of four bytes with bytes of no known size behind it, and brought them to at least four. |
| `Echo.NoShortCutsNoEcho` | `src/X11ProtocolParser.cpp:308-423` | Nothing is framed twice, and no request of extended length one is logged, in any run in which nothing came behind the client's first message before the connection opened, and no read framed one message of four bytes alone and ended one to three bytes behind it, or could show an extended length of one. |
| `EchoRuns.LogsTwice` | `src/X11ProtocolParser.cpp:314` | A concrete run: after two reads the client's loop has logged the first request twice and the second never, though the bytes are kept, because it starts at the first unsent byte and not at the first unparsed one. |
| `EchoRuns.EchoShowsDenied` | `src/X11ProtocolParser.cpp:314` | A concrete run of three requests in which one is framed twice: the numbers shift, and the reply about a denied extension goes out with `present` set. |
| `CropRuns.CroppedExactly` | `src/X11ProtocolParser__parseRequest.cpp:32-43` | Over whole runs: a request that ends in front of its own length has been logged on a connection if and only if some read showed one of extended length one behind the messages it framed, those framed twice included. |
| `CropRuns.LengthOfOneIsLogged` | `src/X11ProtocolParser__parseRequest.cpp:7094-7120` | NoOperation of extended length one, on a host of either byte order: the stream has no message there, but the loop takes four bytes for it, logs and counts them, and goes on at the length itself. |
| `CropRuns.CropShowsDenied` | `src/X11ProtocolParser__parseRequest.cpp:32-43` | A concrete read of such a request and a query for a denied extension: the length is taken for a request of its own, the numbers shift, and the reply about the denied extension goes out with `present` set. |
| `ProtocolParser.X11ProtocolParser.LogClientMessages` | `src/X11ProtocolParser.cpp:308-423` | The client's loop over the objects ends, leaves exactly the connection, parser and buffer of one pass, and returns the growth of `parsed`; it fails exactly where the pass does. |
| `ProtocolParser.X11ProtocolParser.LogServerMessages` | `src/X11ProtocolParser.cpp:425-550` | The same for the server's loop, with its edits made in the buffer's array. |
| `ProtocolParser.X11ProtocolParser.MeasureClientMessage` | `src/X11ProtocolParser.cpp:317-371` | Sets the size the length fields give, or none while too little is held; notes the client's byte order. |
| `ProtocolParser.X11ProtocolParser.MeasureServerMessage` | `src/X11ProtocolParser.cpp:433-484` | Sets 32 bytes for errors and events, and the announced size of a reply or of the answer to a connection attempt. |
| `ProtocolParser.X11ProtocolParser.LogRequest` | `src/X11ProtocolParser.cpp:80-132` | Numbers the request and stashes a view of the string of an InternAtom or QueryExtension request; fails when extended lengths are not enabled, or when the length does not match and the printer does not go on all the same. |
| `ProtocolParser.X11ProtocolParser.LogCroppedRequest` | `src/X11ProtocolParser__parseRequest.cpp:4361-4372` | Four bytes of a request that announces an extended length are taken for a whole message if and only if the length behind them is one, what the printer reads is inside the buffer, and the request is a QueryTextExtents, a PutImage, a NoOperation or one that no table has. |
| `ProtocolParser.X11ProtocolParser.LogReply` | `src/X11ProtocolParser.cpp:135-198` | Finds the request, edits the reply in the array, and closes the number unless more replies of a series follow. |
| `ProtocolParser.X11ProtocolParser.LogResponse` | `src/X11ProtocolParser.cpp:518-535` | Tells errors, replies and events apart; an error closes its number. |
| `ProtocolParser.X11ProtocolParser.LogQueryExtension` | `src/X11ProtocolParser__parseReply.cpp:2041-2082` | Clears the `present` byte in the array when the bytes now under the stashed view spell a denied name, and registers the opcode of an allowed extension that is present. |
| `ProtocolParser.X11ProtocolParser.LogInternAtom` | `src/X11ProtocolParser__parseReply.cpp:295-325` | Takes the stashed view back and mirrors what it now spells under the atom, unless the atom is None. |
| `ProtocolParser.X11ProtocolParser.EnableExtensionParsing` | `src/X11ProtocolParser.cpp:280-306` | Registers an opcode for an allowed, known extension, without taking one that is in use. |
| `ProtocolParser.X11ProtocolParser.StashString` | `src/X11ProtocolParser.cpp:30-37` | Adds one view of a string; fails if its key is taken, and changes nothing then. |
| `ProtocolParser.X11ProtocolParser.UnstashString` | `src/X11ProtocolParser.cpp:39-47` | Gives a view back and removes it; what it spells is read from the client's buffer only now. |
| `ProtocolParser.Connection.RegisterRequest` | `src/include/Connection.hpp:189-194` | Counts modulo 65,536 and keeps an entry that is already there. |
| `ProtocolParser.Connection.UnregisterRequest` | `src/include/Connection.hpp:208-212` | Frees a number and changes nothing else. |
| `ProtocolParser.Connection.EnableBigRequestsExtension` | `src/include/Connection.hpp:217-223` | Sets the flag of an extension that is listed. |
| `Passes.PassSplits` | `src/X11ProtocolParser.cpp:315-422` | One call marks adjacent, nonempty whole messages from the front of the pending bytes, replaces each by what goes out, and leaves the rest pending. |
| `Passes.PassSettles` | `src/X11ProtocolParser.cpp:372-394` | After a call, what is not parsed is less than a message, or too short to tell its size. |
| `Passes.PassPreserves` | `src/X11ProtocolParser.cpp:315-422` | What every single step keeps holds after the call and of everything it logs. |
| `Passes.PassStops` | `src/X11ProtocolParser.cpp:372-394` | Where a call stops, the pending bytes are such as its measuring waits on. |
| `Passes.PassTurns` | `src/X11ProtocolParser.cpp:315-422` | The loop is its next turn and the loop after it, with fewer unparsed bytes. |
| `Passes.PassLogs` | `src/X11ProtocolParser.cpp:397-414` | Logging the messages of a call one after another gives the state the call leaves. |
| `LoopRules.PassIsFraming` | `src/X11ProtocolParser.cpp:343-371` | One call over an open connection's bytes logs exactly their framing, in the client's byte order, whatever the host's is, if all it logs is well formed; `Crops.PassCrops` is the other case. |
| `LoopRules.ClientIsFaithful` | `src/X11ProtocolParser.cpp:343-371` | The size the client's loop reads from the buffer is the size the byte stream alone gives, in either length form. |
| `LoopRules.ServerIsFaithful` | `src/X11ProtocolParser.cpp:455-482` | The same for the server's loop. |
| `LoopRules.PassKeeps` | `src/X11ProtocolParser.cpp:308-423` | Serial number, byte order and the open status last, every logged message of an open connection is well formed or a request of extended length one, and the client's bytes are never edited. |
| `Crops.PassCrops` | `src/X11ProtocolParser.cpp:343-371` | One call of the client's loop behind parsed bytes logs exactly the framing of what is pending, unless a request of extended length one, stale bytes included, follows the framed messages; it then logs those and the first four bytes of that request. |
| `LoopRules.ServerMeasuresGenuinelyUnlessTorn` | `src/X11ProtocolParser.cpp:467-473` | A size the server's loop remembers is the reply's own, unless the length field had not arrived. |
| `Wire.FramesPartition` | `src/X11ProtocolParser.cpp:308-423` | Framing splits a stream into well-formed messages and a rest that holds no whole one, losing nothing. |
| `Wire.FramesUnique` | `src/X11ProtocolParser.cpp:308-423` | Any way of writing a stream as well-formed messages and an incomplete rest is its framing. |
| `Wire.FramesExtend` | `src/SocketBuffer.cpp:37-42` | Framing a stream that comes in two pieces is framing the first and going on with its rest and the second. |
| `Wire.FramingRoundTrip` | `src/X11ProtocolParser.cpp:343-371` | Framing the concatenation of any requests, in either length form and either byte order, gives back those requests and nothing left over. |
| `Wire.ResponsesRoundTrip` | `src/X11ProtocolParser.cpp:455-482` | Framing the concatenation of any errors, events and replies, whatever the replies carry behind their first 32 bytes, gives back those and nothing left over. |
| `Wire.EncodedIsWellFormed` | `src/X11ProtocolParser.cpp:349-370` | A request written in either form has the length it announces. |
| `Bytes.OrderedIsConnectionOrder` | `src/include/X11ProtocolParser.hpp:384-397` | Reading in the host's order and swapping when host and client differ is reading in the client's order: framing does not depend on the host. |
| `Bytes.FourBytes` | `src/include/X11ProtocolParser.hpp:384-397` | The first byte is the least one in one order, and reversing the bytes gives the other. |
| `Bytes.Pad` | `src/include/X11ProtocolParser.hpp:94-97` | The least multiple of four that is no smaller. |
| `SequenceTable.TableIsEarliest` | `src/include/Connection.hpp:189-212` | After any run the counter is the number of requests modulo 65,536, and the table holds under `k` the opcode of the earliest request numbered `k` since `k` was last answered for good, if there is one, and otherwise nothing. What answers a number for good is told by the bytes of the response: an error, or a reply, but for one of a series that has a name. |
| `SequenceTable.AnsweredOnce` | `src/X11ProtocolParser.cpp:148-194` | Within 65,536 requests a number that has been answered for good is not found again: a further reply with it is refused, so a view is taken back at most once. |
| `SequenceTable.ResponseFrees` | `src/X11ProtocolParser.cpp:188-194` | After a response a number is gone from the table if and only if it was not there, or the response is an error with that number, or a reply with it whose request is not ListFontsWithInfo or whose byte 1 is zero. Events change nothing. |
| `SequenceTable.SeriesStaysOpen` | `src/X11ProtocolParser.cpp:183-194` | A ListFontsWithInfo request keeps its number through its whole series of replies, until the one with an empty name or an error. |
| `SequenceTable.SeriesEnds` | `src/X11ProtocolParser.cpp:188-194` | ... and of all its responses exactly the first error or reply with an empty name frees it. |
| `SequenceTable.FilterMissesAfterAFullTurn` | `src/include/Connection.hpp:191-192` | A concrete run of 65,537 requests after which a denied extension is reported present, because an unanswered request still holds the number. |
| `Histories.RunAgrees` | `src/X11ProtocolParser.cpp:30-47` | After any run every table entry is that of a request of its own connection that carries the number, and every stashed view is into the place in the client's buffer where the string of such a request was when it was logged. |
| `Histories.ReplyFindsItsRequest` | `src/X11ProtocolParser.cpp:148-160` | A reply within the first 65,536 requests is handled as the reply to the request with its number, and any view under it is into the place of that request's own string, however connections interleave. |
| `Histories.FilterReadsThePlace` | `src/X11ProtocolParser__parseReply.cpp:2057-2070` | For every run, within 65,536 requests: the reply to a QueryExtension request leaves with `present` cleared if and only if the bytes now at the place where its string was spell a denied name, and otherwise as it came. |
| `Histories.ReplyRegisters` | `src/X11ProtocolParser__parseReply.cpp:2057-2082` | For every run, within 65,536 requests: the reply to a QueryExtension request registers the opcode it announces, under the name that the place of its string now spells, if and only if it says that the extension is present, that name is allowed, and the opcode is neither a core one nor taken; no other opcode changes. |
| `Histories.DeniedIsNotRegistered` | `src/X11ProtocolParser.cpp:280-306` | Within 65,536 requests the reply about a denied extension leaves the opcode table as it was, if nothing is read from the client between the query and the reply. |
| `Overwrites.StillSpellsExactly` | `src/SocketBuffer.cpp:17-42` | For any run of the relay: a view that spelled a name still does if and only if the client's buffer has not grown and the reads since then have last put the same byte, or none, at each of its places. |
| `Overwrites.StoreHolds` | `src/SocketBuffer.cpp:61-77` | As long as a client's buffer does not grow, it holds at each place, beyond what is read as well, the byte that a read last put there, and otherwise the one it held before. |
| `Histories.UnreadNameIsItsOwn` | `src/SocketBuffer.cpp:17-42` | As long as nothing is read from a client, the place of a request's string still spells that string. |
| `Histories.NumbersUnique` | `src/X11ProtocolParser.cpp:94` | Among the first 65,536 requests no number is used twice. |
| `Histories.DeniedIsReportedAbsent` | `src/X11ProtocolParser__parseReply.cpp:2061-2070` | Within 65,536 requests the reply about a denied extension leaves with `present` cleared and otherwise unchanged, if nothing is read from the client between the query and the reply. |
| `Histories.OnlyThePresentFlagChanges` | `src/X11ProtocolParser__parseReply.cpp:2064-2068` | A response leaves as it came, except that the `present` byte is cleared of a reply whose number is held for QueryExtension and whose stashed view now spells a denied name. |
| `Histories.DeniedIsNeverParsed` | `src/X11ProtocolParser.cpp:280-306` | No opcode of the core protocol ever enters the opcode table, and every opcode in it was announced, as present, by a reply to a query while the view stashed for that query spelled the allowed name it is held under. (That may be another extension's name: `Stale.OverwrittenNameIsShown`.) |
| `Histories.FilterIsExact` | `src/include/Connection.hpp:191-192` | With no limit on the number of requests, and whatever happens before the reply: a set `present` flag is cleared if and only if, when the request was numbered, the number was free or held by another QueryExtension request, and the bytes now at the place of its string spell a denied name. |
| `Stale.NextRequestOverwrites` | `src/SocketBuffer.cpp:61-77` | For all states and any two requests with their strings in the same place, each read alone into a drained buffer: after the second read the view stashed for the first request spells the second one's string. |
| `Stale.OverwrittenNameIsShown` | `src/X11ProtocolParser__parseReply.cpp:2057-2070` | A concrete run of two requests: a denied extension is reported present, and its opcode is registered as that of BIG-REQUESTS, because the name of the second query has overwritten the first one's. |
| `Stale.OverwrittenNameIsMirrored` | `src/X11ProtocolParser__parseReply.cpp:315-325` | The same for InternAtom: the atom of one name is mirrored under the other name. |
| `Replies.NameRoundTrip` | `src/X11ProtocolParser__parseRequest.cpp:6001-6003` | The string of an InternAtom or QueryExtension request is found again, whatever it is, in either byte order and either length form. |
| `Replies.RequestIsTaken` | `src/X11ProtocolParser.cpp:80-132` | A request without a string is taken if and only if it is in the short form or its connection may use the extended one; it is counted and leaves no view. |
| `Replies.NamedRequestIsTaken` | `src/X11ProtocolParser.cpp:30-37` | One with a string is taken if and only if, besides, no view is left under its number; it leaves a view of its string's place in the client's buffer. |
| `Replies.CroppedIsTaken` | `src/X11ProtocolParser__parseRequest.cpp:7094-7120` | Four bytes of a request of extended length one are taken for a message if and only if the connection may use extended lengths and the request is NoOperation, PutImage or QueryTextExtents with what their printers read inside the buffer, or one that no table has. |
| `Replies.ResponseGivesBack` | `src/X11ProtocolParser.cpp:39-47` | A response gives back exactly the view of the query it replies to, or of the InternAtom request it replies to with an atom, and keeps every other. |
| `Replies.NoAtomLeavesView` | `src/X11ProtocolParser__parseReply.cpp:315-325` | A reply to InternAtom without an atom frees the number but leaves the view. |
| `Replies.LeftBehindStays` | `src/X11ProtocolParser__parseReply.cpp:315-325` | Over every run, such a view stays for good, and the process ends at the first request with a string that is given the number again. |
| `Replies.QueryReplyIsTaken` | `src/X11ProtocolParser__parseReply.cpp:2057-2082` | A reply to a query is taken if and only if the view stashed for the query is there and not dangling, and what it spells is denied, or not present, or BIG-REQUESTS. |
| `Replies.InternReplyIsTaken` | `src/X11ProtocolParser__parseReply.cpp:315-325` | A reply to InternAtom is taken if and only if it has no atom, or the view is there and not dangling. |
| `Replies.PlainReplyIsTaken` | `src/X11ProtocolParser.cpp:148-187` | Any other reply goes out as it came. To a core request it is taken if and only if that has replies; to the registered extension's, if and only if it has 32 bytes and is the connection's first; to an unknown one always. |
| `Replies.EnabledExactly` | `src/include/Connection.hpp:217-223` | Over whole runs: a connection may use extended lengths if and only if a reply to a request of the registered extension has come on it. |
| `Replies.ExtendedIsTakenExactly` | `src/include/X11ProtocolParser.hpp:1570-1576` | ... and a request in the extended form, without a string, is taken exactly then. |
| `Deliveries.StreamIsLogged` | `src/X11ProtocolParser.cpp:308-423` | One call of either loop over whole messages on an open connection logs them all and leaves nothing over, and ends the process if and only if logging one of them, after those before it, does. |
| `Deliveries.RequestsAreLogged` | `src/X11ProtocolParser.cpp:80-132` | Whatever requests without a string a client sends, in either byte order, and in the extended form if it may: the loop logs exactly these and counts them. |
| `Deliveries.EventsAreLogged` | `src/X11ProtocolParser.cpp:518-535` | Whatever errors and events a server sends: the loop logs and passes on exactly these. |
| `AtomMirror.FetchInternedAtoms` | `src/ProxyX11Server_prequeue_clients.cpp:371-454` | Asks for one atom after another and stops at the first error; keeps the names up to a zero byte, drops them all on an unexpected error, and aborts on a name too long or an atom beyond 16 bits. |
| `AtomMirror.ImportFetchedAtoms` | `src/X11ProtocolParser.cpp:69-78` | Adds the fetched names after the 68 predefined ones and replaces none. |
| `AtomMirror.PrefetchMirrors` | `src/ProxyX11Server_prequeue_clients.cpp:390-447` | Against a server table that only grows, fetching stops at the first unused atom with name `i` at index `i`, and the import agrees with the server if and only if no imported name has a zero byte. |
| `AtomMirror.TrafficKeepsMirror` | `src/X11ProtocolParser__parseReply.cpp:315-325` | However connections interleave their InternAtom requests, within 65,536 requests each: every mirrored atom has the server's own name, all along the run, if and only if every reply with an atom finds the place of its request's string still spelling that string. |
| `AtomMirror.ReplyKeepsMirror` | `src/X11ProtocolParser__parseReply.cpp:315-325` | One reply keeps the mirror right if and only if the place of the name it interns still spells it. |
| `AtomMirror.UnreadIsIntact` | `src/SocketBuffer.cpp:17-42` | It does if nothing was read from the client between the InternAtom request and the reply. |
| `SocketBuffers.AppendEnqueues` | `src/SocketBuffer.cpp:18-35` | Reading appends to the held and the pending bytes and keeps every byte before, whether or not the store grows. |
| `SocketBuffers.SentDequeues` | `src/SocketBuffer.cpp:61-77` | Writing takes bytes from the front only; pending bytes and a size remembered for them stay. |
| `SocketBuffers.MarkedMovesPending` | `src/include/SocketBuffer.hpp:138-143` | Marking moves one message from pending to parsed and changes no byte. |
| `SocketBuffers.Grown` | `src/SocketBuffer.cpp:20-27` | Growth gives the least multiple of the block size that fits the request, with every old byte in place. |
| `SocketBuffers.SocketBuffer.constructor` | `src/include/SocketBuffer.hpp:87-89` | An empty buffer of one block. |
| `SocketBuffers.SocketBuffer.Reserve` | `src/SocketBuffer.cpp:20-27` | Replaces the array only when it is too short, copying all of it. |
| `SocketBuffers.SocketBuffer.Read` | `src/SocketBuffer.cpp:17-35` | Appends what the socket gave after making room for what was asked; a failed call leaves only the room. |
| `SocketBuffers.SocketBuffer.Load` | `src/SocketBuffer.cpp:44-59` | Appends bytes from memory. |
| `SocketBuffers.SocketBuffer.Write` | `src/SocketBuffer.cpp:61-77` | Takes parsed bytes from the front; a drained buffer starts over, a failed call changes nothing. |
| `SocketBuffers.SocketBuffer.Unload` | `src/SocketBuffer.cpp:84-103` | Gives the first bytes held and drops them; with nothing parsed the rest stays as it was. |
| `SocketBuffers.SocketBuffer.MarkMessageParsed` | `src/include/SocketBuffer.hpp:138-143` | Moves the parsed mark by the remembered size and forgets the size. |
| `PollIndex.PollTable.constructor` | `src/ProxyX11Server.cpp:910-911` | The table starts with the listener alone. |
| `PollIndex.PollTable.AddSocketToPoll` | `src/ProxyX11Server.cpp:514-518` | Appends an entry and indexes it; array and index stay a bijection. |
| `PollIndex.PollTable.OpenConnection` | `src/ProxyX11Server.cpp:849-872` | Adds both descriptors of a connection when both could be had, and otherwise nothing; a reused descriptor is as good as a new one. |
| `PollIndex.PollTable.CloseConnections` | `src/ProxyX11Server.cpp:874-908` | Exactly the descriptors of the given connections go, the others keep their entries, and index and array are again a bijection over the listener and both ends of every live connection. |
| `PollIndex.Compact` | `src/ProxyX11Server.cpp:895-905` | In whatever order the keys come, the new array has one entry for each, unchanged, numbered without gaps or repeats. |
| `PollIndex.PollTable.SetAsked` | `src/ProxyX11Server.cpp:520-541` | Every connection's two entries are asked for what they should be; nothing else in the array changes. |
| `PollIndex.PollTable.Poll` | `src/ProxyX11Server.cpp:917-925` | Every entry gets what the system reports of its descriptor and what it asks for; nothing else changes. |
| `PollIndex.AskedInOrderIsAsking` | `src/ProxyX11Server.cpp:521-540` | That holds in whatever order the connections come. |
| `EventLoop.SecondEndAsked` | `src/ProxyX11Server.cpp:605-658` | What serving the client's socket leaves is still what the server's socket was asked for. |
| `EventLoop.OneEventPerBuffer` | `src/ProxyX11Server.cpp:545-659` | One turn on a connection is at most two events, never two of the same buffer. |
| `EventLoop.ServeActs` | `src/ProxyX11Server.cpp:545-662` | A connection's turn is a run of the relay's state machine and keeps its invariant. |
| `EventLoop.ServeAllActs` | `src/ProxyX11Server.cpp:545-662` | So is the turn of all connections, in whatever order they come. |
| `EventLoop.ClosesAct` | `src/ProxyX11Server.cpp:874-894` | Closing a list of connections is closing them one by one: those go, and no other changes. |
| `Turns.NeverFrozen` | `src/ProxyX11Server.cpp:520-541` | In every reachable state, of each buffer of each connection exactly one holds: the socket that its bytes come from is asked to deliver, or the one they go to is asked to take; the second if and only if the buffer is not empty and everything in it is parsed. So no connection is ever asked for neither. |
| `Turns.ServeDone` | `src/ProxyX11Server.cpp:545-662` | A connection's turn, by its bytes. A socket that is read brings as many bytes as it has and fit (what is free of the buffer, or what the message of known size still needs); one that is written is sent everything the other buffer has parsed; the turn closes the connection if a read brings nothing, a write fails, or, where nothing is read or written, an error is reported; and the client's socket closing leaves the server's alone. Nothing else comes in or goes out, and the events are exactly those. |
| `Turns.LoopTurnDone` | `src/ProxyX11Server.cpp:543-671` | The same for a turn of the loop, over all connections in any order: every connection's streams bring and take what its own turn does, exactly the connections whose turns close them are gone, and at most one is new. |
| `Turns.OnlyReadsEndTurns` | `src/ProxyX11Server.cpp:543-663` | Writing, closing and errors never end the process: a turn that ends it has, on some connection, read bytes that cannot be logged, or asked for a size that has wrapped. |
| `ProxyServer.ProxyX11Server.UpdatePollFlags` | `src/ProxyX11Server.cpp:520-541` | In every state reached, each socket is asked for exactly what its two buffers are ready for, and of each buffer one socket is asked: its source to deliver, or its sink to take, the latter if and only if there are bytes and all are parsed (`Turns.NeverFrozen`, on the entries of the poll array). The assertions hold. |
| `ProxyServer.ProxyX11Server.ProcessPolledSockets` | `src/ProxyX11Server.cpp:543-671` | Whatever the system reports and does, a turn serves every connection as its reports say, closes exactly those that ask for it, and accepts at most one new connection, if and only if the listener reports a client and both descriptors can be had; the new events extend the run of the state machine by exactly the turns', the closings and the acceptance, and poll table, connections and run agree afterwards. It ends the process exactly where a connection's turn does. |
| `ProxyServer.ProxyX11Server.NextTurn` | `src/ProxyX11Server.cpp:914-926` | Asking, polling and serving as one: with what the system says of exactly what each buffer is ready for, the loop's next turn is the one above, from any state reached to a state reached, and every connection's streams bring and take exactly the bytes that `Turns.ServeDone` says. |
| `ConnectionTurns.ServeConnection` | `src/ProxyX11Server.cpp:545-662` | A connection's turn on the objects (buffers that read and write their arrays, and the parser's loops over them) is the turn of the state machine: same buffers, connection, parser, events and closing, and it ends the process exactly where that does. The bytes it hands to the two sockets are those by which the streams sent have grown. |
| `ConnectionTurns.ReadFromClient` | `src/ProxyX11Server.cpp:548-581` | Reading from the client's socket and logging are one read of the state machine, with growth of the buffer and stale bytes. |
| `ConnectionTurns.ReadFromServer` | `src/ProxyX11Server.cpp:605-636` | The same for the server's socket, with edits made in place. |
| `ConnectionTurns.ForwardToClient` | `src/ProxyX11Server.cpp:582-598` | A write hands the socket everything parsed, byte for byte, and leaves what is behind it; a failed one hands over nothing, closes and changes nothing. |
| `ConnectionTurns.ForwardToServer` | `src/ProxyX11Server.cpp:637-653` | The same towards the server. |
| `ProxyServer.ProxyX11Server.OpenConnection` | `src/ProxyX11Server.cpp:849-872` | Adds one new connection, under a number never used before, if and only if both descriptors can be had, and otherwise leaves connections and table as they were. |
| `ProxyServer.ProxyX11Server.CloseConnections` | `src/ProxyX11Server.cpp:874-908` | Exactly the given connections and their descriptors go. |
| `SetupCodec.BodyRoundTrip` | `src/X11ProtocolParser__logConnectionSetup.cpp:254-279` | Parsing the encoding of any tree of formats, screens, depths and visual types, in either byte order and with anything behind it, gives back the tree and takes exactly its bytes. |
| `SetupCodec.BodyIsWhole` | `src/X11ProtocolParser__logConnectionSetup.cpp:225-281` | Every acceptance takes whole aligned units. |
| `SetupCodec.AcceptanceAccepted` | `src/X11ProtocolParser__logConnectionSetup.cpp:225-281` | The units in the header, the bytes the nested lists take and the framed size agree for every acceptance, which therefore opens the connection. |
| `SetupCodec.LogAcceptance` | `src/X11ProtocolParser__logConnectionSetup.cpp:225-281` | The parser that counts its bytes accepts exactly the well-formed acceptances. |
| `SetupCodec.LogInitResponse` | `src/X11ProtocolParser__logConnectionSetup.cpp:369-402` | The connection opens exactly on such an acceptance in protocol version 11.0. |
| `SetupCodec.X11IsProper` | `src/X11ProtocolParser__parseListMember.cpp:19-145` | The layouts of formats, screens, depths and visual types have the sizes the parser asserts. Where their fields are is `SetupPlaces.X11IsPlaced`. |
| `SetupPlaces.X11IsPlaced` | `src/include/protocol/connection_setup.hpp:177-333` | The layouts by which an answer opens a connection place every field of its fixed parts, its screens, depths, visual types and formats where the structures of the source do, byte by byte. |
| `SetupPlaces.BodyPlaces` | `src/include/protocol/connection_setup.hpp:177-205` | In every encoded acceptance, in either byte order: the fields of the fixed part; the vendor's length at 16, the number of screens at 20, that of formats at 21; the vendor string from 32, and the lists behind its padding. |
| `SetupPlaces.ScreenPlaces` | `src/include/protocol/connection_setup.hpp:246-279` | In every encoded screen: its fields, the number of depths in byte 39, and the depths from byte 40. |
| `SetupPlaces.DepthPlaces` | `src/include/protocol/connection_setup.hpp:297-310` | In every encoded depth: its depth in byte 0, the number of visual types at 2, and those from byte 8. |
| `SetupPlaces.OpensExactly` | `src/X11ProtocolParser__logConnectionSetup.cpp:236-279` | The encoding of any tree opens the connection behind exactly one kind of header: success, version 11.0, and as many units as the body has. |
| `Handshakes.InitiationIsLogged` | `src/X11ProtocolParser.cpp:319-335` | A connection attempt with any name and data, each below 65,536 bytes and padded, in either byte order and on either host, is logged as one message of exactly its bytes with nothing left over, and the connection takes over the byte order it names. |
| `Handshakes.AttemptIsForwarded` | `src/ProxyX11Server.cpp:548-581` | ... and in the state machine, accepting, one read and one write later, exactly its bytes have been sent to the server. |
| `Handshakes.AcceptanceIsLogged` | `src/X11ProtocolParser.cpp:434-448` | A server's acceptance with any tree, in the connection's byte order, is logged as one message of exactly its bytes, and the connection is open. |
| `Records.ParseListOf` | `src/include/X11ProtocolParser.hpp:852-874` | The loop over a running offset reads the list that recursion over its members reads. |
| `Records.ListRoundTrip` | `src/include/X11ProtocolParser.hpp:852-874` | A list of members that each read back reads back, and takes the bytes of all. |
| `Records.CountedReads` | `src/X11ProtocolParser__parseListMember.cpp:114-145` | A fixed part that ends in a count, and that many members behind it, read back. |
| `Records.FieldsRoundTrip` | `src/X11ProtocolParser__parseListMember.cpp:19-36` | A record of numeric fields reads back in either byte order, whatever follows it. |
| `LengthInference.ListRequestRoundTrip` | `src/X11ProtocolParser__parseRequest.cpp:267-282` | For every list of fixed-size items, in either length form and byte order, the list inferred from the request's length is the list written and takes the framed size, if and only if it has fewer than 65,536 items. |
| `LengthInference.RecordRequestRoundTrip` | `src/X11ProtocolParser__parseRequest.cpp:5351-5367` | The same for items of fixed fields, such as points, segments and colour items. |
| `LengthInference.TextRequestRoundTrip` | `src/X11ProtocolParser__parseRequest.cpp:2873-2891` | For every font and string, in either length form and byte order: what is read back of the written QueryTextExtents request, its odd flag settling what padding leaves open, are the first characters, as many as its length modulo 65,536; so the string is read back if and only if it is shorter than 65,536. |
| `LengthInference.PolyArcNeverCounts` | `src/X11ProtocolParser__parseRequest.cpp:4076-4090` | PolyArc, which subtracts bytes from units, counts a quarter of the arcs beyond the first three or four, or a number that has wrapped if there are fewer: never the number of its arcs. |
| `XAuth.ReadEntries` | `src/ProxyX11Server.cpp:337-367` | The reading loop gives the entries of a file, and fails where a field is longer than its room or a cookie is not 16 bytes. |
| `XAuth.EditEntries` | `src/ProxyX11Server.cpp:372-411` | The editing loop gives the edited entries, and fails without a usable entry for the real display. |
| `XAuth.WriteEntries` | `src/ProxyX11Server.cpp:428-451` | The writing loop gives the concatenated entries. |
| `XAuth.EntriesRoundTrip` | `src/ProxyX11Server.cpp:428-451` | Reading what is written gives the entries back. |
| `XAuth.EntryReadsExactly` | `src/ProxyX11Server.cpp:338-365` | From any four strings, counted in network byte order, an entry is read if and only if the address and the display are shorter than 64 bytes, the name than 255, and the data are 16. |
| `XAuth.FileRoundTrip` | `src/ProxyX11Server.cpp:337-367` | Writing the entries read from a file reproduces it byte for byte if and only if its last cookie is complete; a cookie cut short is filled with zeros and nothing else differs. |
| `XAuth.EditFrame` | `src/ProxyX11Server.cpp:401-411` | The edit changes or appends at most one entry, which becomes the real display's but for the display string; it appends only when there was none for the proxy. |
| `XAuth.EditExactly` | `src/ProxyX11Server.cpp:376-411` | Which entries the edit takes: it looks at entries up to the one that completes the two displays. It succeeds if and only if all of those for either display have a cookie and one is for the real display; then the last of these, with the proxy's display string, takes the place of the last one for the proxy, or is appended if there is none. |
| `XAuth.EditIsIdempotent` | `src/ProxyX11Server.cpp:372-411` | Editing twice is editing once. |
| `XAuth.CopyIsIdempotent` | `src/ProxyX11Server.cpp:300-453` | Starting again on the file left behind changes nothing. |
| `XAuth.DecimalReads` | `src/ProxyX11Server.cpp:377` | The display number written in decimal is the number read back. |
| `XAuth.NumberReads` | `src/ProxyX11Server.cpp:377` | A display string is the number that stands in it in decimal behind white space and a sign, whatever follows the digits. |
| `HexDump.BufferHexDump` | `src/bufferHexDump.cpp:13-45` | The nested loops give the dump of the whole array. |
| `HexDump.DumpRoundTrip` | `src/bufferHexDump.cpp:13-45` | Reading the address, hex and text columns back line by line gives the original bytes, sixteen to a line, and beside them each as its character or a dot; addresses have eight digits, or more if they need them. |
| `HexDump.Lines` | `src/bufferHexDump.cpp:21-22` | There is one line for every sixteen bytes begun, line `r` at address 16 * r with bytes 16 * r onwards, and as text the characters from the space to the tilde and dots for the rest. |

## Left out

- Log text and layout, and the formatting of single values: strings without state.
- The printers of the many requests, replies and events not named above. A message is taken to be well formed
  for its own printer when its length is; some printers end the process on requests they misread
  (`LengthInference.PolyArcNeverCounts` shows one), and the relay model lets such requests pass. Of a request of
  extended length one the four kinds of printer that go on are modelled, and the others end the process.
- PolyFillRectangle and PolyFillArc, whose extended forms compute their counts differently again.
- Deliveries.EventsAreLogged: takes every code; event and error codes that are not in the tables, where the lookup
  throws, are not modelled.
- Deliveries.RequestsAreLogged: likewise takes every request of a proper length, as `Replies.RequestIsTaken` does.
- The fields of a refused or a further-authentication answer: the process ends on either.
- The connection statuses that only occur where the process ends (failed, authentication), and closed sockets.
- Minor opcodes of extension requests: they are always registered as zero, and nothing here reads them.
- The reply that enables BIG-REQUESTS is taken to leave its bytes as they are; its maximum length is not modelled.
- Sockets, signals, child processes, poll and files: what the system delivers, accepts and reports is an input.
  A send that succeeds takes all it was given, as the program asserts.
- The order in which a hash map is walked is arbitrary in the model.
- What a stashed view spells after its buffer has grown: growing is taken to move the buffer always, and reading
  through a view into the old one has no result.
- The name that is kept with an extension's opcode is a value; the program keeps a view and uses it for log text.
- Connection serial numbers are unbounded; the program's have 32 bits.
- Command-line settings: the set of allowed extensions is a parameter. Display names and addresses.
- The authority file's path, its backup copy, and the copy of the cookie kept for the proxy's own connections.
- Very long display strings, where reading a number saturates.
- The polling reads and writes of the proxy's own connections before the event loop starts, other than the loop
  over the atoms; that loop is given each answer whole.
- AtomMirror.FetchInternedAtoms: takes the server's answers as values, because cutting them out of the stream is
  the same framing again.
- EventLoop.ServeAllActs: works on values, as `ProxyServer` does with its connections. The objects of one
  connection are proved equal to those values in `ConnectionTurns`; that two connections' objects are never the same
  one is not modelled.
- Histories.FilterReadsThePlace: for up to 65,536 requests; past them `Histories.FilterIsExact` is the statement.
- Transparency.FilterIsExactOnStreams: likewise, and only while no message has been framed twice and no request of
  extended length one logged, because the numbers no longer count the stream's messages then
  (`EchoRuns.EchoShowsDenied`, `CropRuns.CropShowsDenied`).
- Echo.EchoSends: what is logged again is stated unless the stream goes on with a request of extended length one.
- Echo.NoShortCutsNoEcho: a sufficient condition on the cuts alone; the exact ones, `Echo.EchoedExactly` and
  `CropRuns.CroppedExactly`, also depend on stale bytes.
