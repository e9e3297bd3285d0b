# A verified model of uvnet's framing protocol

uvnet wraps libuv's TCP. What it adds is a framing protocol: `PacketData` prints a packet as HEAD, a 34-byte header,
the payload and TAIL; senders push the bytes through a ring into pooled write buffers; and `PacketSync::recvdata` finds
the frames again in whatever chunks TCP delivers, skipping anything that is not one. The project models these parts as
they are written and proves what they are for.

| file | what it holds |
|---|---|
| `Bytes.dfy` | bytes, digests, flattening of chunks |
| `NetBase.dfy` | the integer and header codec of `net_base.h`, on either byte order, with its sign-extending reads |
| `Scanner.dfy` | the reference reading of a stream: a recursive scanner over any prefix-stable verdict, and its laws |
| `Framing.dfy` | the protocol's verdict on a stream's first byte |
| `PacketSync.dfy` | the parser: two growable arrays, cursor, state between calls; each memcpy, memmove and realloc |
| `Printing.dfy` | `PacketData`, and what the scanner makes of printed packets, their prefixes, noise and high TAILs |
| `Reception.dfy` | a fresh parser fed chunk by chunk |
| `PodCircularBuffer.dfy` | the ring, every branch, against a bounded FIFO |
| `ParamPool.dfy` | the free lists of client and server |
| `SendPipeline.dfy` | all threads of a sending client as a transition system |
| `Progress.dfy` | from which states of that system everything can still be sent, as far as ring and pool are concerned |
| `WakeUp.dfy` | the same system with the async signal that wakes the loop thread |
| `TcpClient.dfy` | the client's methods on the heap, each a step or a run of that system, and any sequence of events |
| `Schedules.dfy` | what the events a client goes through say about where it ends up, and a schedule that sends everything |
| `EndToEnd.dfy` | printer, client, network and parser composed, on the transition system and on the heap |
| `SessionTable.dfy` | accepts and close completions as a transition system |
| `TcpServer.dfy` | the server's methods on the heap: sessions, contexts, write params, broadcast, and any sequence of events |

The parser is tied to the scanner by `Leads(rules, s, frames, u)`: some number of scanner steps take the bytes `s` to
the bytes `u` and deliver exactly `frames`. Retained bytes may still hold junk that has not been looked at, so two
parser states are equivalent when they lead to the same place, not when their bytes are equal. `LeadsScan`,
`LeadsExtend` and `LeadsTrans` make this independent of how the stream is cut.

The decoder of headers and MD5 (RFC 1321, section 3) are function-valued parameters of the parser: what is proved of
`recvdata` holds for every header decoder and every digest function. `Link` puts the real decoder in.

Four findings, each with the exact condition under which the code does what it is for:

- The integer codec loses values. The reader adds plain `char`s, so a wire byte of 0x80 or above borrows from the byte
  above it. A value survives exactly when bits 15, 23 and 31 are clear on a little-endian host, bits 7, 15 and 23 on a
  big-endian one (`CarriedExactly`); 32768 arrives as 33023 (`FirstInexact`).
- A printed packet is recognised exactly when the length of its payload survives and TAIL is below 0x80
  (`PrintedJudged`), because the closing byte is compared as a plain `char` too; with a higher TAIL nothing is ever
  delivered (`HighTail`).
- A ring without capacity claims not to be empty once it was offered an item (`PodCircularBuffer.NoCapacity`); both flags
  are exact if and only if there is a capacity (`PodCircularBuffer.PodCircularBuffer.FlagsExact`).
- `Send` signals the loop thread before its first pass and after its last one only. No wake-up is lost once every call has
  returned (`NoLostWakeUp`), but a call longer than the ring can fill it and then wait for ever, unless the peer sends
  something. That can happen if and only if some call is longer than the ring (`StuckExactly`); with shorter calls every
  call can return from every reachable state (`EveryCallReturns`).

## Model

| member | source | states |
|---|---|---|
| NetBase.Int32ToChar | net_base.h:90-98 | the four bytes stored are the digits of the integer, least significant first on a little-endian host and most significant first on a big-endian one; nothing else in the buffer changes |
| NetBase.Int64ToChar | net_base.h:109-121 | the same for eight bytes |
| NetBase.CharToInt32 | net_base.h:101-106 | the result is the sum of the sign-extended bytes modulo 2^32, with its bytes reversed on a little-endian host |
| NetBase.CharToInt64 | net_base.h:124-130 | the same for eight bytes, modulo 2^64 |
| NetBase.HostToNetInverse | net_base.h:51-87 | the swap stays in range and undoes itself, at any width and byte order |
| NetBase.WireOrder | net_base.h:89-98 | a little-endian host puts the least significant byte on the wire first, despite the conversion to network order |
| NetBase.ReassembledError | net_base.h:103 | the value before the final swap is off by exactly the borrows of the bytes below the top one |
| NetBase.CodecExact | net_base.h:51-130 | reading back gives the sent integer if and only if no wire byte below the top one is 0x80 or above; any width, either byte order |
| NetBase.CarriedExactly | net_base.h:90-106 | an int32 field survives if and only if three named bits of it are clear |
| NetBase.LittleEndianRange | net_base.h:90-106 | on a little-endian host every value below 32768 survives and no negative value does |
| NetBase.FirstInexact | net_base.h:90-106 | 32768 is read back as 33023 |
| NetBase.NetPacketToChar | net_base.h:153-171 | version at 0, header at 4, tail at 5, check at 6, type at 22, datalen at 26, reserve at 30, integers in two's complement; no other byte of the buffer touched |
| NetBase.CharToNetPacket | net_base.h:174-196 | each field is read back from its own offset |
| NetBase.HeaderLayout | net_base.h:153-171 | the same offsets for the header as a value |
| NetBase.HeaderCarried | net_base.h:153-196 | a header round trip keeps the byte fields and the check, and carries each int32 field as the codec does |
| NetBase.HeaderExact | net_base.h:153-196 | the header round trip is the identity if and only if all four int32 fields survive |
| Framing.AcceptExactly | packet_sync.h:99-166 | a frame is accepted if and only if the stream begins with HEAD, a header naming HEAD, TAIL, the length and the check, the payload and TAIL, with TAIL below 0x80; the check is the digest of the whole payload, or zero for none |
| Framing.WaitExactly | packet_sync.h:72-133 | more bytes are waited for if and only if there are none, or HEAD and less than a header, or an acceptable header and less than its frame |
| Framing.CheckDecides | packet_sync.h:139-166 | of a complete frame with the right markers, the check alone decides |
| Framing.FrameVerdictExtend | packet_sync.h:83-184 | a verdict once reached does not depend on bytes that arrive later |
| Scanner.ScanResume | packet_sync.h:70-198 | a scan can stop anywhere and go on with what it left over; the frames of a prefix are a prefix of the frames |
| Scanner.LeadsScan | packet_sync.h:70-198 | scanner steps deliver a prefix of the frames, and what they leave scans to the rest |
| Scanner.LeadsExtend | packet_sync.h:70-198 | steps taken on the bytes so far are steps on every continuation |
| Scanner.ShortIsQuiet | packet_sync.h:72 | fewer than 36 bytes never hold a frame |
| Scanner.ScanIsTheFraming | packet_sync.h:83-197 | the delivered frames are ordered, disjoint windows of the stream, every byte outside them up to the stopping point is refused, and there is exactly one such framing |
| PacketSync.PacketSync.constructor | packet_sync.h:49-57 | two buffers of BUFFER_SIZE and nothing unprocessed |
| PacketSync.PacketSync.ValidMeans | packet_sync.h:74-157 | between calls every position is inside its buffer, and a pending frame begins with HEAD and an acceptable header and is incomplete |
| PacketSync.PacketSync.Start | packet_sync.h:63-67 | only the two markers change; a pending frame stays |
| PacketSync.PacketSync.Fill | packet_sync.h:74-82 | as much input as fits goes behind the retained bytes |
| PacketSync.PacketSync.Inspect | packet_sync.h:83-112 | the bytes dropped hold no HEAD, or end in one whose header is not acceptable; the rest is kept |
| PacketSync.PacketSync.BeginPacket | packet_sync.h:113-123 | from the HEAD found on, no byte is lost when the body moves to the second buffer, which grows if need be |
| PacketSync.PacketSync.Collect | packet_sync.h:127-138 | input bytes become body bytes and nothing else changes; the frame is complete or the chunk is used up |
| PacketSync.PacketSync.Rewind | packet_sync.h:140-158 | both branches leave exactly the unprocessed bytes minus the rejected HEAD, even for a frame put together over several calls |
| PacketSync.PacketSync.Settle | packet_sync.h:139-196 | a complete frame is delivered and dropped if TAIL and the digest of the payload are right, and otherwise refused and rewound, as the reference verdict says |
| PacketSync.PacketSync.FindPacket | packet_sync.h:73-124 | the scanner takes the same steps; bytes were given up or input taken in unless a header was found |
| PacketSync.PacketSync.RecvData | packet_sync.h:70-198 | for every chunk in every valid state: the scanner leads from all unprocessed bytes to those kept and delivers the same frames in the same order, each with the right markers, length and digest, no complete frame is left, fewer than 36 bytes (or 36 plus the pending length) are kept, buffers never shrink, and the loop ends |
| Printing.PacketData | packet_sync.h:235-254 | the check is filled in with the digest of the first datalen bytes (zero for none) and the bytes are HEAD, header, payload, TAIL |
| Printing.PrintedJudged | packet_sync.h:105-184 | a printed packet's payload is delivered, whatever follows, if and only if its length survives the codec and TAIL is below 0x80 |
| Printing.SmallIsSendable | packet_sync.h:235-254 | from a little-endian host every payload below 32768 bytes can be sent, if TAIL is below 0x80 |
| Printing.DeliveredUnchanged | packet_sync.h:235-254 | the header delivered is the header sent if and only if its four int32 fields survive the codec |
| Printing.PrintScan | packet_sync.h:235-254 | any number of printed packets scans back to those packets with nothing left over |
| Printing.PrintPrefix | packet_sync.h:126-133 | a prefix of printed packets scans to the packets whole in it and waits for the next |
| Printing.HighTail | packet_sync.h:140 | with TAIL at 0x80 or above nothing is delivered from any stream |
| Printing.Resync | packet_sync.h:84-112 | noise of any length whose HEAD bytes are not followed by an acceptable header costs no packet |
| Printing.Swallowed | packet_sync.h:113-133 | a stray acceptable header with a large length swallows what follows |
| Reception.Receive | packet_sync.h:70-198 | a fresh parser fed any chunks has, after each of them, delivered exactly the frames of the bytes so far, every one with the right markers, length and digest |
| Reception.ReceivePrinted | packet_sync.h:70-198 | printed packets cut anywhere all arrive in order and nothing is kept back |
| Reception.ReceiveAfterNoise | packet_sync.h:70-198 | after harmless noise of any length every packet still arrives in order, and nothing is kept back after the last one |
| PodCircularBuffer.PodCircularBuffer.constructor | pod_circularbuffer.h:17-21 | an empty ring of the given capacity |
| PodCircularBuffer.PodCircularBuffer.Clear | pod_circularbuffer.h:32-37 | the contents become empty |
| PodCircularBuffer.PodCircularBuffer.Size | pod_circularbuffer.h:42-52 | the size computed from positions and flags is the number of items held |
| PodCircularBuffer.PodCircularBuffer.Full | pod_circularbuffer.h:26-28 | the flag is set only when the contents fill the capacity, and with any capacity always then |
| PodCircularBuffer.PodCircularBuffer.Empty | pod_circularbuffer.h:29-31 | with any capacity the flag is set if and only if there are no contents; without, if and only if the other is not |
| PodCircularBuffer.PodCircularBuffer.Write | pod_circularbuffer.h:68-146 | exactly the first min(count, room) items are appended, in all three layouts, and that number is returned; a ring that was offered something no longer claims to be empty |
| PodCircularBuffer.PodCircularBuffer.Read | pod_circularbuffer.h:151-217 | exactly the first min(count, size) items are removed and stored, in all three layouts, and that number is returned |
| PodCircularBuffer.PodCircularBuffer.FlagsExact | pod_circularbuffer.h:26-31 | in every valid state, both flags say what they are named for if and only if the capacity is not zero |
| PodCircularBuffer.NoCapacity | pod_circularbuffer.h:68-93 | a ring without capacity, offered one item, takes none, holds none, and claims not to be empty |
| SendPipeline.RunKeepsInv | tcpclient.cpp:388-689 | every interleaving of senders, loop thread and completions keeps cursors in range, params in one place, buffers undisturbed, bytes conserved and each sender's bytes in order |
| SendPipeline.ReachedInv | tcpclient.cpp:388-689 | the same from a fresh client with any senders, spelled out |
| SendPipeline.InterleavedKept | tcpclient.cpp:398-411 | popped bytes followed by the ring stay an interleaving of what each sender has written in its own order |
| SendPipeline.CallsInOrderKept | tcpclient.cpp:398-411 | as long as nothing comes between the pieces of any call, each sender's pieces put together are its calls in order, and only the sender of the last piece is in the middle of one |
| SendPipeline.OwnedKept | tcpclient.cpp:523-557 | a param stays in one of pool, loop thread and libuv, the pool has no duplicates and at most 21 entries |
| SendPipeline.PoolIsQueue | tcpclient.cpp:523-557 | over any run the pool is a queue: completed and failed params go to its end while at most twenty are pooled, and the oldest comes out first |
| SendPipeline.WriteMeans | tcpclient.cpp:402-410 | a pass writes as much of the rest of the call as the ring has room for, and moves the cursor by as much |
| SendPipeline.FailedCount | tcpclient.cpp:682-687 | as many uv_writes of a drain fail as are told to |
| SendPipeline.InFlightUntouched | tcpclient.cpp:676-682 | a submitted buffer is neither handed out nor written before its completion |
| SendPipeline.Contiguous | tcpclient.cpp:402-404 | what one pass of Send writes is contiguous in the stream |
| SendPipeline.FirstPassWhole | tcpclient.cpp:402-410 | a pass that finds room for its whole call writes it as one piece |
| SendPipeline.AloneReached | tcpclient.cpp:398-411 | with one sender nothing ever comes between the pieces of a call |
| SendPipeline.FitReached | tcpclient.cpp:398-411 | nor does anything when all calls together fit the ring |
| SendPipeline.DrainRun | tcpclient.cpp:667-688 | a drain conserves the bytes in order, leaves the senders alone, pops one chunk a pass, submits those whose uv_write succeeds, and fails as often as the outcomes of its uv_writes say |
| SendPipeline.OneSender | tcpclient.cpp:660-689 | with one sender and no failed uv_write, submitted bytes, chunk in hand and ring are exactly what it has written |
| Progress.CanFinishExactly | tcpclient.cpp:388-689 | with a loop thread that drains unprompted: from every reachable state with room in the ring, some steps finish every call and hand every byte to libuv, if and only if each sender is done, or finds the client open, or needs no more than a write it has tested for before the close |
| Progress.NoCapacityNoSend | tcpclient.cpp:398-411 | without capacity a sender with a byte to send never moves |
| WakeUp.GoIsRun | tcpclient.cpp:388-689 | everything the threads, the loop and the signals do is a run of the pipeline |
| WakeUp.WhoWakes | tcpclient.cpp:388-415 | the signal is raised by the two ends of a call and by a close; the loop thread wakes by it, by a receipt and by a completion without an error, and rests only when the ring is empty |
| WakeUp.NoLostWakeUp | tcpclient.cpp:396-413 | in every run, when every call has returned and the loop thread is asleep with no signal pending, the ring of an open client is empty |
| WakeUp.StuckStays | tcpclient.cpp:398-411 | a full ring with nobody to drain it stays full, and nothing but who has just tested the closed flag changes, until something is received or the client is closed |
| WakeUp.StuckForEver | tcpclient.cpp:398-411 | in every run from there without either, no waiting call returns |
| WakeUp.StuckExactly | tcpclient.cpp:388-415 | some run gets there without either, from a fresh client, if and only if one of the calls is longer than the ring |
| WakeUp.EveryCallReturns | tcpclient.cpp:388-415 | if none is, then from every reachable state of an open client some run without either lets every call return and hands every byte to libuv, without a failure |
| TcpClient.TCPClient.KeepsOn | tcpclient.cpp:398 | the test at the head of Send's loop is a step of its own, so that a close can come between it and the write |
| TcpClient.TCPClient.SendPass | tcpclient.cpp:402-410 | one write in Send's loop appends as much of the rest of the call as the ring has room for and moves the cursor by as much; it is the pipeline's write step |
| TcpClient.TCPClient.FetchOneParam | tcpclient.cpp:541-557 | the oldest free param, or a new one when there is none |
| TcpClient.TCPClient.RecycleOneParam | tcpclient.cpp:523-535 | to the end of the free list while that has at most twenty entries, and released otherwise |
| TcpClient.TCPClient.CloseByUser | tcpclient.cpp:697 | the client is closed for the senders and nothing else changes |
| TcpClient.TCPClient.ValidMeans | tcpclient.cpp:523-557 | each param is in one place with a buffer of its own, at most 21 are pooled, and the ring holds what the pipeline says |
| TcpClient.TCPClient.PopParam | tcpclient.cpp:669-679 | the front of the ring, as much as a buffer takes, moves into a buffer nobody else uses |
| TcpClient.TCPClient.SubmitParam | tcpclient.cpp:681-687 | libuv gets the bytes of the param, or, if uv_write fails, nothing, and the param goes back to the pool |
| TcpClient.TCPClient.DoSend | tcpclient.cpp:660-689 | _send is a run of the pipeline: the completion, if it follows one, then passes of pop and submission with the given outcomes of uv_write until the ring is empty; with no failure the bytes that were in the ring are submitted in order; every param is an old one or new, and the ring keeps its array |
| TcpClient.TCPClient.OnSend | tcpclient.cpp:506-517 | the steps are the completion of this param and, unless it failed, a drain with the given outcomes until the ring is empty |
| TcpClient.TCPClient.AsyncCB | tcpclient.cpp:644-654 | a drain with the given outcomes until the ring is empty, or nothing once the user has closed the client |
| TcpClient.Run | tcpclient.cpp:388-689 | a new client with any senders, taken through any tests, writes, signals, receipts, completions and closings, keeps its invariant; each event takes exactly its steps of the pipeline: a test, a write, one completion, a drain with the given outcomes |
| Schedules.NoFailures | tcpclient.cpp:681-687 | events none of whose uv_writes fails leave no failure behind |
| Schedules.RoundsSendAll | tcpclient.cpp:388-689 | a pass and a signal in turn, as often as the lengths of the calls ask for, send everything |
| EndToEnd.OneSenderDelivers | tcpclient.cpp:388-689 | any packets, one sender, any interleaving without a failed uv_write, any re-chunking of what was submitted: the real parser delivers the first packets in order, and all of them with nothing kept back once everything was received |
| EndToEnd.CutIsAny | packet_sync.h:70-72 | every way of delivering every prefix of a stream in chunks is a cut by sizes |
| EndToEnd.Transfer | tcpclient.cpp:388-689 | from a real client through any events to a real parser through any cuts: if no uv_write in the events fails, the first packets arrive in order; all of them, with nothing kept back, once every call has returned, the ring is empty and the cuts cover the bytes |
| EndToEnd.TransferAll | tcpclient.cpp:388-689 | with a pass and a signal in turn and enough chunks, every packet arrives at the real parser and nothing is kept back, without any further condition |
| EndToEnd.ManySendersDeliver | tcpclient.cpp:388-689 | several senders, nothing between the pieces of a call, any re-chunking of any prefix: the real parser delivers whole packets only, each sender's in its own order; all of them, keeping nothing back, once all was received and nobody is in the middle of a packet |
| EndToEnd.TransferMany | tcpclient.cpp:388-689 | from a real client with any senders through any events to a real parser: if no uv_write in the events fails and nothing came between the pieces of a call, which a single sender or calls that fit the ring together guarantee, whole packets arrive, each sender's in its own order |
| SessionTable.RunKeepsInv | tcpserver.cpp:434-600 | over all accepts and closes, sessions and contexts match one to one, contexts are in one place, the pool is bounded, and a session under an id handed out earlier was there all along with the same context |
| SessionTable.ClosedForGood | tcpserver.cpp:393-397 | a closed session's id is never in the table again |
| SessionTable.StaysOpen | tcpserver.cpp:585-600 | a session that no step of a run closes is still there, with its context |
| TcpServer.TCPServer.GenerateSessionID | tcpserver.cpp:393-397 | the next larger id |
| TcpServer.TCPServer.FetchOneCtx | tcpserver.cpp:522-539 | the oldest free context with its session pointer cleared, or a new one |
| TcpServer.TCPServer.RecycleOneCtx | tcpserver.cpp:503-516 | to the end of the free list while that has at most twenty entries, and released otherwise |
| TcpServer.TCPServer.RecycleOneParam | tcpserver.cpp:564-578 | the same for write params |
| TcpServer.TCPServer.FetchOneParam | tcpserver.cpp:545-558 | the oldest free param, or a new one when there is none |
| TcpServer.TCPServer.OnConnection | tcpserver.cpp:434-497 | for each combination of the four result codes, what happens to sessions, pool, handles being closed and the id counter; a new session and its context point at each other and carry the new id; no context but those known or new is touched |
| TcpServer.TCPServer.SessionClosed | tcpserver.cpp:585-600 | exactly this session leaves the table, and its context goes back to the pool; an unknown one changes nothing |
| TcpServer.TCPServer.ValidMeans | tcpserver.cpp:434-539 | sessions and contexts match one to one and carry the id, each context is in one place, and at most 21 are pooled |
| TcpServer.TCPServer.ParamsMean | tcpserver.cpp:545-578 | each write param is in one place with a buffer of its own, at most 21 are pooled, and in flight the buffer holds what was submitted |
| TcpServer.TCPServer.RecycleSessionCtx | tcpserver.cpp:421-427 | a context whose handle was closed after a failed read start goes back to the pool |
| TcpServer.TCPServer.Send | tcpserver.cpp:629-656 | the data is copied into the buffer of the oldest free param, or of a new one, grown if need be; libuv gets it, or, if uv_write fails, the param goes back to the pool; what is already in flight stays as submitted |
| TcpServer.TCPServer.OnSend | tcpserver.cpp:913-923 | a completion moves the param from libuv to the end of the pool, or releases it, whatever the status |
| TcpServer.TCPServer.Broadcast | tcpserver.cpp:676-711 | one send for each session not in the list and none for one in it, in ascending order, with duplicates and unknown ids in the list and although the list shrinks on the way; what is in flight afterwards is what was, plus the data for each of these sessions whose uv_write succeeded, each with a param of its own |
| TcpServer.TCPServer.Serve | tcpserver.cpp:434-711 | through any sequence of accepts, closes, broadcasts and completions, sessions, contexts and write params stay consistent; each event takes its step of the session table, makes its submissions or ends one write, and leaves everything else alone; sessions that no event closes stay, and none comes back |

## Left out

- libuv: loop, handles, timers, async signals and threads. A uv_write is a submission, with its result code a parameter, and a later completion; each section under a mutex is one step.
- MD5 itself, and header decoding inside the parser's proofs: both are arbitrary functions there.
- PacketSync.PacketSync.RecvData: `int` arithmetic is unbounded. In C++ the sums of lines 115-136 and 143-187 overflow for a datalen within a chunk's length of 2^31 - 1, which is undefined there.
- NetBase.CharToInt32: the shift of a negative `char` and the sum of `int`s wrap, as they do on two's complement hosts; both are undefined before C++20.
- The `bool` results of the codec functions, which are always true, and `IsSystem32`.
- Printing.PacketData: the null data pointer is the empty sequence, so a null pointer with a non-zero datalen, undefined in C++, is excluded, as is a negative datalen.
- A parser without a callback (line 193 of packet_sync.h) parses the same way and delivers nothing; callbacks that call back into the parser are excluded.
- Memory fresh from malloc or realloc has arbitrary contents; allocation never fails.
- TcpClient.TCPClient.SendPass: the loop of `Send` around it is the interleaving of the transition system, and its two signals are those of `WakeUp`; the length of its sleep between passes does not matter there, and its early return for null or empty data writes nothing.
- TcpClient.TCPClient.AsyncCB: closing, for which it is also signalled, is not modelled, nor are the connection and its timer. What OnRecv does beside sending is the parser's, and a receipt that is an error is left out.
- WakeUp.StuckExactly: for a ring that fits in one write buffer; the client allocates both with the same size.
- WakeUp.EveryCallReturns: for such a ring too, and given a param that malloc could return.
- Whole packets from several senders when another call's bytes come between the pieces of one: the lock is taken for each pass, so packets may be torn there, and nothing is promised.
- Session isolation when a context or a reconnecting client reuses a parser, which keeps its unprocessed bytes.
- Shutdown, reconnect and exactly-once closing; the server's log line that reads a context after recycling it; the id counter is shared by all servers of a process and is unbounded here.
- TcpServer.TCPServer.Broadcast: the separate loop for an empty list, which sends to every session, is the same loop here; the user's callbacks run under the lock are not modelled.
- Protocol dispatch, generated protobuf code, logging, thread wrappers, address setup.
