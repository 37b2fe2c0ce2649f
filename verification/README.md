# clibench: verified model

clibench emulates a network device behind several transports (SSH exec and shell, HTTP, NETCONF,
RESTCONF, gNMI, an SSH-over-HTTP tunnel with a site proxy) and benchmarks clients against it. This
project models the hand-written protocol and concurrency code in Dafny and proves what that code is
relied on for. `dafny verify dfyconfig.toml` checks all of it.

A `char` stands for one byte. A connection is a `Channel`: the bytes that will arrive, the bytes
that arrive together with the first error, and the bytes written. Every read cuts the incoming bytes
wherever it likes, so each result about a reader holds for every fragmentation. Code that loops and
updates is modelled by methods proved against specification functions; goroutines are modelled as
step systems, in which a list of events is one interleaving and the theorems range over all of them.

The main results:

- **Shell.** Client and server of the interactive shell stay in lock-step for every fragmentation
  and interleaving, exactly when no proper prefix of the prompt is also a suffix of it
  (`PtyLockstep.LockStepExactly`, `PtyLockstep.LockStep`, `PtyLockstep.Completion`). The line editor
  runs exactly what one exec request with the backspaces carried out would run, for every input
  (`LineEditor.ShellRunsCancelledText`), and its echo always shows the line it will run
  (`LineEditor.EchoShowsTheLine`).
- **NETCONF.** The chunked reader accepts exactly the lists of valid chunks, splits them in one way
  only, and decodes everything the grammar of section 4.2 of RFC 6242 allows
  (`Framing.AcceptedExactly`, `Framing.UniqueSplit`, `Framing.StandardIsAccepted`). Pipelined
  requests are answered in order, and any two schedules read the same replies
  (`NetconfPipeline.RepliesInOrder`, `NetconfClient.EveryGetIsAnswered`).
- **Transports.** A user of the headend reads, over HTTP and proxy, exactly what the device itself would
  have written, except for payloads of white space only (`Tunnel.TunnelPreservesMeaning`).
- **Concurrency.** Connection accounting of the proxy, the bounded parallel loop, one level of the
  concurrency sweep and the atomic round-trip counters, over all interleavings; the first three are
  bounded and cannot stop before everything is done.
- **Statistics.** Bounds between mean, percentiles, extremes and spread, over exact reals.

What the proofs show about the code that its own documentation does not say:

- `readUntil` appends the bytes delivered together with a read error and returns the error without
  searching them again (`PtyClient.MissesTargetDeliveredWithError`).
- `readChunked` accepts more than section 4.2 of RFC 6242: signs, leading zeros and a message of no
  chunks (`Framing.MoreThanStandardIsAccepted`).
- `writeChunked` of an empty message is not readable (`Framing.RoundTrip` is an equivalence).
- A payload of white space only, for which the device writes nothing, is answered by the headend with
  `%Error: HTTP 400`; the empty payload is not forwarded at all (`Tunnel.BlankIsRefused`).
- A one-line command with `+` or `/` does not survive the path encoding (`Tunnel.EncodingSurvives` is an
  equivalence).
- A command whose inner spaces are doubled misses the exact hit, and is then ambiguous if it also
  abbreviates another command (`Paths.SpacingHidesExactHits`).
- An answer that does not contain the prompt can still complete it early, exactly when a proper prefix of
  the prompt is also a suffix of it (`PtyClient.ReliableExactly`). That takes a `#` in the hostname, and
  not every `#` does it: `#` slips and `a#b` does not (`PtyClient.HashInHostnameSlips`).
- With no slots the parallel loop blocks for ever on its first iteration
  (`RunParallel.CompletesExactly` is an equivalence).

## Model

| member | source | states |
|---|---|---|
| `Device.Lookup` | internal/device/device.go:60-86 | one pass over the command table in an arbitrary order gives the exact hit, else the unique abbreviated command, else Ambiguous for two or more and Unknown for none; so the answer does not depend on map order |
| `Device.MatchWords` | internal/device/device.go:99-111 | the early-exit loop accepts exactly when both texts have the same number of words and each word of the input is a prefix of its counterpart |
| `Device.SentinelIsSound` | internal/device/device.go:72-83 | a non-blank input never abbreviates the empty command, so the empty string can stand for "no match yet" |
| `Device.ShorterMatchesMore` | internal/device/device.go:99-111 | abbreviation is transitive: shortening the words of an input keeps every command it matched |
| `Device.ShorteningNeverDisambiguates` | internal/device/device.go:60-111 | among inputs that are not commands themselves: shortening an ambiguous input leaves it ambiguous, a shortened input that is unknown was unknown before, and a unique answer that stays unique stays the same |
| `Device.AbbreviationDecides` | internal/device/device.go:60-111 | every word of a command may be cut to any of its beginnings; the answer is that command's if and only if no other command is spelled by the same beginnings, or its answer happens to be the complaint about them |
| `Device.StrangersAreUnknown` | internal/device/device.go:71-85 | an input is answered as unknown if none of the commands is spelled by its words |
| `Device.StrangeWordIsUnknown` | internal/device/device.go:71-111 | so it is if one of its words starts no word in its place, in any command of that many words |
| `SshServer.ExecRequest` | internal/sshserver/server.go:73-89 | an exec request returns the device's answers to the trimmed non-blank lines of its payload, in order |
| `SshServer.HandleSession` | internal/sshserver/server.go:61-94 | terminal requests are granted, the first shell or exec request is served, and requests of any other kind are refused |
| `SshServer.ExecIsServed` | internal/sshserver/server.go:73-89 | an exec request with any text behind its four-byte length is answered with the device's answers to the lines of that text |
| `SshServer.OnByte` | internal/sshserver/server.go:108-129 | one byte changes the line buffer and writes as the editor specification says; a backspace on an empty line changes and writes nothing |
| `SshServer.OnRead` | internal/sshserver/server.go:107-130 | the bytes of one read are answered in order and bytes behind an exit command are dropped |
| `SshServer.InteractiveSession` | internal/sshserver/server.go:96-132 | everything the shell writes and every command it runs is a function of the concatenated input, whatever the read boundaries |
| `SshServer.SessionAppend` | internal/sshserver/server.go:96-132 | running the editor on two pieces one after the other gives the state and the commands of the whole |
| `SshServer.EmitAppend` | internal/sshserver/server.go:96-132 | and so it does for the bytes written |
| `LineEditor.ShellRunsCancelledText` | internal/sshserver/server.go:73-132 | for every input: the shell runs what exec runs on the text with backspaces carried out and CR written as LF, up to the first exit or quit, and holds the unfinished last line |
| `LineEditor.ShellAgreesWithExec` | internal/sshserver/server.go:73-132 | on newline-terminated input without backspaces and with CR only in front of LF, the shell runs exactly the commands of the exec branch, up to the first exit or quit |
| `LineEditor.EchoShowsTheLine` | internal/sshserver/server.go:121-129 | while a line is typed and corrected, the terminal shows, behind the prompt, the line that will be run |
| `LineEditor.EnterAddsCommand` | internal/sshserver/server.go:109-120 | ending a line adds that line's command to those of the finished lines, if it is not blank |
| `LineEditor.ExecIsLineByLine` | internal/sshserver/server.go:79-86 | a payload without line feeds is answered as one command, and two payloads with a line feed between them by both answers |
| `LineEditor.LineIsAnswered` | internal/sshserver/server.go:109-120 | a typed line is echoed; on `exit` and `quit`, and on nothing else, the session ends; any other line that is not blank is run once and followed by its answer and the prompt, whichever line end was typed |
| `LineEditor.EitherBackspaceErases` | internal/sshserver/server.go:121-125 | bytes 127 and 8 both take the last character back and wipe it from the terminal |
| `LineEditor.NothingToErase` | internal/sshserver/server.go:121-125 | and do nothing on an empty line |
| `PtyClient.PtyReader.ReadUntil` | internal/bench/pty.go:20-54 | succeeds exactly when the target occurs in buffer and error-free stream, and consumes exactly through the end of its first occurrence, for every cut; bytes that come with the error are kept but not searched |
| `PtyClient.PtyReader.ReadUntilAll` | internal/bench/pty.go:20-54 | for every list of targets, the number found in order and the remaining stream are functions of the stream alone |
| `PtyClient.MissesTargetDeliveredWithError` | internal/bench/pty.go:43-49 | a target completed by bytes that arrive with the read error is missed |
| `PtyClient.CommandOnTheWire` | internal/sshserver/server.go:107-130 | for one plain command and a newline the server writes the echo, CR LF, the answer and the prompt, runs that command once, and is back at an empty line |
| `PtyClient.ExitOnTheWire` | internal/sshserver/server.go:109-115 | for `exit` the server writes the echo and CR LF, runs nothing and ends |
| `PtyClient.PromptEndsReply` | internal/bench/pty.go:59-107 | if no proper prefix of the prompt is also a suffix of it and the answer does not contain the prompt, the first prompt in answer and prompt is the one at the end |
| `PtyClient.BorderSlips` | internal/bench/pty.go:31-34 | for every border of the prompt, a line end and the prompt without that border is an answer without a prompt behind which the prompt is seen early |
| `PtyClient.ReliableExactly` | internal/bench/pty.go:59-107 | the first prompt behind every quiet answer of every device with a hostname is the real one if and only if no proper prefix of the prompt is also a suffix of it |
| `PtyClient.NoHashIsReliable` | internal/bench/pty.go:59-107 | which holds for every hostname without `#` |
| `PtyClient.HashInHostnameSlips` | internal/bench/pty.go:59-107 | and with a `#` may fail, as for `#`, or hold, as for `a#b` |
| `PtyLockstep.ServerConserves` | internal/sshserver/server.go:96-132 | however much the server reads at once, what the client has still to see, what will have been run and how the editor ends up stay the same |
| `PtyLockstep.EchoComesFirst` | internal/bench/pty.go:84-87 | an echo that has arrived is the very next thing in the client's buffer |
| `PtyLockstep.PromptComesLast` | internal/bench/pty.go:88-90 | when a prompt has arrived, the buffer holds exactly the answer and the prompt, and nothing is in flight either way |
| `PtyLockstep.RunKeeps` | internal/bench/pty.go:59-107 | the lock-step invariant holds after every run |
| `PtyLockstep.LockStep` | internal/bench/pty.go:59-107 | for every prompt that does not overlap itself, every list of plain commands with quiet answers, every fragmentation in both directions and every interleaving: each wait for an echo ends on that command's own echo, each wait for a prompt on the prompt behind that command's answer, and then the server has run exactly the commands sent and no byte is left |
| `PtyLockstep.LockStepExactly` | internal/bench/pty.go:59-107 | every client of every device with a hostname stays in lock-step in all runs if and only if no proper prefix of the prompt is also a suffix of it |
| `PtyLockstep.OutOfStep` | internal/bench/pty.go:59-107 | for every command whose answer completes the prompt early, a run that goes out of step |
| `PtyLockstep.Progress` | internal/bench/pty.go:59-107 | no reachable state is stuck before the client has finished and the server has read the exit |
| `PtyLockstep.EventUsesUp` | internal/bench/pty.go:59-107 | every event decreases a measure |
| `PtyLockstep.Completion` | internal/bench/pty.go:59-107 | every run is bounded, and a run that cannot go on has run all commands in order, ended the session and left only the echo of the exit |
| `PtyDriver.RunCommand` | internal/bench/pty.go:96-102 | sending one command and waiting for echo and prompt succeeds, runs that command once and leaves nothing unread |
| `PtyDriver.ShowVersions` | internal/bench/pty.go:93-103 | the benchmark loop runs "show version" exactly as often as asked |
| `PtyDriver.PtyExecCmds` | internal/bench/pty.go:59-107 | if the prompt is the device's, does not overlap itself, and the three answers are quiet, every wait succeeds, the device has run the two preparation commands and then the benchmark commands, and only the echo of the exit is left to read |
| `Framing.ValueOfDecimal` | internal/netconfserver/server.go:312-326 | a printed length has the value that was printed |
| `Framing.AtoiDecimal` | internal/netconfserver/server.go:312-326 | the parser reads a printed length back, if it fits the integer |
| `Framing.ParseSound` | internal/netconfserver/server.go:286-322 | whatever is accepted is a list of blocks, each with a length that parses to its data size of at least 1, an end mark, and the bytes left over |
| `Framing.ParseComplete` | internal/netconfserver/server.go:286-322 | every list of valid blocks is accepted, whatever bytes follow |
| `Framing.AcceptedExactly` | internal/netconfserver/server.go:286-322 | a stream is split into blocks and rest if and only if the blocks are valid and the stream is their encoding followed by the rest |
| `Framing.UniqueSplit` | internal/netconfserver/server.go:286-322 | a stream splits in one way only, so no accepted encoding is a proper prefix of another |
| `Framing.ParseAppend` | internal/netconfserver/server.go:286-322 | later bytes do not change how a complete message is read |
| `Framing.StandardIsAccepted` | internal/netconfserver/server.go:284-322 | every encoding by the grammar of section 4.2 of RFC 6242 is decoded, for every cutting into chunks and whatever follows |
| `Framing.MoreThanStandardIsAccepted` | internal/netconfserver/server.go:309-315 | signs, leading zeros and a message without chunks are accepted too |
| `Framing.RoundTrip` | internal/netconfserver/server.go:286-328 | what `writeChunked` wrote is read back, with the following bytes untouched, if and only if the message is not empty |
| `Framing.FrameOnTheWire` | internal/netconfserver/server.go:325-328 | what the frame of a message looks like on the wire |
| `Framing.ChunksOnTheWire` | internal/netconfserver/server.go:284-322 | a message in two chunks, as it looks on the wire, is decoded, and the bytes behind it are left |
| `Framing.EmptyIsRejected` | internal/netconfserver/server.go:312-315 | the frame of an empty message is not readable |
| `Framing.WriteChunked` | internal/netconfserver/server.go:325-328 | writes the one-chunk frame of the message |
| `Framing.Expect` | internal/netconfserver/server.go:330-338 | succeeds exactly when the next byte is the expected one, and consumes it |
| `Framing.ReadLine` | internal/netconfserver/server.go:299-308 | reads exactly through the first line feed, and fails exactly when there is none |
| `Framing.ReadSized` | internal/netconfserver/server.go:309-320 | after the length line: end mark, bad length, short data or a chunk, and exactly the bytes consumed |
| `Framing.ReadFront` | internal/netconfserver/server.go:290-320 | one pass reads exactly the block or the end mark at the front of the stream |
| `Framing.ReadChunked` | internal/netconfserver/server.go:286-322 | succeeds exactly when the stream starts with a valid message, returns the concatenation of its chunks and leaves exactly what follows, for every cut |
| `Hello.ReadEOM` | internal/netconfserver/server.go:266-282 | returns the bytes before the first delimiter and consumes exactly through it if and only if it ends within 2^20 + 1 bytes; otherwise reports too large or the end of input |
| `Hello.ReadsExactly` | internal/netconfserver/server.go:266-282 | a hello is read if and only if a delimiter ends within 2^20 + 1 bytes, and then up to the first one; otherwise it is too large if and only if there are more than 2^20 bytes |
| `Hello.OverlapOfEOM` | internal/netconfserver/server.go:275-277 | a delimiter can start early only at the last three bytes in front of it, and does exactly when these are its own first half |
| `Hello.HelloRoundTrip` | internal/netconfserver/server.go:266-282 | a delimited text is read back if and only if it does not contain the delimiter, does not end in half of it, and is short enough |
| `Hello.HelloWithNewline` | internal/netconfserver/server.go:112-119 | with the newline both sides send, a hello is read back if and only if it does not contain the delimiter and has at most 2^20 - 6 bytes |
| `Hello.HalfDelimiterIsLost` | internal/netconfserver/server.go:275-277 | without the newline a hello that ends in half a delimiter would be cut short |
| `Hello.ClientHello` | internal/bench/netconf.go:102-111 | the client answers with its hello exactly when it could read the server's, and leaves the bytes behind that |
| `NetconfServer.HandleRequest` | internal/netconfserver/server.go:139-177 | the reply to one request is the dispatch specification's, on every branch |
| `NetconfServer.ServeRequests` | internal/netconfserver/server.go:121-135 | the loop writes one framed reply per request, in order, until the stream ends, a request is badly framed, or one contains the close tag (which is still answered) |
| `NetconfServer.RunSession` | internal/netconfserver/server.go:110-136 | the whole output of a session, byte for byte, as a function of the bytes received |
| `NetconfServer.DecodeFrames` | internal/netconfserver/server.go:286-328 | reading repeatedly from framed messages gives those messages |
| `NetconfServer.PipelinedReplies` | internal/netconfserver/server.go:121-135 | requests sent all at once are answered by their own dispatches, in order |
| `NetconfServer.SessionAnswersInOrder` | internal/netconfserver/server.go:110-136 | after the hello, the output of a session of non-empty requests, of which only the last may ask to close, decodes to their dispatches in order |
| `NetconfServer.FilterOfGet` | internal/netconfserver/server.go:202-223 | the filter text extracted from a built get request is its trimmed command, for every command without `<` |
| `NetconfServer.ConfigOfEdit` | internal/netconfserver/server.go:227-238 | the configuration extracted from a built edit request is its trimmed text, for every text without `<` |
| `NetconfServer.NoFilterMeansVersion` | internal/netconfserver/server.go:202-223 | without a whole filter element the command is "show version" |
| `NetconfServer.FilterText` | internal/netconfserver/server.go:202-223 | the command is the trimmed text of the first filter element, whatever its attributes |
| `NetconfServer.CloseEndsSession` | internal/netconfserver/server.go:122-135 | every request is answered, and the session goes on behind it if and only if it does not contain `<close-session` |
| `NetconfServer.GetIsExec` | internal/netconfserver/server.go:162-168 | a get request that the XML decoder reads as it was built gets the data reply to its id and the device's answer to its command, for every command without `<` |
| `NetconfReplies.EveryReplyHasItsId` | internal/netconfserver/server.go:139-198 | read off the text of the reply: every reply carries the id that decoding gave, if it has no `"` |
| `NetconfReplies.ReplySaysWhatHappened` | internal/netconfserver/server.go:139-198 | read off the text of the reply, branch by branch: a get reply holds the device's answer to the command of the request, escaped; edit, commit and close are acknowledged without an error; a message that cannot be decoded, and an unknown operation, get an error of their own; for every id without `<` |
| `NetconfReplies.GetSaysItsCommand` | internal/netconfserver/server.go:359-363 | read off the text of the request: a built get carries its id and its command |
| `NetconfReplies.GetIsAnswered` | internal/netconfserver/server.go:162-168 | read off the text of the reply: it carries the id of the get request and, escaped, the device's answer to the command of that request |
| `NetconfPipeline.FrontOfFrames` | internal/netconfserver/server.go:286-322 | a message decoded from the part of a framed stream that has arrived is the first one of the whole stream |
| `NetconfPipeline.RunKeeps` | internal/netconfserver/server.go:121-135 | requests in flight, replies in flight and replies read always match the list of requests |
| `NetconfPipeline.Progress` | internal/bench/netconf.go:212-227 | as long as a request sent has no reply, something other than sending can happen: a waiting client gets on |
| `NetconfPipeline.EventUsesUp` | internal/bench/netconf.go:212-227 | every event decreases a measure |
| `NetconfPipeline.RepliesInOrder` | internal/bench/netconf.go:170-227 | for every schedule and fragmentation: replies read so far are those of the first requests in order, runs are bounded, and a run in which nothing more happens has every reply, whether the client waits for each reply or not |
| `NetconfPipeline.AnyTwoSchedulesAgree` | internal/bench/netconf.go:170-227 | waiting for each reply and pipelining read the same replies |
| `NetconfClient.SendAll` | internal/bench/netconf.go:212-220 | writes the frames of the consecutively numbered get requests and advances the counter by one for each |
| `NetconfClient.ReadReplies` | internal/bench/netconf.go:221-227 | reads exactly the asked number of framed replies and leaves the rest |
| `NetconfClient.GetIsNotClose` | internal/netconfserver/server.go:359-363 | a built get request with a command without `<` never contains the close tag |
| `NetconfClient.GetsAreConversation` | internal/bench/netconf.go:212-220 | a list of built get requests meets the condition of the pipelining theorems |
| `NetconfClient.GetsThenCloseIsConversation` | internal/netconfserver/server.go:131-134 | and so does such a list followed by a close request |
| `NetconfClient.EditIsNotClose` | internal/netconfserver/server.go:366-370 | a built edit request never contains the close tag, so it leaves the session open |
| `NetconfClient.EveryGetIsAnswered` | internal/bench/netconf.go:170-227 | in every completed run, sequential or pipelined, the text of reply i carries request i's id and, escaped, the device's answer to command i |
| `HttpHandler.ParsePath` | internal/httphandler/handler.go:37-59 | the commands of an exec path are its non-blank slash-separated parts, `+` read as space, trimmed |
| `HttpHandler.ParseBody` | internal/httphandler/handler.go:61-88 | the commands of a posted body are those of an SSH exec payload with the same text |
| `Proxy.ProxyServer.GetSSH` | internal/proxy/proxy.go:187-201 | returns the pooled connection if there is one, else dials; only a successful dial of a pooling server fills the pool |
| `Proxy.ProxyServer.ResetPool` | internal/proxy/proxy.go:203-208 | closes the pooled connection once, if any, and forgets it |
| `Proxy.ProxyServer.RunCommands` | internal/proxy/proxy.go:94-128 | the text returned is that of the commands before the first failure; a pooled connection survives success and is closed and forgotten on failure; a fresh one is closed in every case; no connection is closed twice |
| `Proxy.ProxyServer.Close` | internal/proxy/proxy.go:72-91 | afterwards nothing that was dialed is still open |
| `ProxyRuns.RunKeeps` | internal/proxy/proxy.go:72-128 | the invariant of locks, pool and connections holds after every run |
| `ProxyRuns.ConnectionsAreAccounted` | internal/proxy/proxy.go:72-128 | over all interleavings of requests and closes: dialed = closed + pooled + fresh in flight, none is closed twice, none is used after it was closed, and a pooling server has at most one open |
| `ProxyRuns.FailureForcesRedial` | internal/proxy/proxy.go:110-124 | a failed pooled session closes that connection and empties the pool, so the next request must dial |
| `ProxyRuns.SuccessKeepsConnection` | internal/proxy/proxy.go:108-127 | a pooled request that succeeds leaves its connection open, in the pool |
| `ProxyRuns.CloseEmptiesPool` | internal/proxy/proxy.go:84-89 | a close closes the pooled connection, if there is one, and no other, and empties the pool |
| `ProxyRuns.LastCloseLeavesNoneOpen` | internal/proxy/proxy.go:72-128 | after a last close, behind which nobody dials, and once everyone has returned, every connection ever dialed has been closed exactly once |
| `ProxyRuns.NoDeadlock` | internal/proxy/proxy.go:72-128 | no reachable state is stuck before every request and close is done |
| `ProxyRuns.EveryoneReturns` | internal/proxy/proxy.go:72-128 | every run is bounded by the steps its threads have at first, and cannot go on if and only if every request and close has returned |
| `Tunnel.HandleSession` | internal/headend/headend.go:94-118 | requests before the first exec request are refused, that one is accepted and answered, none behind it is looked at; what is written is what `SessionPreservesMeaning` speaks of |
| `Tunnel.SessionPreservesMeaning` | internal/headend/headend.go:94-157 | for the first exec request with a text behind its four-byte length: the headend writes the device's answers to the lines of that text, as the device's own server does on these requests, if and only if the text is empty or not blank |
| `Tunnel.FailureIsReported` | internal/httphandler/handler.go:51-55 | when running the commands fails, the user reads `%Error: HTTP 502` and nothing else |
| `Tunnel.PathRunsAll` | internal/httphandler/handler.go:45-50 | commands without `+` and `/`, their spaces written as `+` and joined by slashes, are all run, in order |
| `Tunnel.RunOverProxy` | internal/proxy/proxy.go:94-128 | when all hops succeed the proxy returns the concatenated answers, whether it pools or not |
| `Tunnel.TrimKeepsCommands` | internal/headend/headend.go:121 | trimming a payload does not change its commands |
| `Tunnel.SessionsGiveOutputs` | internal/proxy/proxy.go:108-127 | one exec session per command gives what one exec request with all of them gives |
| `Tunnel.EncodingSurvives` | internal/headend/headend.go:123-124 | a one-line command comes back from the path encoding if and only if it has no `+` and no `/` |
| `Tunnel.ManyLinesTunnel` | internal/headend/headend.go:141-156 | a payload of several lines, over any bytes, is answered as by direct SSH exec |
| `Tunnel.OneLineTunnel` | internal/headend/headend.go:120-140 | so is a one-line payload over characters that neither the encoding nor URL syntax uses |
| `Tunnel.BlankIsRefused` | internal/httphandler/handler.go:39-43 | a payload of white space only gets the line `%Error: HTTP 400`, and the empty one nothing; the device writes nothing for either |
| `Tunnel.TunnelPreservesMeaning` | internal/headend/headend.go:94-157 | headend exec branch, HTTP handler, proxy and device exec together write what direct SSH exec writes, if and only if the payload is empty or not blank |
| `Paths.CommandToGnmi` | internal/gnmiserver/server.go:198-206 | the path built is "cli" followed by the command's words |
| `Paths.GnmiToCommand` | internal/gnmiserver/server.go:179-194 | the command built joins the element names, without a leading "cli" |
| `Paths.GnmiRoundTrip` | internal/gnmiserver/server.go:179-206 | the pair gives back every command, single-spaced |
| `Paths.GnmiPrefixIsOptional` | internal/gnmiserver/server.go:184-193 | a leading "cli" may be left out, and no other first element is dropped |
| `Paths.RestconfRoundTrip` | internal/restconfserver/server.go:235-257 | the pair gives back a non-blank command, single-spaced, if and only if it has no slash; a blank one comes back as "show version" |
| `Paths.RestconfPrefixIsOptional` | internal/restconfserver/server.go:235-247 | a leading "cli:" may be left out, for every command without slashes that does not start with it |
| `Paths.RestconfArrives` | internal/restconfserver/server.go:249-257 | the path built for such a command reaches the handler unchanged |
| `Paths.TransportsAgree` | internal/restconfserver/server.go:235-257 | gNMI Get and SSH exec give the device's answer to every single-spaced command; so does RESTCONF GET if URL syntax leaves its words alone |
| `Paths.SpacingHidesExactHits` | internal/device/device.go:66-83 | a spacing variant of a command gets the command's answer exactly when the command abbreviates no other, else Ambiguous |
| `RunParallel.RunKeeps` | internal/stats/stats.go:211-227 | slots held, wait group, results and call order keep their invariants over every run |
| `RunParallel.EveryIndexOnce` | internal/stats/stats.go:211-227 | the set of calls in progress never has more than c members, each index is called exactly once, the result of index i is the value of call i, runs are bounded, and with one slot the calls run one after another in index order |
| `RunParallel.Progress` | internal/stats/stats.go:211-227 | no reachable state is stuck before the function returns |
| `RunParallel.EventUsesUp` | internal/stats/stats.go:211-227 | every event decreases a measure |
| `RunParallel.CompletesExactly` | internal/stats/stats.go:211-227 | every schedule runs to the end if and only if there is at least one slot or nothing to do |
| `Sweep.RunKeeps` | internal/bench/scale.go:238-341 | the invariants of openers, mutex, runners, slots and closes hold after every run |
| `Sweep.SweepIsOrderly` | internal/bench/scale.go:238-341 | no workload starts before all n opens have returned; opened + failed = n; each slot is written exactly once; each opened connection is closed exactly once, after all workloads; 0 <= ops <= n * commands |
| `Sweep.SweepReports` | internal/bench/scale.go:249-341 | told by the events of a run: slot i holds the time, or the failure, with which workload i finished; the connections are those whose open succeeded and the errors count those that failed; the reported operations are those of the workloads that did not fail |
| `Sweep.NoDeadlock` | internal/bench/scale.go:238-341 | no interleaving is stuck before the level returns |
| `Sweep.SweepReturns` | internal/bench/scale.go:238-341 | every interleaving has at most 11n + 5 events, and cannot go on if and only if the level has returned |
| `RoundTrips.TripsBounded` | internal/rtcount/rtcount.go:25-37 | each round trip has a read and a write of its own |
| `RoundTrips.Conn.Read` | internal/rtcount/rtcount.go:25-31 | used by one goroutine, a read counts itself, and a trip exactly if the operation before was a write |
| `RoundTrips.Conn.Write` | internal/rtcount/rtcount.go:33-37 | and a write counts itself and no trip |
| `RoundTrips.RunKeeps` | internal/rtcount/rtcount.go:25-37 | with any number of readers and writers between their atomic steps, the counters match the order of the direction updates |
| `RoundTrips.TripsAreExact` | internal/rtcount/rtcount.go:62-74 | in every reachable state trips plus trips owed are the write-to-read changes, trips are at most the reads and at most the writes, and all three are exact once nobody is between two steps |
| `RoundTrips.SleepMeans` | internal/latency/latency.go:53-69 | a loss costs exactly one base delay more; without jitter a delay lasts one base delay, or two if lost; noise counts in full as long as what is left of the base is not negative, and never makes a delay negative |
| `RoundTrips.DelayConn.Read` | internal/latency/latency.go:71-81 | a read sleeps exactly when the direction changed; the total covers all losses, and without jitter it is exactly one base delay for each delay charged and each loss |
| `RoundTrips.DelayConn.Write` | internal/latency/latency.go:83-93 | and so it is for a write |
| `RoundTrips.DelaysAgainstTrips` | internal/latency/latency.go:71-93 | delays charged = 2 * round trips, plus one if the first operation is a read, plus one if the last is a write |
| `Stats.Collect` | internal/stats/stats.go:80-88 | the pass over the times keeps the successful ones, in milliseconds, and counts the failed ones |
| `Stats.MeanAndDeviations` | internal/stats/stats.go:104-114 | the two passes compute the mean and the sum of squared deviations from it |
| `Stats.Summarize` | internal/stats/stats.go:76-149 | the summary is the one that the following rows speak of |
| `Stats.CountersAreMedians` | internal/stats/stats.go:120-141 | each of the six counters is a median of its own list: at most half of the list lies below it and at most half above; if neither trips nor reads were recorded, all six are 0 |
| `Stats.MedianOfEqual` | internal/stats/stats.go:152-164 | so a counter that was the same in every iteration is reported as it was |
| `Stats.SingleIteration` | internal/stats/stats.go:76-149 | the only time is the minimum, mean, maximum and both percentiles, in milliseconds with microsecond precision |
| `Stats.TwoIterations` | internal/stats/stats.go:104-118 | of two times, mean and median lie halfway, and the variance is half the square of their distance |
| `Stats.TwentyOneIterations` | internal/stats/stats.go:143-146 | of 21 samples, the 50th percentile is the 11th smallest and the 95th is the 20th |
| `Stats.AllFailed` | internal/stats/stats.go:92-99 | if every iteration failed, all are errors and every other number is 0 |
| `Stats.ErrorsAndSamples` | internal/stats/stats.go:80-88 | errors + samples used = number of times |
| `Stats.SummaryPermutes` | internal/stats/stats.go:76-149 | the order in which iterations finished does not change the summary |
| `Stats.SummaryBounds` | internal/stats/stats.go:76-149 | min <= p50 <= p95 <= max, min <= avg <= max, every sample lies between min and max, and (n - 1) * stddev^2 <= n * (max - avg) * (avg - min) |
| `Stats.MeanBounds` | internal/stats/stats.go:104-108 | the mean lies within any bounds of the samples |
| `Stats.DeviationsBounded` | internal/stats/stats.go:110-114 | the sum of squared deviations is at most n * (hi - avg) * (avg - lo) for any bounds lo and hi of the samples |
| `Stats.PercentileMonotone` | internal/stats/stats.go:195-207 | percentiles of sorted samples grow with p, from the smallest at 0 to the largest at 100 |
| `Stats.MedianIsFloor` | internal/stats/stats.go:152-164 | the integer median is the floor of the 50th percentile if and only if the two middle values do not add up to a negative odd number |
| `Stats.CounterMedianIsFloor` | internal/stats/stats.go:152-192 | for counters, which are not negative, the integer median is the floor of the 50th percentile |
| `Stats.SortSorts` | internal/stats/stats.go:101 | sorting gives a sorted permutation |
| `Stats.SortedUnique` | internal/stats/stats.go:101 | and there is only one, so any sorting algorithm gives the same summary |

## Left out

- White space outside ASCII: `strings.TrimSpace` and `strings.Fields` also treat some non-ASCII characters as space.
- Sockets, TLS, SSH, QUIC, HTTP and gRPC libraries, basic auth and certificates: a dial, a session or a read is a step that may fail.
- A read that delivers no bytes and no error, which the interfaces allow but discourage.
- Write errors on channels: a failed write ends the session or the client call early, with nothing more written.
- XML decoding and escaping: parameters of the NETCONF server. `NetconfServer.GetIsExec` takes from the decoder only that the request in question decodes to its own id and inner text.
- The text of the NETCONF hellos: a parameter; the results need only that it does not contain the delimiter and is not too long.
- HTTP routing and URL parsing: a parameter. `Tunnel.OneLineTunnel` and `Paths.TransportsAgree` take from it only that paths of tame segments arrive unchanged: segments of visible ASCII characters without `%`, `?`, `#` and `/`, other than `.` and `..`. That the body of a POST and the elements of a gNMI path arrive unchanged is taken for granted.
- Timeouts, sleeping and the clock: the shell client's timeout never fires; jitter and loss are arbitrary values and delays are counted.
- Floating-point rounding: statistics are over exact reals, and the standard deviation is stated by its square.
- Integer overflow of counters and of the sum of two middle values in a median.
- Memory: a chunk's declared size allocates that much before any data arrives, and a size beyond what can be allocated makes the code panic; the model allocates nothing.
- ReadFull: the library's function also succeeds when the last bytes asked for arrive together with the error; here it fails. `Framing.ReadChunked` fails in both cases, because its end mark can no longer arrive.
- ReadChunked: on failure it does not say which bytes were consumed; the session ends there.
- EchoShowsTheLine: the terminal takes every byte other than a backspace to print one character.
- Percentile: for a p so low that the rank is -1 or less the code panics on its index; a precondition of the specification function excludes that.
- The parallel loop with a negative concurrency or a negative number of iterations, where the code panics; and a call that panics itself.
- EveryIndexOnce: the value of a call is a function of its index; calls that share state, as the session counters of the NETCONF benchmark do, are not modelled beyond that.
- The text of transport errors in the headend: a parameter, like the HTTP library it comes from.
- The identity of proxy connections beyond a number, the requests' answers in `ProxyRuns` (they are in `Proxy`), and connections that the backend closes by itself.
- The delayed connection under concurrent use: the code guards its direction with a mutex; the model takes one operation at a time.
- PacketConn in internal/rtcount/rtcount.go has the same steps as Conn; one model serves for both.
- Loading of command files, command lists of RESTCONF and gNMI patches, subscriptions, the result labels of a summary.
- The outer loop of the sweep, its heap measurements, wall-clock rates and packet counts.
- CPU time parsing, packet capture, queueing disciplines, benchmark mode bodies, command line, tables and reports.
