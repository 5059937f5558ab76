# Verification of ivi-logging

This project models the backends of ivi-logging and proves properties of the model with Dafny 4.11. Check it
with `dafny verify dfyconfig.toml`.

What is modelled, in the order in which the modules build on each other:

- **The DLT entry** (`Payload`, `Encoder`, `LogData`). A log entry serialises typed arguments into a buffer of
  16384 bytes, of which 18 are reserved for a final "..truncated" argument. `Payload` defines the bytes of an
  argument and a strict reader of verbose payloads (AUTOSAR PRS Log and Trace Protocol, section 5.1.3), which
  accepts nothing but such bytes.
  `LogData.DltLogData` is the object that fills the buffer in place. `Encoder.Step` is its effect on the list of
  arguments, and `Encoder.Arrived` says in closed form, without following the writes one by one, what any
  sequence of writes leaves.
- **The messages** (`Messages`): application registration, context registration and log message, their bytes,
  and the daemon's decoder (standard header 5.1.1, extended header 5.1.2 of the same specification; the numbering
  differs between its releases).
- **The session with the daemon** (`Session`, `Daemon`, `ControlInput`, `ControlStream`). `Daemon.DaemonConnection` is
  the object that registers contexts, reconnects after failed writes and frames log entries; `Session` is the protocol
  it is proved against, with every open and write free to fail; `ControlInput` is what the application makes of one
  buffer of level messages, and `ControlStream` what it makes of their stream, cut into reads anywhere.
- **Whole runs** (`Machine`, `Applications`, `Programs`). `Machine` interleaves registrations, level messages,
  creation of, writes to and completion of any number of entries, and states what a daemon can rely on in every
  reachable state. `Applications` gives the mutable objects one operation for each of these steps, and
  `Programs.Run` drives the objects through any sequence of operations and shows that they follow Machine's run.
- **The console** (`ByteArrays`, `ConsoleLayout`, `ConsoleStyle`, `StreamLog`): the 512-byte small-buffer vector,
  formatting with its temporary NUL, colours, padding, and what a terminal shows of the result, in which style.
- **The locked flush** (`LockedFlush`): threads that flush under one mutex, interleaved at every byte.
- **The fan-out** (`FanOut`, `DefaultBackends`, `Statements`, `LogRuns`): one entry or query over several backends;
  and a context with the DLT backend and the console side by side, made of the objects above, with its complete log
  statement. `LogRuns.LogAll` makes any sequence of log statements on several such contexts, with buffers from the
  daemon in between.
- **Text tools** (`HexDump`, `StackTrace`): the hex dump, the split of stack-trace lines, the short file name.

Where a plausible statement is false of the code, the project proves when it holds:

- The truncation marker is *not* written whenever something is lost. A formatted text that would end exactly at
  the content limit loses its last character silently; `Encoder.MarkedIffLost` shows this is the only case, and
  `Encoder.QuietLossExample` exhibits it.
- The two string encoders agree only in the cases of `Encoder.StringEncodersAgree`: an empty string, or one
  that just fits, is treated differently by the two.
- The number of arguments is announced modulo 256: `Payload.AnnouncedCountSuffices` says when that is enough, and
  `Encoder.AnnouncedCountExample` has an entry of 256 arguments that announces none.
- A log message carries its context's ids only if the context was registered: `Session.OwnIdsIffRegistered`, with
  `Session.UnregisteredExample`. The logging macros query `isEnabled` first, which registers.
- A level message that a read cuts in two is lost if at most its header arrived. Otherwise its position is made
  of received and stale bytes: the level goes to that position if it lies in the buffer and is not negative, and
  if not the source reads past its buffer or uses a negative index. `ControlInput.TornLevelMessage` gives the exact
  condition and `ControlInput.TornExamples` an input for each case. The model stops where the behaviour becomes
  undefined and reports it.
- The level messages of the daemon's stream are not all applied however it is read: a read that starts inside a message
  takes the rest of it for a header, and drops what follows. `ControlStream.StreamHeard` says exactly when the
  changes applied are those of the stream: every read that begins on a message keeps the level messages that begin in
  it, and no level message begins in any other read. It presupposes that such a rest is not mistaken for a known
  message; in the daemon's messages it is mistaken only after 4, 5 or 6 bytes of some level messages
  (`ControlStream.MistakenIff`, with `ControlStream.MistakenExample`).
- The suffix of a console line is aligned, and a terminal shows exactly the pieces of the line, only if prefix, body
  and suffix bring no escape character of their own: the count of invisible characters knows only the colours that
  the console writes itself. `ConsoleLayout.LineStartVisible`, `WholeLineVisible` and `Layout` are equivalences, and
  `ConsoleLayout.MisalignedExample` has a body with a colour.
- The message counters that a daemon sees of a context are not consecutive: entries that the level disables take one
  too, among them those for the console alone. `Machine.CountersFollow` says when two entries leave no gap, and
  `Machine.CounterGapExample` has one; `DefaultBackends.LogContext.Log` covers the console.
- A flush prints a line whole if and only if no piece of it holds a NUL: `StreamLog.ConsoleLogData.Live`.
- A new context is not always registered once: if the connection holds, its registration is delivered twice exactly
  if it opened the connection (`Session.RegistrationsSent`, with `Session.RegisteredTwiceExample`). In every reachable
  connected state, at most one context was registered twice and all others once: `Machine.ReachOnce`. The daemon's
  table is the same either way, by `Session.RegisterKeeps`.

Assumptions, beyond the preconditions written in the code:

- `registerContext`, `sendLog`, `applyLogLevel`, creation of an entry and each write to it are atomic steps. The
  source holds a lock in the first and third only.
- The host is little-endian; a write to the daemon is delivered whole or not at all; writing to a closed
  descriptor fails.
- Ids are given by their first four bytes, which are readable. The application's description with its process id is
  shorter than 1024 bytes, and there are fewer than 2^31 contexts.
- `snprintf` returns a non-negative length; what it renders is an input. Its size limit follows section
  7.21.6.5 of ISO/IEC 9899:2011.
- A `std::vector` that shrinks keeps its storage.
- The constants of the DLT protocol are those of the dlt-daemon headers, which are not part of the repository.

## Model

| member | source | states |
|---|---|---|
| `Bytes.CStringWhole` | src/ivi-logging.cpp:194-201 | what `%s` prints of a text followed by a NUL is the text if and only if it contains no NUL |
| `Payload.DecodeAllInverts` | include/ivi-logging-dltcpp.h:236-303 | for every list of arguments a reader recovers the list, with type, width, sign and hex flag |
| `Payload.DecodeArgInverts` | include/ivi-logging-dltcpp.h:236-303 | one argument is recovered, and what follows it is left untouched |
| `Payload.DecodeArgExact` | include/ivi-logging-dltcpp.h:236-303 | the reader takes no other bytes for an argument: what it reads is well formed and encodes to exactly the bytes it consumed, with no bit of the type info left free |
| `Payload.DecodeAllExact` | include/ivi-logging-dltcpp.h:236-303 | a payload that can be read is the encoding of what is read |
| `Payload.DecodeCountInverts` | src/ivi-logging-dltcpp.cpp:335-341 | reading any announced number of arguments yields exactly that prefix |
| `Payload.AnnouncedCountSuffices` | include/ivi-logging-dltcpp.h:317 | the 8-bit argument count announces the whole payload if and only if there are fewer than 256 arguments |
| `Encoder.AnnouncedCountExample` | include/ivi-logging-dltcpp.h:317 | 256 booleans fit into an entry, which then announces no arguments |
| `Payload.EncodeAllInjective` | include/ivi-logging-dltcpp.h:292-303 | different argument lists have different bytes |
| `Bytes.TwosComplement` | include/ivi-logging-dltcpp.h:264-290 | a signed value is stored as its value modulo the number of values of its width |
| `Bytes.LeAt` | include/ivi-logging-dltcpp.h:292-303 | numbers of the payload and of the user messages are little-endian |
| `Bytes.BeAt` | src/ivi-logging-dltcpp.cpp:331-339 | numbers converted with htonl and htons are big-endian |
| `Encoder.RunValid` | include/ivi-logging-dltcpp.h:135-226 | after any writes: content at most 16366 while not full, at most 16384 when full, all lengths in range, the marker last when full |
| `Encoder.RunSizes` | include/ivi-logging-dltcpp.h:143-151 | the same with the numbers written out: 16384 bytes with the marker "..truncated", 16366 without |
| `Encoder.RunFromFits` | include/ivi-logging-dltcpp.h:153-226 | as long as fewer than 16366 bytes are used, everything but empty strings of given length is stored as it was written |
| `Encoder.StepValid` | include/ivi-logging-dltcpp.h:153-226 | one write keeps these bounds, and a full entry never changes again |
| `Encoder.RunArrived` | include/ivi-logging-dltcpp.h:167-226 | what any sequence of writes leaves: everything if it fits, else the longest fitting prefix, one shortened string of a stated length, and the marker |
| `Encoder.CompleteIffFits` | include/ivi-logging-dltcpp.h:153-226 | everything is stored unmarked if and only if the encoded total is below the limit, or equal to it with a plain string last |
| `Encoder.MarkedIffLost` | include/ivi-logging-dltcpp.h:185-196 | the entry is marked truncated if and only if something did not fit, except for a rendered text ending exactly at the limit |
| `Encoder.QuietLossExample` | include/ivi-logging-dltcpp.h:186-190 | a rendered text of exactly the available space loses one character without a marker |
| `Encoder.ReadBack` | include/ivi-logging-dltcpp.h:135-303 | the stored bytes decode to the stored arguments, and those are what `RunArrived` describes |
| `Encoder.StringEncodersAgree` | include/ivi-logging-dltcpp.h:167-226 | the two string encoders leave the same bytes and full flag exactly when full, or without room for a non-empty text, or with the text strictly shorter than the room |
| `Encoder.RunFromRunFrom` | src/ivi-logging-dltcpp.cpp:220-241 | writes made later, such as those of the destructor, continue the run of the entry |
| `LogData.DltContext.MessageCounter` | include/ivi-logging-dltcpp.h:53-55 | fetch-and-add modulo 256 |
| `LogData.DltLogData.constructor` | src/ivi-logging-dltcpp.cpp:490-501 | a new entry is empty and takes a message counter even if disabled; its level is the place of the statement's in the list None, Fatal, Error, Warning, Info, Debug, Verbose, and it is enabled if that is within the context's level; All and Invalid give -1 |
| `LogData.DltLogData.AvailableSpace` | include/ivi-logging-dltcpp.h:135-141 | the room left; while the entry is not full the content is within its limit, so the subtraction never wraps |
| `LogData.DltLogData.AddMessageTooLargeIndication` | src/ivi-logging-dltcpp.cpp:207-218 | the marker is appended once, inside the buffer |
| `LogData.DltLogData.CheckOverflow` | include/ivi-logging-dltcpp.h:153-158 | a write that would leave no byte free closes the entry |
| `LogData.DltLogData.WriteBuffer` | include/ivi-logging-dltcpp.h:203-208 | bytes are appended in place; a full entry takes a write of any size and stays as it is |
| `LogData.DltLogData.Snprintf` | include/ivi-logging-dltcpp.h:182-186 | the size-limited copy with its NUL, and the full length as result |
| `LogData.DltLogData.WriteFormatted` | include/ivi-logging-dltcpp.h:167-197 | the buffer holds the encoding of the arguments after the write of a rendered text, with its length filled in afterwards |
| `LogData.DltLogData.WriteString` | include/ivi-logging-dltcpp.h:210-226 | the same for a string of given length |
| `LogData.DltLogData.WriteWithTypeInfo` | include/ivi-logging-dltcpp.h:292-303 | the same for a scalar |
| `LogData.DltLogData.WriteUnsigned` | include/ivi-logging-dltcpp.h:260-286 | unsigned integers carry the hex flag of the entry |
| `LogData.DltLogData.WriteSigned` | include/ivi-logging-dltcpp.h:264-290 | signed integers are stored in two's complement, without the hex flag |
| `LogData.DltLogData.WriteBool` | include/ivi-logging-dltcpp.h:236-238 | booleans are one byte without a length code |
| `LogData.DltLogData.WriteFloat` | include/ivi-logging-dltcpp.h:240-258 | floats are copied as 4 or 8 bytes |
| `LogData.DltLogData.WriteTrailer` | src/ivi-logging-dltcpp.cpp:222-237 | source and thread information are ordinary writes; if they fit, exactly the arguments of `TrailerSays` are added |
| `LogData.TrailerSays` | src/ivi-logging-dltcpp.cpp:222-237 | a trailer holds 52 spaces and a bar, then file name, line and function in this order, each if it is known and not empty; and "ThreadID", the id and the name |
| `Messages.DecodeStreamInverts` | src/ivi-logging-dltcpp.cpp:265-357 | the bytes of any sequence of messages decode to that sequence: they delimit themselves |
| `Messages.DecodeInverts` | src/ivi-logging-dltcpp.cpp:265-357 | one message is recovered with all its fields, whatever follows |
| `Messages.LogLayout` | src/ivi-logging-dltcpp.cpp:321-343 | the byte at every place of a log message: type, flags, counter, length, "ECU1", session, time, level, argument count, ids and payload |
| `Messages.RegisterAppLayout` | src/ivi-logging-dltcpp.cpp:302-308 | the same for the registration of the application |
| `Messages.RegisterContextLayout` | src/ivi-logging-dltcpp.cpp:265-282 | the same for the registration of a context |
| `Messages.LengthField` | src/ivi-logging-dltcpp.cpp:337-339 | the 16-bit length field equals the number of bytes after the user header if and only if 16 bits can hold that number |
| `Machine.FrameLengthField` | src/ivi-logging-dltcpp.cpp:337-339 | which they can, whatever was written to an entry |
| `ControlInput.ParseInverts` | src/ivi-logging-dltcpp.cpp:372-400 | a buffer of whole control messages applies exactly their level changes, in order, and is read to its end |
| `ControlInput.ParseStopsAtUnknown` | src/ivi-logging-dltcpp.cpp:396-398 | a message of unknown type ends the reading; exactly the changes before it are applied |
| `ControlInput.ControlLayout` | src/ivi-logging-dltcpp.cpp:21-33 | the byte at every place of a control message |
| `ControlInput.TornLevelMessage` | src/ivi-logging-dltcpp.cpp:378-394 | what a level message cut by the read does in that read, for all stale bytes: nothing if at most its header arrived; else its level goes to the position made of received and stale bytes, and the behaviour is undefined if and only if that is negative or past the buffer |
| `ControlInput.TornExamples` | src/ivi-logging-dltcpp.cpp:284-291 | stale bytes that give a negative index, a read past the buffer, and a change of a context the daemon did not address |
| `ControlStream.StreamHeard` | src/ivi-logging-dltcpp.cpp:370-400 | for every stream of control messages and every way to cut it into reads: never more changes are applied than it holds, and they are exactly its changes if and only if every read keeps the level messages that begin in it |
| `ControlStream.ReadStep` | src/ivi-logging-dltcpp.cpp:370-400 | one such read, which may start and end anywhere |
| `ControlStream.CutBetween` | src/ivi-logging-dltcpp.cpp:370-400 | if every read ends between messages, exactly the changes of the stream are applied, whatever the messages and the stale bytes |
| `ControlStream.MistakenIff` | src/ivi-logging-dltcpp.cpp:378-398 | a read that starts inside one of the daemon's messages is taken for a known message if and only if its next fields spell a type: the level, the trace status or the position of a level message |
| `ControlStream.MistakenExample` | src/ivi-logging-dltcpp.cpp:378-398 | a message for position 6 that is cut after six bytes makes the next read apply a level nobody sent |
| `Session.SendRegistrationsKeeps` | src/ivi-logging-dltcpp.cpp:310-314 | registering all contexts again, with failures at any point, ends either disconnected or with the full table registered |
| `Session.InitKeeps` | src/ivi-logging-dltcpp.cpp:293-319 | connecting keeps the session invariant: connected means the session's registrations fold to the application's table and all headers are filled |
| `Session.OpenedSession` | src/ivi-logging-dltcpp.cpp:293-319 | if a connection is opened and holds, its session is the application's registration and then those of all contexts, in the order of their places and with all their fields |
| `Session.RegisterKeeps` | src/ivi-logging-dltcpp.cpp:243-256 | so does registering a context, whose id, description, level and counter are those it came with |
| `Session.SendLogKeeps` | src/ivi-logging-dltcpp.cpp:321-343 | so does sending a log, which always follows its context's registration in the session |
| `Session.ApplyLogLevelKeeps` | src/ivi-logging-dltcpp.cpp:284-291 | so does applying a level |
| `Session.RegistrationsSent` | src/ivi-logging-dltcpp.cpp:243-256 | the registration of a new context is delivered once if the connection was open before, and twice if it opens it, which registers all others once |
| `Session.RegisteredTwiceExample` | src/ivi-logging-dltcpp.cpp:243-256 | the first context of a first connection is registered twice |
| `Session.OwnIdsIffRegistered` | src/ivi-logging-dltcpp.cpp:275-279 | a delivered log carries the ids of its own context if and only if the context was registered |
| `Session.UnregisteredExample` | src/ivi-logging-dltcpp.cpp:321-343 | an entry of a context that was never registered opens the connection and goes out with blank ids |
| `Daemon.DaemonConnection.Send` | src/ivi-logging-dltcpp.cpp:345-357 | the buffers are written as one message, or the connection is closed |
| `Daemon.DaemonConnection.SendContextRegistration` | src/ivi-logging-dltcpp.cpp:265-282 | the header is filled and the registration's bytes are sent |
| `Daemon.DaemonConnection.InitDaemonConnection` | src/ivi-logging-dltcpp.cpp:293-319 | reconnection follows the protocol, whatever fails |
| `Daemon.DaemonConnection.RegisterContext` | src/ivi-logging-dltcpp.cpp:243-256 | the context gets the next position, for good |
| `Daemon.DaemonConnection.ApplyLogLevel` | src/ivi-logging-dltcpp.cpp:284-291 | only the addressed context changes, a position past the table changes none, and a negative one, which the source would use as an index, is reported |
| `Daemon.DaemonConnection.HandleIncomingMessage` | src/ivi-logging-dltcpp.cpp:359-404 | for every buffer, the cursor loop applies what `ControlInput.Parse` reads and terminates; it fails exactly where the behaviour becomes undefined |
| `Daemon.DaemonConnection.SendLog` | src/ivi-logging-dltcpp.cpp:321-343 | the entry is framed with its counter, level, argument count and payload, and its context's header |
| `Daemon.DaemonConnection.Finish` | src/ivi-logging-dltcpp.cpp:220-241 | an enabled entry gets its trailer, argument by argument if it fits, and is sent with a payload that decodes to all its arguments; a disabled one does nothing |
| `Machine.ReachInv` | src/ivi-logging-dltcpp.cpp:243-357 | in every reachable state the session invariant holds and positions are those of the registrations |
| `Machine.ReachOnce` | src/ivi-logging-dltcpp.cpp:243-319 | in every reachable connected state the session registered every context once, except at most one twice |
| `Machine.ReachRegistrations` | src/ivi-logging-dltcpp.cpp:265-308 | in every reachable state, every registration ever delivered names the application and its process, and for a context the id and description it was registered with, and no levels |
| `Machine.ReachLevels` | src/ivi-logging-dltcpp.cpp:284-291 | a context's level is that of the last message addressed to it since it was registered; reconnects do not change it |
| `Machine.ReachEntries` | src/ivi-logging-dltcpp.cpp:490-501 | every entry was enabled by the level in force when it was created, and its counter is the number of earlier entries of its context modulo 256 |
| `Machine.EnabledByPlace` | include/ivi-logging-dltcpp.h:48-85 | an entry is enabled if and only if the place of its level in the list None, Fatal, Error, Warning, Info, Debug, Verbose is within the level in force; All and Invalid always are |
| `Machine.LastLevelNotNegative` | include/ivi-logging-dltcpp.h:103 | until a level message arrives the level in force is 6 |
| `Machine.ReachWrites` | include/ivi-logging.h:255-275 | an enabled entry holds exactly what the events wrote to it between its creation and its end, trailer included, and its end is the first event that finishes it |
| `Machine.CountersRepeatAfter256` | include/ivi-logging-dltcpp.h:53-55 | for every interleaving, two entries of a context share a counter if and only if a positive multiple of 256 creations separates them |
| `Machine.CountersFollow` | include/ivi-logging-dltcpp.h:53-55 | the counters of two entries of a context are consecutive if and only if the number of its entries created from the first up to the second is 1 modulo 256 |
| `Machine.CounterGapExample` | src/ivi-logging-dltcpp.cpp:490-501 | a disabled entry between two enabled ones leaves a gap in the counters |
| `Machine.ReachDelivered` | src/ivi-logging-dltcpp.cpp:321-357 | the log messages of all connections together are the frames of finished enabled entries, in the order of the events that finished them and without repetition |
| `Machine.EveryConnectionDecodes` | src/ivi-logging-dltcpp.cpp:265-357 | for every run, each connection's bytes decode to its messages, the application's registration first and no log before its context; while connected the table is complete |
| `Machine.EveryLogIsGenuine` | src/ivi-logging-dltcpp.cpp:321-343 | the delivered logs come in the order in which their entries ended; each names its application and context, carries its level in the message type info as the place of the statement's level in the list of levels, was within the level in force at its creation, carries its counter and the time of its end, and decodes to what the writes made to it leave |
| `Machine.ReachLevelMessages` | src/ivi-logging-dltcpp.cpp:378-394 | the level messages of a buffer are level events of the run, in order |
| `Machine.FinishedIsGenuine` | src/ivi-logging-dltcpp.cpp:321-343 | the frame of a finished entry is such a log |
| `Machine.ReliableDeliversAll` | src/ivi-logging-dltcpp.cpp:293-357 | if no open or write fails, exactly the finished enabled entries are delivered |
| `Applications.Application.Register` | src/ivi-logging-dltcpp.cpp:485-488 | registration of an object is the registration event of the run; earlier contexts keep their places and entries their state |
| `Applications.Application.ReceiveLevel` | src/ivi-logging-dltcpp.cpp:284-291 | a level message to the objects is the level event of the run |
| `Applications.Application.ReceiveBuffer` | src/ivi-logging-dltcpp.cpp:359-404 | a buffer of any content is the level events in it, up to where the behaviour becomes undefined |
| `Applications.Application.Create` | src/ivi-logging-dltcpp.cpp:490-501 | so is the creation of an entry object |
| `Applications.Application.Write` | include/ivi-logging.h:255-266 | so is a write to it |
| `Applications.Application.Finish` | src/ivi-logging-dltcpp.cpp:220-241 | so is its end |
| `Applications.DeliveredTrailer` | src/ivi-logging-dltcpp.cpp:220-241 | a delivered log whose writes and trailer fit decodes to the written arguments followed by exactly separator, file name, line, function, "ThreadID", id and name, as far as they are switched on and known |
| `Applications.Application.WireIsDecodable` | src/ivi-logging-dltcpp.cpp:345-357 | after any operations, the bytes the connection object wrote decode to a well-ordered session, and all delivered logs are genuine |
| `Programs.Run` | src/ivi-logging-dltcpp.cpp:243-404 | for every sequence of registrations, buffers from the daemon, creations, writes and ends, with any number of entries alive at once, the objects perform exactly the corresponding events, all of them or up to the first undefined buffer, and what they wrote decodes to genuine messages |
| `Programs.Program.Do` | src/ivi-logging-dltcpp.cpp:243-404 | one such operation, whatever objects are alive: its events, the context or entry it makes, writes to or ends, and that it leaves the others alone |
| `Programs.EndEntrySays` | src/ivi-logging-dltcpp.cpp:220-241 | the end of an entry is one event with the trailer its information gives |
| `Programs.StreamReachesProgram` | src/ivi-logging-dltcpp.cpp:370-400 | a program whose reads keep the messages of the daemon's stream performs exactly the level events of that stream |
| `ByteArrays.ByteArray.Resize` | include/ivi-logging-utils.h:59-73 | size and retained prefix agree, also across the switch to dynamic storage, which is never undone; shrinking leaves the bytes |
| `ByteArrays.ByteArray.Append` | include/ivi-logging-utils.h:80-84 | appending is concatenation |
| `ByteArrays.ByteArray.AppendByte` | include/ivi-logging-utils.h:86-90 | the same for one byte |
| `ByteArrays.ByteArray.Assign` | include/ivi-logging-utils.h:27-31 | assignment copies the contents, also to itself, and keeps dynamic storage |
| `ByteArrays.ByteArray.Copy` | include/ivi-logging-utils.h:22-25 | a copy has the same contents in storage of its own |
| `ByteArrays.Replay` | include/ivi-logging-utils.h:22-90 | for every run of operations, copies and self-assignments included, the contents follow those on a plain byte sequence, and the static buffer is used if and only if no content since the last copy exceeded 512 bytes |
| `StreamLog.FormatInto` | include/ivi-logging-console.h:228-243 | the text is appended, a NUL stays just past the end, and the NUL counts for the switch at 512 |
| `StreamLog.ConsoleLogData.WriteAll` | include/ivi-logging-console.h:212-243 | any sequence of formatted writes leaves the concatenation of the texts, followed by a NUL |
| `StreamLog.ConsoleLogData.Init` | include/ivi-logging-console.h:140-154 | an enabled entry starts with its prefix, all escapes counted; a terminal shows it magenta for warnings, red and bright for errors and fatals, green for verbose and plain otherwise, and is plain after it |
| `StreamLog.ConsoleLogData.WritePadding` | include/ivi-logging-console.h:369-385 | what is written between line and suffix |
| `StreamLog.ConsoleLogData.WriteSuffix` | include/ivi-logging-console.h:361-390 | padding and suffix follow the line |
| `StreamLog.ConsoleLogData.FlushLog` | include/ivi-logging-console.h:121-130 | exactly one NUL is added and the text before the first NUL is printed, once |
| `StreamLog.ConsoleLogData.Live` | include/ivi-logging-console.h:337-349 | the life of an entry appends to its file what `%s` prints of its line, which is the whole line if and only if no piece holds a NUL; a disabled entry appends nothing |
| `StreamLog.EntryLineIsWhole` | include/ivi-logging-console.h:361-390 | the line built step by step is the whole line if and only if the suffix holds no NUL, and is printed whole if and only if no piece does |
| `StreamLog.ConsoleLogContext.EnabledByPlace` | include/ivi-logging-console.h:77-79 | the console admits a level if and only if it stands no later in the list of levels than the context's own and the global level |
| `ConsoleLayout.RemainingExact` | include/ivi-logging-console.h:369-375 | the mixed 64-bit unsigned and 32-bit signed width computation is exact if and only if the integer result fits an int |
| `ConsoleLayout.LineStartVisible` | include/ivi-logging-console.h:392-429 | the count of invisible characters never exceeds what a terminal hides of the line when padding is computed, and equals it if and only if prefix and body hold no escape character |
| `ConsoleLayout.WholeLineVisible` | include/ivi-logging-console.h:355-390 | a terminal shows prefix, body, padding and suffix, without any colour escape, if and only if these hold no escape character; otherwise it shows less |
| `ConsoleLayout.Layout` | include/ivi-logging-console.h:361-390 | if it fits, the visible line is at most as long as the chosen width, and exactly so if and only if the pieces hold no escape character; otherwise the suffix starts a line as long as the console width or itself |
| `ConsoleLayout.MisalignedExample` | include/ivi-logging-console.h:369-385 | a body with a red letter on an 80 column console makes a line of 75 |
| `ConsoleStyle.LineDisplayed` | include/ivi-logging-console.h:392-429 | on a plain terminal a coloured line without escapes of its own shows prefix, padding and suffix in the style of its level and the body plainly, and leaves the terminal plain |
| `ConsoleStyle.LineWithoutColors` | include/ivi-logging-console.h:392-429 | without colours the line is shown as it is, in the style the terminal has |
| `ConsoleStyle.DisplayedIsShown` | include/ivi-logging-console.h:12-24 | the characters shown are those that remain when escape sequences are left out |
| `LockedFlush.FilesHoldWholeEntries` | src/ivi-logging.cpp:194-201 | for every interleaving each file is a concatenation of whole entries and at most a beginning of the mutex owner's, with each thread's entries in its order |
| `LockedFlush.FreeMutexMeansWhole` | src/ivi-logging.cpp:194-201 | whenever the mutex is free, files hold whole entries only |
| `LockedFlush.SomeoneCanAct` | src/ivi-logging.cpp:194-201 | no schedule gets stuck before all entries are flushed |
| `LockedFlush.AllWorkFlushesAll` | src/ivi-logging.cpp:194-201 | the number of actions that can happen is fixed by the entries, and exactly the schedules in which that many happen flush them all, leaving the mutex free and all files whole |
| `FanOut.LogEntry.Write` | include/ivi-logging.h:255-275 | each enabled backend takes the write, a disabled one is untouched |
| `FanOut.LogEntry.WriteAll` | include/ivi-logging.h:255-275 | after any writes every backend is in the state it would reach alone |
| `FanOut.LogContext.CheckContext` | include/ivi-logging.h:343-351 | every backend is registered once |
| `FanOut.LogContext.IsEnabled` | include/ivi-logging.h:334-341 | the answer is yes if and only if some backend admits the level: DLT by its mapped level, a stream by its own and the global level |
| `FanOut.AdmitsByPlace` | include/ivi-logging-dltcpp.h:48-85 | what a DLT and a stream backend admit, by the places of the levels in the list of levels |
| `FanOut.LogContext.QueryAll` | include/ivi-logging.h:334-351 | however often a context is queried, every backend is registered exactly once |
| `DefaultBackends.LogEntry.Write` | include/ivi-logging.h:255-266 | an entry with a DLT and a console backend: each takes the write if it is enabled |
| `DefaultBackends.LogEntry.WriteAll` | include/ivi-logging.h:255-275 | after any writes the DLT buffer is in its own run of the encoder and the console holds the concatenation of its texts |
| `DefaultBackends.LogContext.CheckContext` | include/ivi-logging.h:343-351 | the context is registered with the connection unless it already is, so the connection never has it twice |
| `DefaultBackends.LogContext.IsEnabled` | include/ivi-logging.h:334-341 | a query registers first, then says yes if and only if the place of the level is within the level in force for DLT, or within both levels of the console |
| `DefaultBackends.LogContext.QueryAll` | include/ivi-logging.h:334-351 | however often it is queried, the connection has the context once |
| `DefaultBackends.LogContext.CreateLog` | include/ivi-logging.h:330-332 | a new entry takes a message counter and its backends' enablement at that time, and starts with the coloured prefix |
| `DefaultBackends.LogContext.Log` | include/ivi-logging.h:58-60 | a whole log statement: what it leaves with the connection, sent, only counted or untouched, and the line it appends to the console's file if and only if the place of its level is within both levels of the console |
| `DefaultBackends.LogContext.LoggedIsRun` | include/ivi-logging.h:58-60 | to the connection, a log statement is a registration if needed and one entry of a run of `Machine`, whose results therefore hold after it |
| `LogRuns.SayOn` | include/ivi-logging.h:58-60 | one log statement among several contexts: its exact events and its line, and nothing changes for the other contexts |
| `LogRuns.HearOn` | src/ivi-logging-dltcpp.cpp:359-404 | one buffer from the daemon among them: the level events in it, up to where the behaviour becomes undefined |
| `LogRuns.LogAll` | include/ivi-logging.h:58-60 | for every sequence of log statements on any contexts of one connection, with buffers from the daemon in between, the connection follows the run of their events: a context is registered by its first use, a statement is enabled by the level in force at that time or by the console, and the file gets the lines in order |
| `Statements.RegisterIsRun` | src/ivi-logging-dltcpp.cpp:243-256 | the first use of a context is the registration event; the context starts at level verbose with counter 0 |
| `Statements.EndingSays` | src/ivi-logging-dltcpp.cpp:220-241 | the trailer of a statement holds its own source and thread information |
| `Statements.StatementIsRun` | src/ivi-logging-dltcpp.cpp:220-241 | create, write and finish events in a row do to any reachable state what a log statement does |
| `HexDump.ByteArrayToString` | src/ivi-logging.cpp:65-85 | a hex reader finds exactly the first 341 bytes at most in the text, and nothing is written past index 1023 |
| `HexDump.DumpAt` | src/ivi-logging.cpp:76-80 | two upper-case digits, the upper half first, and a space for each byte |
| `HexDump.UndumpInverts` | src/ivi-logging.cpp:76-80 | a hex reader undoes the dump |
| `HexDump.SameDumpIffSameStart` | src/ivi-logging.cpp:71-72 | two dumps are equal if and only if the first 341 bytes are |
| `StackTrace.Scan` | src/backtrace.cpp:38-51 | the end is the first ')' after some '+', the offset the last '+' and the name the last '(' before it |
| `StackTrace.SplitLine` | src/backtrace.cpp:42-57 | a line is split if and only if it has such delimiters in order, at those; otherwise it is left as it is |
| `StackTrace.SplitIsLossless` | src/backtrace.cpp:53-57 | rejoining the pieces gives the line back, and no piece contains the delimiter that ends it |
| `StackTrace.DelimitersUnique` | src/backtrace.cpp:38-53 | a line has at most one choice of delimiters |
| `StackTrace.LogInfo.GetFileName` | src/ivi-logging.cpp:184-192 | the short name starts after the last slash, or is everything, and is computed once |
| `StackTrace.ShortNameInDirectory` | src/ivi-logging.cpp:184-192 | the short name of a directory, a slash and a name is exactly the name |

## Left out

- The DLT backend on top of the DLT library (`include/ivi-logging-dlt.h`): a thin wrapper over code that is not part of this model.
- Creation of the FIFOs, polling, signals, the reader thread and the destructor of the connection: only the outcomes of opening and writing are kept, as inputs.
- Clocks, the console width, environment variables, `/proc` and thread names: their results are inputs.
- Rendering by `snprintf` and printing of C++ names in stack traces: rendered texts are inputs, and the output line of a stack trace is not composed.
- Floating-point meaning: floats are opaque bytes.
- Evaluation order of `write(a, b, ...)` with several arguments: one argument per call.
- `StreamLogData::writeSuffix`, which passes the suffix as a format: the console's own version is modelled.
- The file and null backends, printing of standard containers, macros and overload selection: easy members or compile-time plumbing.
- Two threads that register the same context at the same time: `m_bRegistered` is not atomic in the source, and a context is assumed to be registered once.
- Levels that change while a console entry is being written: `enabled` is fixed for an entry's life, as it is for DLT entries.
- What happens after undefined behaviour: a run ends where a buffer from the daemon makes it undefined.
- The abort that follows a fatal log.
- LockedFlush.FilesHoldWholeEntries: the thread's private building of an entry is not interleaved, because it touches no shared state.
- HexDump.ByteArrayToString: the buffer is shared between threads in the source; here one call runs at a time.
