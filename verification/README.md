# Verified model of the signalling server, its client and their log

This project models, in Dafny, the parts of the repository that carry state:

- **The rolling CSV log** (`RollingFileAppender`, `Util.h` file names and files, `CsvFormatter`).
  A directory is a map from names to contents; a descriptor has a name and a position. The appender
  is a class; a run of it is a list of writes, restarts and limit changes. `RollingRuns.Cuts` is a
  reference that looks only at sizes and says which lines end up in which file; whole runs from any
  directory are proved to leave exactly the files it says. `CsvDecode` is an independent decoder for
  the quoting rules of section 2 of RFC 4180 with `;` as separator, and `CsvRecords` reads the records
  back from the decoded cells.
- **The call relay** (`client_handler`, the client's listener, `UserStore`). Buffers are arrays, parsed
  by the calls the code makes (`sscanf`, `strncpy`, `strncmp`). The protocol is a state machine with
  one server thread per connection and one push channel per client; a CALL is a sequence of separate
  steps, and every interleaving is a list of steps. The parameter `strict` says whether an INVITE,
  sent from a buffer of two frames, arrives as two messages (as full 1024-byte reads see it, which
  `Frames.InviteIsTwoFrames` proves, and `RelayBytes` for whole runs) or as one. Safety and termination are proved for both.
- **The saved map** (`ThreadSafeMap`), with its line-by-line file format.
- **The callback cell** that replays the last missed call, and the two-pass **gather** of `sendBuffer`.

## How the files fit together

| file | holds |
|---|---|
| `Text`, `Totals`, `Streams` | strings and numerals, sums over sequences, `std::getline` |
| `FileNames`, `Files`, `RollingLog` | names, directory and descriptor, the appender and its step relation |
| `RollingRuns` | whole runs: the reference, retention, sizes |
| `Csv`, `CsvDecode`, `CsvRecords`, `CsvFamily` | the formatter, the decoder, a reader of records, and all together with the rolling log |
| `Accounts` | `UserStore` and its meaning as a summary of its history |
| `Wire`, `Buffers`, `Frames` | message texts, the C calls on buffers, framing and end-to-end fidelity |
| `Server`, `Client` | the handlers from received bytes to effects |
| `HandlerSteps` | the handler's effects are the steps of the relay model |
| `Relay`, `RelaySafety`, `RelayRuns` | the state machine, its invariant, conservation and history |
| `RelaySteps`, `RelayCalls`, `RelayEnds` | each step of a call, look-ups against log-outs, termination |
| `RelayAnswers`, `RelayHears`, `CrossedCalls` | who is answered, who hears the answer, and who does not |
| `RelayBytes` | the push channels byte by byte, refined to messages |
| `ThreadSafeMap`, `Persistence` | the map and its file, and what survives writing and reading |
| `StoredCallback`, `Gather` | the callback cell, the gather copy |

## What the proofs found

- The size limit of the log holds within one session only. The first write after opening never rolls,
  so a program that logs one line each time it is started never rolls (`RestartsDefeatTheLimit`);
  `OvergrowsIff` says exactly which writes exceed the limit.
- `rollLogFiles` called directly with a file limit of zero or less acts as if the limit were one: the
  live file is deleted (`RollLogFiles`, with `Slots`).
- The INVITE names the account that was called, not the caller, so the label the callee prints is its
  own name (`CallEndToEnd`).
- Because the INVITE is sent from a buffer of two frames, the client reads an empty message after it
  and its listener stops: a client answers one call while it runs, the first whose INVITE was sent
  before any EXIT, and there is no answer for any other caller (`TwoFramesOneAnswer`,
  `AnswersExactly`).
- For the same reason a client that was sent an INVITE hears no answer to its own calls that is passed
  on after it (`InvitedHearsNoMore`). Two clients that call each other both answer, the server passes
  both answers on, and neither hears the other (`CrossedCallsAreNotHeard`); `HeardExactly` says which
  answers are heard.
- LOGOUT ignores the name in its message and acts on the last name its connection tried
  (`LogOutIgnoresItsName`); on a name without an account it creates one (`ReplayMeans`).
- The replies to SIGNUP and LOGIN say success whatever happened (`Perform`), and a LOGIN that fails
  still changes the name that a later LOGOUT acts on (`NameAfter`, `TableIsHistory`).
- The branch for a callee that is logged in but unknown can never be taken (`LookUpsSucceed`).
- A call can invite a callee who is not logged in any more. `CallOutlivesLogOut` is a schedule in which
  it does; `InvitedLoggedOutIff` says that it does exactly when, since the CALL, a SIGNUP or LOGOUT
  touched the callee and no LOGIN with its password came after the last of them.
- A map with an empty value, or with a delimiter in a key, does not come back from its own file;
  `RestoredIff` is the exact condition.
- The stored callback variant inherits hidden assignments: assigning to it goes through the assignment
  the language generates, which also copies the stored call. Clearing a cell that is already clear
  therefore drops its stored call (`ClearingTwiceLosesACall`, `DiscardedIff`).

## Assumptions

- No I/O failure in the log: files open, renames of existing files succeed, writes are complete, no
  other process writes the family. Sizes do not reach the largest `size_t`.
- POSIX build: the converter is the identity and adds a three-byte mark to the header.
- A `recv` of a frame returns the whole frame. Words read into 50-byte buffers have at most 49
  characters, messages at most 1023, as the code needs to stay inside its arrays.
- `logOutUser` is atomic although it takes no lock. The descriptor of an entry that LOGOUT creates is
  never initialised; it is taken not to be the number of a push channel.
- A client's own description does not change while it listens.
- A send to a push channel whose other end is gone is lost and nothing else. The code sends without
  `MSG_NOSIGNAL` and handles only `SIGINT`, so the operating system may end the server there instead.
- Closing a connection's socket a second time, as the handler does at its end, has no effect; it could
  close a descriptor given out again meanwhile.

## Model

| member | source | states |
|---|---|---|
| FileNames.BuildInjective | include/plog/Appenders/RollingFileAppender.h:121-137 | two different file numbers never get the same name, for every stem and extension |
| FileNames.NumberInName | include/plog/Appenders/RollingFileAppender.h:121-137 | a rolled file has its number in decimal between stem and extension, the live file has none |
| FileNames.SplitFileName | include/plog/Util.h:301-324 | the name is split at its last dot; without a dot it is all stem |
| FileNames.SplitThenBuild | include/plog/Util.h:310-324 | the live file has the configured name exactly when that name does not end in a dot; then only that dot is dropped |
| FileNames.SplitUnique | include/plog/Util.h:310-324 | a name has one split only, so setting the same name again means the same files |
| Files.FileSystem.Rename | include/plog/Util.h:421-428 | the target takes over the source's content; a missing source changes nothing |
| Files.File.Open | include/plog/Util.h:355-367 | creates a missing file, positions at the end and returns the size |
| Files.File.Write | include/plog/Util.h:369-384 | writes at the descriptor's position, or returns -1 when nothing is open |
| Files.WriteAtMeans | include/plog/Util.h:369-384 | a write replaces as many bytes as it has, from the position on, and keeps all others |
| RollingLog.ShiftUnique | include/plog/Appenders/RollingFileAppender.h:85-100 | the exact-shift relation leaves nothing open: it determines the directory |
| RollingLog.MoveOne | include/plog/Appenders/RollingFileAppender.h:92-98 | one rename of the descending loop moves one slot up and keeps all others, gaps included |
| RollingLog.UnlinkLast | include/plog/Appenders/RollingFileAppender.h:89-90 | dropping the last slot frees it and touches nothing else |
| RollingLog.RollingFileAppender.constructor | include/plog/Appenders/RollingFileAppender.h:14-22 | starts closed, with the split name and a limit of at least 1000 |
| RollingLog.RollingFileAppender.SetFileName | include/plog/Appenders/RollingFileAppender.h:58-66 | closes the file, splits the name, and makes the next write a first write |
| RollingLog.RollingFileAppender.SetMaxFileSize | include/plog/Appenders/RollingFileAppender.h:80-83 | the limit becomes the given one or 1000, nothing else changes |
| RollingLog.RollingFileAppender.OpenLogFile | include/plog/Appenders/RollingFileAppender.h:105-119 | an absent or empty live file gets the header, any other stays as it is; the recorded size is the file's |
| RollingLog.RollingFileAppender.RollLogFiles | include/plog/Appenders/RollingFileAppender.h:85-102 | for every directory and file limit, number i + 1 then holds what number i held for all i + 1 < maxFiles, the live file only the header, and no name outside numbers 0 to maxFiles - 1 changes |
| RollingLog.RollingFileAppender.Write | include/plog/Appenders/RollingFileAppender.h:36-56 | a write is one step of the step relation: roll first exactly when it must, then append; the size stays accurate |
| RollingLog.WriteMeans | include/plog/Appenders/RollingFileAppender.h:36-56 | exactly when a write rolls; otherwise a live file that has anything keeps it as a prefix, an empty one starts with the header, and no other file changes |
| RollingRuns.StepKeepsValid | include/plog/Appenders/RollingFileAppender.h:45-55 | after every step the recorded size is the live file's length |
| RollingRuns.Drive | include/plog/Appenders/RollingFileAppender.h:36-83 | every list of writes, restarts and limit changes, put to a new appender, is a run of the step relation |
| RollingRuns.RollKeepsShape | include/plog/Appenders/RollingFileAppender.h:85-102 | a rolling write starts a new group and moves every older group up one slot |
| RollingRuns.AppendKeepsShape | include/plog/Appenders/RollingFileAppender.h:50-55 | any other write extends the newest group, also after a restart |
| RollingRuns.RunMatchesCuts | include/plog/Appenders/RollingFileAppender.h:36-119 | whole runs from any directory, with restarts and limit changes, leave exactly the files of the reference; nothing else changes |
| RollingRuns.CutsKeepEveryLine | include/plog/Appenders/RollingFileAppender.h:36-56 | the groups joined in order are the lines written: none split, doubled or reordered |
| RollingRuns.FamilyTextIsNewestGroups | include/plog/Appenders/RollingFileAppender.h:85-119 | the files joined oldest first, headers stripped, are the newest groups |
| RollingRuns.Retention | include/plog/Appenders/RollingFileAppender.h:36-119 | the files hold, byte for byte, the last lines written; only the lines of the oldest groups beyond maxFiles are lost, and every number below maxFiles is in use once there are that many groups |
| RollingRuns.CutBounds | include/plog/Appenders/RollingFileAppender.h:45-48 | in one session every finished group exceeds the limit and no group exceeds it by more than its last line |
| RollingRuns.SizesOfOneSession | include/plog/Appenders/RollingFileAppender.h:45-55 | file sizes: at most the limit plus the longest line, rolled files above the limit, and with all slots used more than (maxFiles - 1) times the limit retained |
| RollingRuns.OvergrowsIff | include/plog/Appenders/RollingFileAppender.h:40-48 | exactly when a write leaves the live file over the limit by more than its own line |
| RollingRuns.RestartsDefeatTheLimit | include/plog/Appenders/RollingFileAppender.h:40-48 | with one line per start the log never rolls, whatever the limit |
| Streams.InputStream.GetLine | include/plog/Formatters/CsvFormatter.h:38-45 | getline over a string: the token, the dropped delimiter, the rest, and the state bits |
| Csv.PieceQuoted | include/plog/Formatters/CsvFormatter.h:41-45 | one turn of the quoting loop keeps what is written a quoted cell in progress |
| Csv.WriteMessage | include/plog/Formatters/CsvFormatter.h:38-45 | the loop writes the message between quotes with every quote doubled, also when it is empty or ends in a quote |
| Csv.Format | include/plog/Formatters/CsvFormatter.h:17-50 | the row is the plain cells, then the quoted message, cut after its limit with an ellipsis; what the row tells is CsvRecords.RecordRoundTrip |
| CsvDecode.RunRow | include/plog/Formatters/CsvFormatter.h:17-50 | wherever a row may begin, a formatted row is read as the cells of its record |
| CsvDecode.HeaderReadsAs | include/plog/Formatters/CsvFormatter.h:12-15 | the header is one row with the seven column names |
| CsvDecode.FileRoundTrip | include/plog/Formatters/CsvFormatter.h:12-50 | a file of formatted rows decodes to the header and every record's cells, whatever the messages hold |
| CsvDecode.FuncRecoveredIff | include/plog/Formatters/CsvFormatter.h:28 | a function name is recovered exactly when it holds no separator, no quote and no line end |
| CsvRecords.SeverityReadsBack | include/plog/Severity.h:20-61 | `severityFromString` inverts `severityToString` |
| CsvRecords.StampShape | include/plog/Formatters/CsvFormatter.h:23-24 | dates read YYYY/MM/DD and times HH:MM:SS.mmm |
| CsvRecords.RecordReadsBack | include/plog/Formatters/CsvFormatter.h:17-50 | year to milliseconds, severity, thread, object, function, line and message come back, each from its column; of a message over 32000 characters the first 32000 and an ellipsis |
| CsvRecords.RecordRoundTrip | include/plog/Formatters/CsvFormatter.h:12-50 | a file of rows gives back every record it was made of |
| CsvRecords.HeaderIs | include/plog/Formatters/CsvFormatter.h:12-15 | a file starts with the byte order mark and the column names |
| CsvFamily.GroupIsSlice | include/plog/Appenders/RollingFileAppender.h:36-56 | each file's lines are consecutive lines of the log |
| CsvFamily.EveryFileDecodes | include/plog/Appenders/RollingFileAppender.h:105-119 | in every reachable state each file decodes on its own, and all rows together are the last records, in order |
| CsvFamily.LastRecordsComeBack | include/plog/Appenders/RollingFileAppender.h:36-119 | read back from all files of a run, the rows are the last records logged |
| CsvFamily.LogRecords | include/plog/Appenders/RollingFileAppender.h:36-56 | a program that logs records leaves files that hold, byte for byte, the rows of the last of them, and from which those records come back |
| CsvFamily.HeaderBelowLimit | include/plog/Appenders/RollingFileAppender.h:80-83 | the CSV header is below the smallest limit, so it never makes a file roll |
| Accounts.UserStore.AddUser | src/UserStore.cpp:14-21 | the account is replaced whole, field by field |
| Accounts.UserStore.LoginUser | src/UserStore.cpp:24-37 | logs in exactly when the account exists and the password matches |
| Accounts.UserStore.LogOutUser | src/UserStore.cpp:38-40 | the name is logged out, and gets an entry if it had none |
| Accounts.ReplayMeans | src/UserStore.cpp:14-56 | after any history: who has an entry, whose password and descriptor it holds, and exactly when it is logged in |
| Accounts.LogInLasts | src/UserStore.cpp:14-56 | a log-in lasts exactly until a sign-up or log-out of the name that no log-in with its password follows |
| Wire.CStrOfFrame | src/client.cpp:50-53 | a text in a zeroed buffer is read back exactly when it holds no NUL |
| Wire.SpacesAre | src/server.cpp:120-123 | what `%s` takes for white space |
| Wire.TwoWordsRoundTrip | src/server.cpp:120-126 | exactly which names and passwords arrive as sent in SIGNUP and LOGIN |
| Wire.NamedRoundTrip | src/server.cpp:155-162 | exactly which names arrive as sent, with the description after them, in CALL and INVITE; the offset is then within the message |
| Wire.AcceptRoundTrip | src/client.cpp:376-378 | the description of an ACCEPT is recovered and its first word is recognised |
| Wire.KeywordsExclude | src/server.cpp:98-347 | no message starts with two keywords |
| Wire.DispatchInAnyOrder | src/server.cpp:98-347 | a message reaches the handler of its keyword in every order of the chain, and only that one |
| Buffers.Strlen | src/server.cpp:161-162 | the length of the string before the first NUL |
| Buffers.StartsWith | src/server.cpp:98 | the comparison holds exactly when the buffer's string starts with the keyword |
| Buffers.Print | src/client.cpp:51-53 | the buffer holds the text and is zero after it |
| Buffers.CopyTail | src/server.cpp:161-162 | the string from the offset on is copied whole and terminated |
| Buffers.ScanWord | src/server.cpp:123 | reads the next word, or nothing at the end, and says where it stopped |
| Buffers.ParseTwoWords | src/server.cpp:120-126 | SIGNUP and LOGIN parsing yields the first two words |
| Buffers.ParseNamed | src/server.cpp:155-162 | CALL and INVITE parsing yields the first word and everything at the computed offset |
| Frames.FramesRoundTrip | src/client.cpp:50-54 | messages padded to full frames are recovered in order exactly when none holds a NUL |
| Frames.InviteIsTwoFrames | src/server.cpp:182-189 | an INVITE is 2048 bytes, read as its text followed by an empty message |
| Frames.CallEndToEnd | src/server.cpp:155-189 | a description crosses CALL and INVITE unchanged; the name shown is the callee's |
| Frames.AcceptEndToEnd | src/server.cpp:193-213 | an answer crosses both hops unchanged |
| Server.KeywordOfIff | src/server.cpp:98-347 | a message has a keyword exactly when it starts with its text |
| Server.KeywordByText | src/server.cpp:98-347 | which handler a message reaches, by the literal text it starts with |
| Server.PrintedRequests | src/client.cpp:46-48 | what the client prints for CLIENT, SIGNUP, LOGIN, CALL, LOGOUT and EXIT reaches the handler of that request |
| Server.ServerOrderFinds | src/server.cpp:98-347 | any chain over all keywords finds the message's keyword |
| Server.ClientHandler.FindHandler | src/server.cpp:98-347 | the chain of comparisons finds the message's keyword |
| Server.ClientHandler.ReadCredentials | src/server.cpp:120-126 | the two words of the request, through 50-byte buffers |
| Server.ClientHandler.ReadCall | src/server.cpp:155-166 | callee and description of a CALL |
| Server.ClientHandler.ReadAnswer | src/server.cpp:201-205 | whether the callee's message is an ACCEPT; an empty one is not |
| Server.ClientHandler.TakeCall | src/server.cpp:152-168 | from the bytes of a CALL to where the relay model's step leaves the thread after the first look-up |
| Server.ClientHandler.CheckCallee | src/server.cpp:171-173 | the second look-up decides as the relay model's step does |
| Server.ClientHandler.FetchCallee | src/server.cpp:176-180 | the descriptor to invite, or the failure that ends the call, as in the model's third look-up |
| Server.ClientHandler.PrintInvite | src/server.cpp:182-189 | the INVITE in its zeroed buffer of two frames |
| Server.ClientHandler.Perform | src/server.cpp:117-150 | the effect of SIGNUP, LOGIN and LOGOUT on the table, the connection's name and the reply |
| Server.ClientHandler.Handle | src/server.cpp:117-150 | from the bytes of a SIGNUP, LOGIN or LOGOUT to its effect on table, name and reply; the other requests leave these alone |
| Server.CredentialsSent | src/client.cpp:46-53 | from the buffer the client prints for either option, the handler finds SIGNUP or LOGIN and takes the words typed |
| Server.SignUpThenLogin | src/server.cpp:117-150 | after the printed buffers of SIGNUP and LOGIN with the same words the account is logged in with this connection's descriptor |
| Server.SignUpMeans | src/server.cpp:117-132 | SIGNUP replaces the account by one logged out, with this connection's descriptor |
| Server.LogInMeans | src/server.cpp:134-150 | LOGIN sets one flag, exactly with the right password, and the connection's name in any case |
| Server.LogOutMeans | src/server.cpp:339-345 | LOGOUT clears one flag or makes an empty entry for the held name |
| Server.LogOutIgnoresItsName | src/server.cpp:339-345 | the account named in a LOGOUT stays logged in exactly when it was and is not the name the connection last tried |
| Client.PrintSignUpOrLogin | src/client.cpp:46-53 | the message printed for either menu option |
| Client.Listener.OnMessage | src/client.cpp:309-391 | one turn of the listener: when it stops, what it stores, and the exact ACCEPT it prints |
| Client.Listener.ReadInvite | src/client.cpp:335-345 | the description out of an INVITE |
| Client.ReactToPush | src/client.cpp:316-391 | the listener's reaction to each message the server pushes |
| Client.ListenIsReaction | src/client.cpp:309-391 | a listener step of the relay model is the code's reaction to the message's text: what it stops at, answers and hears |
| HandlerSteps.RequestIsStep | src/server.cpp:117-150 | the bytes of SIGNUP, LOGIN and LOGOUT have exactly the effect of the relay model's step |
| HandlerSteps.Request | src/client.cpp:46-53 | from the words typed, through the printed bytes and their parsing, to the table |
| HandlerSteps.InviteIsStep | src/server.cpp:182-189 | the bytes of the printed INVITE, read in full frames, are the two messages of the model's strict step |
| HandlerSteps.AnswerIsStep | src/server.cpp:193-213 | an answer is taken as an ACCEPT and passed on as it came; the empty buffer of a failed recv is not |
| RelaySafety.InviteKeeps | src/server.cpp:182-196 | sending an INVITE and starting to wait keeps the channel's balance |
| RelaySafety.ListenKeeps | src/client.cpp:309-391 | every message a listener takes keeps the channel's balance |
| RelaySafety.ConnectBalances | src/server.cpp:98-114 | a newly opened push channel has nobody waiting on it |
| RelaySafety.ForwardBalances | src/server.cpp:205-213 | passing an answer on keeps the balance of both channels, also when they are one |
| RelaySafety.StepBalances | src/server.cpp:98-360 | every step keeps the balance of every channel |
| RelaySafety.StepKeepsInv | src/server.cpp:98-360 | every step of every thread and listener keeps the invariant |
| RelaySafety.SendToKeeps | src/server.cpp:213 | sending to any descriptor, connected or not, keeps every channel's balance |
| RelaySafety.Reachable | src/server.cpp:76-360 | the invariant holds in every interleaving |
| RelayRuns.CallsConserved | src/server.cpp:178-213 | per listening client, blocked threads are exactly the INVITEs in flight to it plus the ACCEPTs in flight from it |
| RelayRuns.AnswersAreTheCallees | src/server.cpp:189-213 | each forwarded answer is the description of the client on the invited channel |
| RelayRuns.AnswersNeverExceedInvites | src/server.cpp:189-213 | no more answers are forwarded from a channel than INVITEs were sent to it |
| RelayRuns.RunGrows | src/UserStore.cpp:14-66 | on any run from any state, no account disappears, and channels keep their number and their client's description |
| RelayRuns.LookUpsSucceed | src/server.cpp:168-180 | after the log-in look-up the later two never fail, whatever happens in between |
| RelaySteps.OtherThreadsStay | src/server.cpp:64-362 | a step changes no thread but its own |
| RelaySteps.CallIsStep | src/server.cpp:152-170 | an idle thread may always CALL, and goes on exactly if the callee is logged in; nothing else changes |
| RelaySteps.InviteWaits | src/server.cpp:182-196 | the INVITE is added to whatever is on the channel, once, and its thread waits there |
| RelaySteps.CallComesToWait | src/server.cpp:168-196 | any idle thread can call any account that is logged in and come to wait on its channel, however many wait there already |
| RelaySteps.TwoWaitOnOne | src/server.cpp:168-196 | a schedule from the start in which two threads wait on one channel with both INVITEs on their way |
| RelaySteps.ConnectIsStep | src/server.cpp:98-114 | CLIENT opens and greets the next channel and keeps its descriptor |
| RelaySteps.WaitingSteps | src/server.cpp:193-205 | exactly when a waiting thread takes an answer, which one, and exactly when it gives up |
| RelaySteps.ForwardIsStep | src/server.cpp:205-213 | an answer is passed on to the caller's own channel and no other |
| RelaySteps.EndedIsFinal | src/server.cpp:347-362 | a connection that ended makes no further step |
| RelayCalls.InvitedLoggedOutIff | src/server.cpp:168-189 | in every interleaving, exactly when a call invites a callee who is no longer logged in: in terms of the requests made since the CALL |
| RelayCalls.CallOutlivesLogOut | src/server.cpp:168-189 | a schedule from the start in which that happens |
| RelayRuns.TableIsHistory | src/server.cpp:117-150 | in every interleaving the table is built by the requests in order, LOGOUT acting on the connection's last name |
| RelayEnds.ProgressShrinksWork | src/server.cpp:168-213 | each step of a call already made leaves less work |
| RelayEnds.OtherStepsWork | src/server.cpp:98-360 | any other step brings 8 for a CALL, 1 for a CLIENT, 1 for an EXIT, and nothing otherwise |
| RelayEnds.BusyMeansEnabled | src/server.cpp:189-213 | while any thread is inside a call, some step is possible without a new request |
| RelayEnds.EveryWaitEnds | src/server.cpp:189-213 | on every schedule, whatever else happens, the steps of calls are bounded by the work there was and what requests brought; where none is left no thread is blocked |
| RelayEnds.CallsCanEnd | src/server.cpp:189-213 | however many such steps were chosen first, the end of all calls can be reached |
| RelayAnswers.StepGiven | src/client.cpp:309-391 | what a client will have answered grows only by an INVITE that nothing stopping its listener precedes |
| RelayAnswers.AnswersExactly | src/client.cpp:309-391 | at the end, a client that did not crash has answered exactly the INVITEs sent before what stops its listener; each answer was passed on to its caller's channel or lost with the connection, for every other caller there was none |
| RelayAnswers.AskedIsInvited | src/server.cpp:182-189 | unless the client is told to EXIT those are all INVITEs sent to it, or with two-frame INVITEs the first |
| RelayAnswers.TwoFramesOneAnswer | src/server.cpp:182-189 | with two-frame INVITEs never more than one answer from a client is passed on, and at the end exactly one if an INVITE was sent before EXIT |
| RelayHears.StepTells | src/server.cpp:205-213 | what a client will have heard grows only by an answer passed on while nothing that stops its listener precedes |
| RelayHears.HeardExactly | src/server.cpp:189-213 | a client hears, in order, at most the answers passed on to it before what stops its listener, and at the end, unless it crashed, exactly those |
| RelayHears.InvitedHearsNoMore | src/server.cpp:182-213 | with two-frame INVITEs, a client that was sent one hears nothing that is passed on after it, on any continuation |
| CrossedCalls.CrossedCallsAreNotHeard | src/server.cpp:182-213 | a schedule from the start, for any two clients that call each other: both answer, both answers are passed on, neither is heard |
| RelayBytes.InFlightIsBytes | src/server.cpp:98-213 | on whole runs, the bytes sent to a listener and not yet read are those of the messages on their way in the relay model |
| RelayBytes.ListenersReadTheirMessages | src/client.cpp:309-318 | read frame by frame those bytes give the messages' texts, up to the first that stops the listener, also when an EXIT shares its frame with what follows |
| ThreadSafeMap.ThreadSafeMap.Edit | src/ThreadSafeMap.cpp:20-25 | only a key that is there changes, and no key is added |
| ThreadSafeMap.ThreadSafeMap.WriteToFile | src/ThreadSafeMap.cpp:52-58 | the file lists every entry once |
| ThreadSafeMap.ThreadSafeMap.AddEntry | src/ThreadSafeMap.cpp:67-72 | a line adds the entry split at its first delimiter, or nothing |
| ThreadSafeMap.ThreadSafeMap.ReadFromFile | src/ThreadSafeMap.cpp:61-75 | the entries of the file's lines are added in order; an unopened file changes nothing |
| Persistence.LoadMeans | src/ThreadSafeMap.cpp:61-75 | for any file: the last line that gives a key decides its value, other keys stay |
| Persistence.EntryIff | src/ThreadSafeMap.cpp:67-72 | exactly which lines carry an entry, and which |
| Persistence.LinesWithoutDelimiter | src/ThreadSafeMap.cpp:69 | lines without the delimiter change nothing |
| Persistence.RestoreInto | src/ThreadSafeMap.cpp:52-75 | writing and then reading into any map overrides it by exactly the entries with a value |
| Persistence.RestoredIff | src/ThreadSafeMap.cpp:52-75 | exactly which maps come back unchanged from their own file |
| StoredCallback.SynchronizedStoredCallback.Call | include/rtc/utils.hpp:121-126 | delivers the call, or stores it in place of any earlier one |
| StoredCallback.SynchronizedStoredCallback.Set | include/rtc/utils.hpp:113-119 | sets the function and replays the stored call to it |
| StoredCallback.SynchronizedStoredCallback.Assign | include/rtc/utils.hpp:67-71 | the generated assignment: the base part, then the stored call is replaced by that of the source |
| StoredCallback.EveryCallAccounted | include/rtc/utils.hpp:73-126 | after any trace the function in place is the one last assigned, and every call is delivered once, in order, to the function the trace says, or overwritten, discarded or still stored |
| StoredCallback.LastSetIff | include/rtc/utils.hpp:90-119 | a function is in place exactly when some assignment set it and none came later |
| StoredCallback.DeliveredIff | include/rtc/utils.hpp:113-126 | exactly which function receives a call: the one in place, or the one whose assignment replays it |
| StoredCallback.StoredIff | include/rtc/utils.hpp:113-126 | exactly which call still waits: one that was missed and followed only by clearing through `set` |
| StoredCallback.DiscardedIff | include/rtc/utils.hpp:105-128 | exactly which calls are lost to an assignment, told from the trace: those missed and followed, but for clearing through `set`, by a clearing assignment |
| StoredCallback.ClearingTwiceLosesACall | include/rtc/utils.hpp:105-128 | the smallest trace that loses a call that way |
| Gather.SendBuffer | include/rtc/datachannel.hpp:64-76 | the message is the buffers joined in order, and the copy ends exactly at the end of its storage |
| Gather.CopyFitsIff | include/rtc/datachannel.hpp:52-76 | with wider elements the copy fits what the first pass asked for exactly when there is nothing to copy |

## Left out

- Sockets, `connect` and `accept`, thread creation, signals, console menus and output: only channels and steps remain.
- JSON, session descriptions and `PeerConnection`: a description is an opaque string; a client that fails on one is a step that stops its listener.
- CLIENT's address and port are not parsed; the step opens a fresh push channel, and a failed connection is the step that ends the thread.
- Mutexes and copies of callbacks that reassign the cell while it replays a call.
- Changes of the file limit, or of the file name to another one, during a run of the log; both are covered for single calls.
- I/O failures of the log and wrap-around of sizes.
- Local and UTC time conversion: a record carries its broken-down time, with a year that is not negative.
- The text formatter, the other appenders, the remaining headers of the media library, the offerer and answerer programs, and `media_handler`.
- Agreement between the client's own login flag and the server's table, which the code does not keep.
- ThreadSafeMap.ThreadSafeMap.WriteToFile: leaves the order of the entries open, so that the results hold for the sorted order of `std::map` and for every other.
- Client.Listener.OnMessage: the parse of the description and the peer connection it is given to, which may throw before the ACCEPT is sent, are not in the turn; in the relay model a listener that ends that way is the step `Crash`.
- Gather.CopyFitsIff: compares the two passes' totals only; what the copy does once it leaves its storage has no meaning to model.
- CsvFamily.LogRecords: formats all records before it writes the first; formatting has no effect on the log.
