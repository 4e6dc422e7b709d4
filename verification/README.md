# YOGI, verified

Dafny models of the parts of YOGI whose correctness is not visible in any single
function: text compilers, wire formats, printers and the state machines that run
under locks, timers and event loops. Each module follows one component. Code that
changes state is a class whose methods are proved against specification functions
or against the steps of a state machine; what the component promises is then proved
of those functions, or of every run of that machine.

| file | component |
|---|---|
| `Replace.dfy`, `Glob.dfy` | the supervisor's file watcher: wildcard patterns compiled to POSIX basic regular expressions (section 9.3 of IEEE Std 1003.1) |
| `Templates.dfy`, `TemplateMeaning.dfy` | the supervisor's template strings and constants |
| `Reconnect.dfy` | `AutoConnectingTcpClient`: a reconnect thread, handlers, an owner, one mutex, one condition variable |
| `Bytes.dfy`, `HubSession.dfy`, `HubProtocol.dfy` | the JavaScript session: batches, requests, notifications, and the hub on the other side |
| `KnownTerminals.dfy`, `TerminalListParser.dfy` | the known-terminals list: its C++ encoder and decoder, and the JavaScript decoder |
| `Json.dfy`, `Accounts.dfy`, `AccountEscapes.dfy`, `FileAccounts.dfy` | the account file: printed by hand, read back as JSON (RFC 8259) |
| `Signatures.dfy` | signatures, message definitions, the class cache |
| `Observers.dfy`, `Anomalies.dfy`, `Operational.dfy`, `Dependency.dfy` | yogi-cpp's observers and process interface |
| `ServiceLoop.dfy` | the supervisor's commands and services |
| `Paths.dfy`, `SessionNames.dfy` | paths, and the names of sessions |

Some properties one would expect turned out not to hold of the code as it is; each
has a concrete input or run and the exact condition under which it does hold:

- The JavaScript decoder of the known-terminals list need not end: without a NUL it
  starts over at the first byte (`EndsIff`, `UnendedNameHangs`).
- Accounts are read back as they were saved if and only if none of their strings
  would need an escape (`SaveThenLoadIff`).
- A reserved signature is rejected by `createMessageClass` only if no earlier call
  asked for its half as part of a good signature (`RejectedUnlessCached`,
  `ReservedSignatureIsServed`).
- `get_known_terminals` casts the size of its buffer to 32 bits, so a list of more
  than 2^31 bytes never fits, however much memory there is (`FitsIfAtMost2GiB`).
- A dependency with an observer that is ready from the start counts from 2^64 - 1
  (`CountsNotReadyIff`, `MetIffAllReady`, `ReadyFromTheStart`).
- A file change that does not find the current command running leads to a second
  command (`OneCommandAtATimeIff`, `LateChangeRunsTwo`).
- Joining paths is not associative when the one in the middle is empty
  (`DivideAssociatesIff`).
- Sessions of two accounts can share a name when one username extends the other by
  `-` (`AccountsCollideIff`, `DashesCollide`).
- A request can stay unsettled although the session has closed, when its response
  parser throws (`SettledIff`).

The reconnect protocol rests on one wait that ends only when notified; what a
spurious wakeup does there is shown too (`SpuriousWakeupHarmfulIff`,
`SpuriousWakeupBreaksIt`, `SpuriousWakeupEndsThread`).

`Seqs.dfy` holds facts about sequences the other modules share.

## Model

| member | source | states |
|---|---|---|
| Replace.ReplaceInPlace | yogi-supervisor/src/FileWatcher.cc:83-89 | one in-place replace-all pass, scanning left to right and never looking at what it has inserted, equals the recursive replacement the other proofs use |
| Replace.ReplaceCharIsFlatMap | yogi-supervisor/src/FileWatcher.cc:83-89 | replacing one character everywhere is a character-wise substitution |
| Glob.WildcardPatternToBasicPosixGrammar | yogi-supervisor/src/FileWatcher.cc:81-92 | the seven sequential passes amount to translating every character once, on its own |
| Glob.PassOnChar | yogi-supervisor/src/FileWatcher.cc:83-89 | no pass touches what an earlier one has produced |
| Glob.TranslationParses | yogi-supervisor/src/FileWatcher.cc:72-92 | every translated pattern is a well-formed BRE without anchors, brackets or back-references and has one piece per pattern character |
| Glob.StarUnrolls | yogi-supervisor/src/FileWatcher.cc:86 | a starred period of the BRE matches nothing, or one more character |
| Glob.CompiledPatternMeansGlob | yogi-supervisor/src/FileWatcher.cc:72-92 | for every pattern and every name without NUL, the compiled BRE fully matches if and only if the wildcard pattern does |
| Glob.NulIsNotMatched | yogi-supervisor/src/FileWatcher.cc:188-193 | NUL is why names are NUL-free: the period does not match it |
| Glob.StarMatchesAnyRun | yogi-supervisor/src/FileWatcher.cc:86 | the wildcard `*` matches any run of characters, also an empty one |
| Glob.OneCharacter | yogi-supervisor/src/FileWatcher.cc:89 | `?` matches one character, any other character itself |
| Templates.TemplateString.Resolve | yogi-supervisor/src/TemplateString.cc:33-36 | resolving replaces every textual `${NAME}`, character by character, by the value the other string has now |
| Templates.TemplateString.ResolveAll | yogi-supervisor/src/TemplateString.cc:38-43 | resolving against a vector is the sequence of single replacements, first element first |
| Templates.ExtractRawConstants | yogi-supervisor/src/Supervisor.cc:42-59 | fails exactly when a name is reserved, and names the first one; otherwise fresh, distinct objects in order |
| Templates.ResolveConstants | yogi-supervisor/src/Supervisor.cc:27-32 | the nested reverse loops leave in element i its raw value with all earlier raw values replaced in, nearest first, although they work on objects they also read |
| Templates.ExtractConstants | yogi-supervisor/src/Supervisor.cc:25-40 | the extracted constants keep names and order and hold those values; or the first reserved name is reported |
| TemplateMeaning.ReplaceIsSubst | yogi-supervisor/src/TemplateString.cc:33-36 | on well-formed text, textual replacement is substitution of references: no match begins in one token and ends in another |
| TemplateMeaning.ReferenceIsReplaced | yogi-supervisor/src/TemplateString.cc:35 | between plain texts a dollar sign and a name in braces becomes the value |
| TemplateMeaning.PlainIsLeftAlone | yogi-supervisor/src/TemplateString.cc:35 | text without a dollar sign is left alone |
| TemplateMeaning.DownExpands | yogi-supervisor/src/Supervisor.cc:28-32 | the single pass over earlier constants reaches the full recursive expansion |
| TemplateMeaning.ExtractedIsExpanded | yogi-supervisor/src/Supervisor.cc:25-40 | extracted constant i is the recursive expansion of its references to earlier constants, for every list of well-formed constants, repeated names included |
| TemplateMeaning.OccursIffToken | yogi-supervisor/src/TemplateString.cc:33-36 | in well-formed text, `${NAME}` occurs somewhere if and only if it is one of the references |
| TemplateMeaning.NoReferenceSurvives | yogi-supervisor/src/Supervisor.cc:25-40 | of the extracted texts: none contains `${NAME}` of any constant, anywhere, if and only if every configured reference points backwards |
| TemplateMeaning.ResolveEachIsSequential | yogi-supervisor/src/TemplateString.cc:38-43 | vector resolution of text is sequential substitution of references |
| TemplateMeaning.SequentialIsSimultaneous | yogi-supervisor/src/ExecutionUnit.cc:138-145 | with reference-free values, resolving one by one is resolving all at once |
| TemplateMeaning.ResolveOrderIrrelevant | yogi-supervisor/src/ExecutionUnit.cc:138-145 | with distinct names the order of the vector does not matter |
| TemplateMeaning.OrderMatters | yogi-supervisor/src/TemplateString.cc:38-43 | two vectors, of which one value refers to the other name, whose order decides the result |
| TemplateMeaning.ResolveIdempotent | yogi-supervisor/src/ExecutionUnit.cc:138-145 | resolving twice is resolving once |
| Reconnect.AutoConnectingTcpClient.ThreadEnters | yogi-cpp/yogi/tcp.cpp:132-139 | the thread's first critical section is one step of the machine |
| Reconnect.AutoConnectingTcpClient.ThreadLoops | yogi-cpp/yogi/tcp.cpp:138-153 | so is every stretch of the loop from one wait to the next, including both returns |
| Reconnect.AutoConnectingTcpClient.Start | yogi-cpp/yogi/tcp.cpp:314-330 | start throws without effect when running or without a valid target, connects, or waits for the thread |
| Reconnect.AutoConnectingTcpClient.StartContinues | yogi-cpp/yogi/tcp.cpp:324-330 | a woken start checks the thread again, then connects before it sets the client running |
| Reconnect.AutoConnectingTcpClient.Destroy | yogi-cpp/yogi/tcp.cpp:272-287 | the destructor stops the client, waits for the thread to have begun, notifies and joins |
| Reconnect.AutoConnectingTcpClient.DestroyContinues | yogi-cpp/yogi/tcp.cpp:277-284 | a woken destructor checks the thread again, then notifies and joins |
| Reconnect.AutoConnectingTcpClient.OnConnectCompleted | yogi-cpp/yogi/tcp.cpp:164-208 | the connect handler keeps the connection, or notifies on failure, or does nothing when cancelled or stopped |
| Reconnect.AutoConnectingTcpClient.OnConnectionDied | yogi-cpp/yogi/tcp.cpp:210-228 | the death handler notifies unless cancelled or stopped |
| Reconnect.RunInv | yogi-cpp/yogi/tcp.cpp:132-229 | the system invariant holds in every state of every run of thread, handlers and owner |
| Reconnect.OneConnectAtATime | yogi-cpp/yogi/tcp.cpp:155-162 | never two connects in flight, and none is started while a connection is held |
| Reconnect.NoWakeupLost | yogi-cpp/yogi/tcp.cpp:200-228 | a failed connect or a death while running always finds the thread at its first wait and wakes it |
| Reconnect.AlwaysReconnecting | yogi-cpp/yogi/tcp.cpp:138-153 | while running and uncancelled, exactly one of connect, live connection and thread is bringing the next connection |
| Reconnect.StartConnects | yogi-cpp/yogi/tcp.cpp:314-330 | a start that does not throw connects, or waits for a thread that has yet to begin |
| Reconnect.ReconnectsAfterDelay | yogi-cpp/yogi/tcp.cpp:146-151 | apart from start, connects are begun by the thread only, one at a time, behind its delay |
| Reconnect.DelaysWhenWoken | yogi-cpp/yogi/tcp.cpp:139-146 | the thread delays only when it has been woken, with the connection dropped |
| Reconnect.InvalidTargetNeverConnects | yogi-cpp/yogi/tcp.cpp:320-322 | in no run does a client without a valid target connect |
| Reconnect.StoppedHandlersDoNothing | yogi-cpp/yogi/tcp.cpp:170-173 | after the destructor has begun a handler keeps no connection and wakes nobody |
| Reconnect.CanceledHandlersDoNothing | yogi-cpp/yogi/tcp.cpp:166-168 | nor does a handler whose operation was cancelled |
| Reconnect.JoinCannotHang | yogi-cpp/yogi/tcp.cpp:274-284 | when the destructor joins, the thread has returned or its very next step returns, and no other step changes that |
| Reconnect.OwnerIsWoken | yogi-cpp/yogi/tcp.cpp:277-279 | whoever waits for the thread to begin is woken by its first step, and nobody else is |
| Reconnect.SpuriousWakeupHarmfulIff | yogi-cpp/yogi/tcp.cpp:138-142 | after a spurious wakeup of the thread's first wait, some run starts a second connect, drops a live connection, loses a wakeup or stops reconnecting if and only if a connect was in flight, a connection was live, or the client could still be started; all other waits tolerate them |
| Reconnect.SpuriousWakeupEndsThread | yogi-cpp/yogi/tcp.cpp:139-142 | a run in which one before start has the thread return, so that a failed connect wakes nobody |
| Reconnect.SpuriousWakeupBreaksIt | yogi-cpp/yogi/tcp.cpp:139 | a run in which one spurious wakeup leads to two connects in flight |
| Bytes.LE32RoundTrip | yogi-javascript/src/session.js:180 | reading a 32-bit little-endian number back, for every value below 2^32 |
| Bytes.LeastSignificantFirst | yogi-javascript/src/session.js:180 | the least significant byte comes first |
| HubSession.DecodeEncoded | yogi-javascript/src/session.js:176-186 | cutting a batch gives exactly its messages in order, and a batch followed by other data is cut into its messages and those of the rest |
| HubSession.DecodeCuts | yogi-javascript/src/session.js:176-191 | on every input: complete messages, then nothing, less than a size field, or one message cut short |
| HubSession.Session.HandleBatchMessage | yogi-javascript/src/session.js:176-191 | the loop ends on every input and hands the messages on in order up to the first that throws, which closes the socket |
| HubSession.Session.HandleOne | yogi-javascript/src/session.js:193-297 | what each of the 256 statuses does to the queue and the callbacks; 1, 8 and unknown ones throw, and so do a response nobody waits for, a response parser and a notification's handler |
| HubSession.ResponsesByStatus | yogi-javascript/src/session.js:193-243 | status by status: RES_OK resolves the request that has waited longest, unless its parser throws; each other response rejects it with its reason, written out |
| HubSession.OtherMessagesByStatus | yogi-javascript/src/session.js:245-297 | notifications, statuses 1, 8 and from 25 on, and empty messages tell nobody anything |
| HubSession.Session.SendRequest | yogi-javascript/src/session.js:299-334 | a request is queued last, or rejected at once when the session is not alive |
| HubSession.Session.OnSocketClosed | yogi-javascript/src/session.js:158-163 | every waiting callback is told that the session has been closed, in order, and the queue is empty |
| HubProtocol.HandleConserves | yogi-javascript/src/session.js:193-297 | no message of any kind makes a request's callback run twice or get lost |
| HubProtocol.BatchConserves | yogi-javascript/src/session.js:176-191 | nor do arbitrary bytes |
| HubProtocol.DeliverOne | yogi-javascript/src/session.js:193-297 | a response reaches the request it answers, a notification consumes no queue entry, and exactly statuses 1 and 8 and throwing parsers and handlers stop the batch |
| HubProtocol.DeliverAll | yogi-javascript/src/session.js:176-297 | for any part of the stream that arrives as one batch: exactly which callbacks run, up to the first message that stops it |
| HubProtocol.RunInv | yogi-javascript/src/session.js:158-334 | the system invariant of session, wire and hub in every run |
| HubProtocol.QueueIsOutstanding | yogi-javascript/src/session.js:193-334 | while open, the queue is the requests sent but unanswered, oldest first |
| HubProtocol.AnswersReachTheirRequests | yogi-javascript/src/session.js:193-334 | every callback was told the hub's answer to its own request, an answer with a case of its own, or that the session is closed, and none has run twice |
| HubProtocol.ResolvedExactlyOnOk | yogi-javascript/src/session.js:193-334 | in every run, unless the session is closed, a request is resolved with its answer exactly if that is RES_OK and its parser does not throw, and rejected exactly on statuses 2 to 7 and 9 to 12 |
| HubProtocol.ClosingTellsEveryone | yogi-javascript/src/session.js:158-163 | after the close event the callback of every request ever made has run exactly once |
| HubProtocol.OneUnsettledAtMost | yogi-javascript/src/session.js:318-331 | a request is neither resolved nor rejected only if its parser throws; at most one of a session is, and the session closes |
| HubProtocol.SettledIff | yogi-javascript/src/session.js:158-334 | after the close event every request ever made is resolved or rejected if and only if no delivery came upon a response its parser throws on |
| HubProtocol.UnhandledStatusCloses | yogi-javascript/src/session.js:225-227 | the status for an invalid command has no case of its own, like the internal error: it closes the session, and closing rejects its request |
| KnownTerminals.ConvertVector | yogi-core/src/yogi_core.cpp:353-376 | appends the records of one vector, fails exactly when they do not fit, and leaves everything outside alone |
| KnownTerminals.EncodeKnownTerminals | yogi-core/src/yogi_core.cpp:336-389 | never writes behind the given size, fails exactly when the list does not fit, else counts and leaves the encoded list |
| KnownTerminals.RecordLayout | yogi-core/src/yogi_core.cpp:355-369 | a record byte by byte: type, signature, name, NUL |
| KnownTerminals.VectorInList | yogi-core/src/yogi_core.cpp:378-387 | every terminal of every vector is in the list, in order, with its name, signature and its vector's type |
| KnownTerminals.RecordInList | yogi-cpp/yogi/node.cpp:10-19 | the k-th record of an encoded list is found and read back behind its k predecessors, whatever surrounds the list |
| KnownTerminals.ExtractTerminalInfo | yogi-cpp/yogi/node.cpp:10-19 | reads one record and stops behind its NUL |
| KnownTerminals.GetKnownTerminals | yogi-cpp/yogi/node.cpp:40-64 | the doubling loop ends; it succeeds if and only if some doubled size is available and big enough after the cast, and then returns exactly the node's list in order |
| KnownTerminals.FitsIfAtMost2GiB | yogi-cpp/yogi/node.cpp:42-50 | given the memory, some doubled size is big enough if and only if the list has at most 2^31 bytes |
| KnownTerminals.EncodeChange | yogi-core/src/yogi_core.cpp:404-419 | a change is encoded if and only if it fits |
| KnownTerminals.ChangeReads | yogi-cpp/yogi/node.cpp:66-77 | and is read back, whatever the buffer holds behind it |
| TerminalListParser.ReadRecord | yogi-javascript/src/session.js:844-858 | one round: throws for an incomplete signature or an unknown type, else goes on behind the NUL, or at offset 0 if there is none |
| TerminalListParser.ParseKnownTerminals | yogi-javascript/src/session.js:839-862 | what the loop has after any number of rounds |
| TerminalListParser.EndsIff | yogi-javascript/src/session.js:839-862 | for every response the loop ends if and only if it does not run off both from where it starts and from the first byte; to run off is to reach, record by record, one whose name has no NUL |
| TerminalListParser.UnendedNameHangs | yogi-javascript/src/session.js:850-852 | a response of seven bytes with which the loop never ends |
| TerminalListParser.UnendedNameGathers | yogi-javascript/src/session.js:844-858 | what that loop gathers in its first two rounds |
| TerminalListParser.EndsBehindType | yogi-javascript/src/session.js:847-852 | a response that ends behind a type: an undefined signature, and a fresh start that throws |
| TerminalListParser.FourteenClasses | yogi-javascript/src/terminals.js:106-153 | fourteen type numbers have a class, each its own |
| TerminalListParser.ParserReadsEncoded | yogi-javascript/src/session.js:839-862 | behind any status bytes the loop ends, with exactly the list the C++ encoder wrote |
| TerminalListParser.ArrivesAsItsClass | yogi-javascript/src/terminals.js:106-153 | every terminal the core knows arrives with its name and signature as one of the class its vector is for |
| Json.LexSpelled | yogi-account-manager/src/accounts/FileAccountProvider.cc:65-95 | text spelled from tokens with clean strings and white space is read as those tokens |
| Json.TrailingCommaIsInvalid | yogi-account-manager/src/accounts/FileAccountProvider.cc:82-93 | a text with a comma in front of a closing bracket is not valid, so the commas have to be removed |
| Json.ShortEscapes | yogi-account-manager/src/accounts/FileAccountProvider.cc:26 | what the escapes of two characters mean |
| Json.GClef | yogi-account-manager/src/accounts/FileAccountProvider.cc:26 | the surrogate pair of section 7 of RFC 8259 is one code point |
| Json.FourDigits | yogi-account-manager/src/accounts/FileAccountProvider.cc:26 | another code point of four hexadecimal digits |
| Json.LoneSurrogate | yogi-account-manager/src/accounts/FileAccountProvider.cc:26 | half a surrogate pair is not read |
| Json.Blanks | yogi-account-manager/src/accounts/FileAccountProvider.cc:26 | the four characters between tokens, and some that are refused |
| Json.Words | yogi-account-manager/src/accounts/FileAccountProvider.cc:26 | true, false and null |
| Json.Integers | yogi-account-manager/src/accounts/FileAccountProvider.cc:26 | an integer goes as far as its digits, a leading zero stands alone |
| Json.Fractions | yogi-account-manager/src/accounts/FileAccountProvider.cc:26 | a fraction needs digits of its own |
| Json.Exponents | yogi-account-manager/src/accounts/FileAccountProvider.cc:26 | so does an exponent, which may have a sign |
| Json.NumberFronts | yogi-account-manager/src/accounts/FileAccountProvider.cc:26 | a number begins with a digit, or with a minus sign and a number |
| Accounts.SortedElements | yogi-account-manager/src/accounts/FileAccountProvider.cc:112-134 | usernames and groups: every element once, sorted |
| Accounts.DropLastComma | yogi-account-manager/src/accounts/FileAccountProvider.cc:82-93 | removing the last character of the last line turns a comma behind every entry into commas between entries |
| FileAccounts.FileAccountProvider.SaveAccounts | yogi-account-manager/src/accounts/FileAccountProvider.cc:61-102 | the printed text is the document of all accounts, sorted at both levels, with commas between entries only; loading it gives back the accounts if and only if their strings are clean |
| Accounts.DocumentReads | yogi-account-manager/src/accounts/FileAccountProvider.cc:65-95 | the file is one JSON text (sections 4, 5 and 7 of RFC 8259) and says what was printed |
| Accounts.FieldLinesSpelled | yogi-account-manager/src/accounts/FileAccountProvider.cc:71-77 | the lines of an account, character by character |
| Accounts.AccountIsItsMembers | yogi-account-manager/src/accounts/FileAccountProvider.cc:38-52 | an account is read from the first member of each of five names; anything but true, false, 1 or 0 for enabled throws |
| Accounts.MissingMemberThrows | yogi-account-manager/src/accounts/FileAccountProvider.cc:40-46 | a missing member throws |
| Accounts.ScalarTexts | yogi-account-manager/src/accounts/FileAccountProvider.cc:40-48 | what a property tree makes of strings, numbers, truth values, null and empty containers |
| FileAccounts.FileAccountProvider.LoadAccounts | yogi-account-manager/src/accounts/FileAccountProvider.cc:19-59 | a file that is not valid, and no other, leaves the accounts alone; otherwise they are exactly those read, the last of each name, up to the first that throws |
| Accounts.SaveThenLoad | yogi-account-manager/src/accounts/FileAccountProvider.cc:19-110 | saving and loading gives the same accounts, for every map with clean strings, also an empty one, also with empty group sets, whatever had been loaded before |
| AccountEscapes.ScanSays | yogi-account-manager/src/accounts/FileAccountProvider.cc:71-79 | a string literal says its content, or, if that needs escapes, something shorter |
| AccountEscapes.TextComesFromLiteral | yogi-account-manager/src/accounts/FileAccountProvider.cc:26 | every string read from a text stands in it as a literal |
| AccountEscapes.DocumentTame | yogi-account-manager/src/accounts/FileAccountProvider.cc:65-95 | whatever the strings contain, the literals in the printed lines are clean or no longer than the longest unclean string |
| AccountEscapes.UncleanIsLost | yogi-account-manager/src/accounts/FileAccountProvider.cc:19-110 | accounts with a quotation mark, backslash or control character in any string are never loaded as they were saved, even if the text is valid |
| AccountEscapes.SaveThenLoadIff | yogi-account-manager/src/accounts/FileAccountProvider.cc:19-110 | for every account map, saving and loading gives it back if and only if no string in it has such a character |
| Signatures.LowerReadsTwelveBits | yogi-javascript/src/signature.js:71-158 | the unmasked lower half reads like the low twelve bits alone |
| Signatures.FieldsOfHalf | yogi-javascript/src/signature.js:80-158 | where the bits of the two types, list and timestamp are, and which combinations are reserved |
| Signatures.UpperIsAbove | yogi-javascript/src/signature.js:165-166 | the upper half is above the twelve bits of the lower one |
| Signatures.MakeMessageDefinition | yogi-javascript/src/signature.js:300-334 | appending line by line gives the definition whose meaning DefinitionTellsLayout states; the value's line is packed exactly for lists of anything but pairs, strings, JSON and binary data |
| Signatures.ScalarExamples | yogi-javascript/src/signature.js:317-328 | a plain value, a packed and an unpacked list, written out |
| Signatures.PairExample | yogi-javascript/src/signature.js:305-319 | a timestamped list of pairs, written out |
| Signatures.TimestampExample | yogi-javascript/src/signature.js:313-315 | a timestamp alone, written out |
| Signatures.MakeProtoFile | yogi-javascript/src/signature.js:238-278 | throws exactly for custom and reserved signatures, and defines the five messages each from its own half |
| Signatures.TypesAreDeclared | yogi-javascript/src/signature.js:258-278 | no accepted signature has an invalid type, and Tribool is declared exactly when a definition mentions it |
| Signatures.LayoutComesFromHalf | yogi-javascript/src/message-factory.js:61-70 | scatter and master messages have the upper half's layout, publish, slave and gather messages the lower half's |
| Signatures.TypesThatCollapse | yogi-javascript/src/signature.js:50-69 | two primitive types have one proto type if and only if they are the same, or among int8, int16 and int32, or uint8, uint16 and uint32, or uint64 and timestamp, or string and JSON |
| Signatures.DefinitionTellsLayout | yogi-javascript/src/signature.js:300-334 | two halves get the same definition if and only if they agree in timestamp, list, pair and the proto types of both places |
| Signatures.MessageFactory.CreateMessageClass | yogi-javascript/src/message-factory.js:47-70 | the cached creation: hit, miss, rejection, and the new cache |
| Signatures.CacheIsGood | yogi-javascript/src/message-factory.js:52-56 | after any history, each cached class has the layout of its key's twelve bits, whichever signature and half it was made for |
| Signatures.CacheIsTransparent | yogi-javascript/src/message-factory.js:47-59 | after any history, a signature that represents a message gets the layout an uncached build gives |
| Signatures.CachedIffAskedFor | yogi-javascript/src/message-factory.js:47-59 | after any history a half is cached if and only if an earlier call asked for it as part of a signature that represents a message |
| Signatures.RejectedUnlessCached | yogi-javascript/src/message-factory.js:47-70 | any other signature is served if and only if it is not custom and there was such a call for its half |
| Signatures.ReservedSignatureIsServed | yogi-javascript/src/message-factory.js:52-56 | a reserved signature that is served after a good one has filled the cache |
| Signatures.CompatibleTerminalsAgree | yogi-javascript/src/terminals.js:467-637 | for compatible terminals, each with a cache of its own, what one sends has the layout the other decodes, and so have the answers |
| Observers.Observer.Start | yogi-cpp/yogi/observers.cpp:38-47 | start throws inside a handler, else arms one operation unless the observer runs |
| Observers.Observer.RaiseStop | yogi-cpp/yogi/observers.cpp:51-54 | stop throws inside a handler, else raises its flag and changes nothing else |
| Observers.Observer.HandleChange | yogi-cpp/yogi/observers.hpp:46-59 | the handler ends the observer on failure or stop, else re-arms before it notifies |
| Observers.Observer.CallbackReturns | yogi-cpp/yogi/observers.hpp:57-58 | a step: the callback is over, nothing else changes |
| Observers.RunInv | yogi-cpp/yogi/observers.hpp:46-59 | in every interleaving the observer runs exactly while one operation is armed or one completion waits |
| Observers.QuietAfterStop | yogi-cpp/yogi/observers.cpp:49-64 | once stop has returned no callback runs and none is delivered before the next start |
| Observers.NotifiesAfterStart | yogi-cpp/yogi/observers.cpp:38-47 | an observer started from rest and not stopped since notifies on every successful completion, and re-arms |
| Observers.StopHolds | yogi-cpp/yogi/observers.cpp:49-54 | the flag stop raises stays up, and silences completions, until a start from rest |
| Observers.RestartAfterFailure | yogi-cpp/yogi/observers.hpp:49-53 | a failed completion ends the observer, and a start arms it again |
| Observers.CallbackIsLeftAlone | yogi-cpp/yogi/observers.cpp:27-36 | inside a callback start and stop throw and change nothing |
| Observers.StopEnds | yogi-cpp/yogi/observers.cpp:49-64 | the spinning loop ends: the operation or its handler can always move, every move comes closer to the end, nothing moves away |
| Anomalies.ProcessInterface.SetTime | yogi-cpp/yogi/process.cpp:586-590 | set without a duration: never expires, visible before the mutex is taken |
| Anomalies.ProcessInterface.SetTimeFor | yogi-cpp/yogi/process.cpp:592-596 | set with a duration: expires that much later than now |
| Anomalies.ProcessInterface.SetAnomaly | yogi-cpp/yogi/process.cpp:332-349 | a step of the machine: appended once, published if new, the thread notified in any case |
| Anomalies.ProcessInterface.ClearAnomaly | yogi-cpp/yogi/process.cpp:351-364 | a step: that anomaly alone is taken out, its kind republished, the thread notified |
| Anomalies.ProcessInterface.EraseExpired | yogi-cpp/yogi/process.cpp:85-110 | the erase-while-iterating loop keeps the unexpired in order, tells which kinds have lost one, and the next expiration |
| Anomalies.ProcessInterface.UpdateActiveAnomalies | yogi-cpp/yogi/process.cpp:69-121 | a step: what a pass erases and republishes, and the deadline of the wait that follows |
| Anomalies.PassKeepsLater | yogi-cpp/yogi/process.cpp:91-110 | a pass removes exactly the anomalies whose expiration time is not later than now |
| Anomalies.NothingExpired | yogi-cpp/yogi/process.cpp:112-118 | not republishing a kind of which nothing expired is right |
| Anomalies.RunInv | yogi-cpp/yogi/process.cpp:69-139 | in every interleaving, with times assigned outside the mutex and spurious wakeups: no duplicates, published lists equal the active messages in activation order, a sleeping thread's deadline is never later than an active expiration unless a notification is due |
| Anomalies.InActivationOrder | yogi-cpp/yogi/process.cpp:332-349 | in every run the active anomalies are in the order of their last activations |
| Anomalies.MessagesInOrder | yogi-cpp/yogi/process.cpp:127-131 | the published messages of a kind are those of the parts of the list, in order |
| Anomalies.MessageOfOne | yogi-cpp/yogi/process.cpp:127-131 | an anomaly has its message among those of its kind only |
| Anomalies.ActiveAfter | yogi-cpp/yogi/process.cpp:332-364 | what each step does to any one anomaly: set, cleared, expired, or left as it was |
| Anomalies.DeadlineIsNeeded | yogi-cpp/yogi/process.cpp:69-81 | a deadline nobody will cancel is the expiration time of an active anomaly, or of one just being set again |
| Anomalies.ExpiryIsNoticed | yogi-cpp/yogi/process.cpp:69-81 | an anomaly active past its time has the thread awake, notified or past its deadline, or is being set again |
| Anomalies.NothingExpiredAfterPass | yogi-cpp/yogi/process.cpp:83-121 | after any pass of any run just the unexpired anomalies are left |
| Operational.ProcessInterface.UpdateOperationalState | yogi-cpp/yogi/process.cpp:141-163 | stopping at the first unmet condition and calling the observers one by one amounts to the atomic update on values |
| Operational.ProcessInterface.AddOperationalCondition | yogi-cpp/yogi/process.cpp:366-377 | a step of the machine: a new condition is not met, so the state becomes false |
| Operational.ProcessInterface.RemoveOperationalCondition | yogi-cpp/yogi/process.cpp:379-392 | a step of the machine: that condition alone leaves |
| Operational.ProcessInterface.FlipCondition | yogi-cpp/yogi/process.cpp:627-643 | a step: only a flag that changes leads to a notification |
| Operational.ProcessInterface.NotifyOperationalConditionChange | yogi-cpp/yogi/process.cpp:394-403 | a step: the notification updates the state to whatever the flags are by then |
| Operational.ProcessInterface.AddOperationalObserver | yogi-cpp/yogi/process.cpp:480-485 | a step: a new or replaced callback is called with the stored state at once |
| Operational.ProcessInterface.RemoveOperationalObserver | yogi-cpp/yogi/process.cpp:487-491 | a step: that callback alone is removed |
| Operational.RunInv | yogi-cpp/yogi/process.cpp:141-170 | published values alternate starting with true, and every observer has received exactly what was published since it registered |
| Operational.ConditionsFromEvents | yogi-cpp/yogi/process.cpp:366-392 | the registered conditions are those constructed and not destroyed since |
| Operational.FlagsFromEvents | yogi-cpp/yogi/process.cpp:613-643 | a flag is false from construction on, then what it was last set to |
| Operational.ObserversFromEvents | yogi-cpp/yogi/process.cpp:480-491 | the observers are those added and not removed since |
| Operational.OperationalIsConjunction | yogi-cpp/yogi/process.cpp:366-403 | with no notification outstanding the process is operational exactly when every registered condition was last set |
| Operational.EveryoneIsUpToDate | yogi-cpp/yogi/process.cpp:480-491 | at all times the last published value and every observer's last value are the stored state, and no observer is told a state twice |
| Operational.StaleBetweenTheSteps | yogi-cpp/yogi/process.cpp:627-634 | a run whose state is not the conjunction because a notification is outstanding |
| Dependency.Dependency.OnStateChanged | yogi-cpp/yogi/process.hpp:165-176 | the unsigned counter is (not ready now) - (ready at first) modulo 2^64 after every report, and the condition is set while it is 0 |
| Dependency.OneReport | yogi-cpp/yogi/process.hpp:169 | a report moves that difference by one, first report or later |
| Dependency.CountsNotReadyIff | yogi-cpp/yogi/process.hpp:165-176 | the counter is the number of observers not ready if and only if none was ready at first |
| Dependency.MetIffBalanced | yogi-cpp/yogi/process.hpp:165-176 | after any reports the condition is met if and only if as many observers are not ready now as were ready at first |
| Dependency.MetIffAllReady | yogi-cpp/yogi/process.hpp:228 | once all have reported: it is met exactly when all are ready, whatever they report from then on, if and only if none of them was ready at first |
| Dependency.ReadyFromTheStart | yogi-cpp/yogi/process.hpp:228 | one observer ready from the start: unmet while ready, met when not |
| ServiceLoop.StatusAfterSignals | yogi-supervisor/src/Command.cc:221-232 | for every sequence of kills and timeouts: killed if and only if killed and not timed out, timed out if and only if a signal ended it after a timeout, cancelled if and only if the signal came from elsewhere |
| ServiceLoop.FailedFork | yogi-supervisor/src/Command.cc:78-85 | a failed fork completes as startup failure, whoever kills the command |
| ServiceLoop.ReapedIsLeftAlone | yogi-supervisor/src/Command.cc:238-289 | a child that has been reaped is not killed any more |
| ServiceLoop.Command.OnChildTerminated | yogi-supervisor/src/Command.cc:205-254 | the exit status for every combination of killed, timed out, exited and signaled |
| ServiceLoop.Command.Kill | yogi-supervisor/src/Command.cc:275-289 | marks a command whose child is there, also one whose fork failed |
| ServiceLoop.Command.OnTimeout | yogi-supervisor/src/Command.cc:266-272 | a timeout also marks the command as killed |
| ServiceLoop.Service.OnChildTerminated | yogi-supervisor/src/Command.cc:205-254 | a step of the machine: that run completes, all other runs and the timer are left alone |
| ServiceLoop.Service.OnWatchedFileChanged | yogi-supervisor/src/Service.cc:24-29 | a step of the machine: the current command is killed, a new one runs |
| ServiceLoop.Service.OnExecutionCommandFinished | yogi-supervisor/src/Service.cc:44-60 | a step: anything but a kill arms the timer, given a finite delay |
| ServiceLoop.Service.OnRestartTimerTimedOut | yogi-supervisor/src/Service.cc:62-65 | a step: an expiration already queued runs the command even if the timer was armed again |
| ServiceLoop.OneStep | yogi-supervisor/src/Service.cc:19-65 | a late file change adds one to unkilled commands and pending restarts, a completion that meets an armed timer or an infinite delay takes one away, every other event keeps their number |
| ServiceLoop.ServiceKeepsGoing | yogi-supervisor/src/Service.cc:19-65 | over every run that number is 1 + late changes - dropped completions, and with a finite delay never 0 |
| ServiceLoop.OneCommandAtATimeIff | yogi-supervisor/src/Service.cc:24-29 | with a finite delay it is 1 throughout a run if and only if no file change of the run is late, that is, finds the current command not running or killed |
| ServiceLoop.OneCommandAtATime | yogi-supervisor/src/Service.cc:24-29 | so without late changes there are never two unkilled commands |
| ServiceLoop.LateChangeRunsTwo | yogi-supervisor/src/Service.cc:24-29 | a run with two unkilled commands after a late change |
| ServiceLoop.InfiniteDelayEnds | yogi-supervisor/src/ExecutionUnit.cc:208-219 | in every run with an infinite delay the timer never runs, no command is run unless a file changes, and none comes back once no unkilled one is left |
| Paths.ConstructorMakesValid | yogi-cpp/yogi/path.cpp:9-35 | throws exactly on a double slash; otherwise no double slash, no trailing slash unless root; valid paths are left alone |
| Paths.PathIsItsSegments | yogi-cpp/yogi/path.cpp:27-35 | a valid path is determined by its names and by whether it is absolute |
| Paths.DivideJoinsSegments | yogi-cpp/yogi/path.cpp:77-89 | joining valid paths throws exactly when the second is absolute, gives a valid path, and joins the lists of names |
| Paths.DivideAssociatesIff | yogi-cpp/yogi/path.cpp:77-89 | joining is associative, errors included, if and only if the middle path is not empty or the last is absolute |
| Paths.Path.Assign | yogi-cpp/yogi/path.cpp:27-35 | the constructor's search and its pop of the trailing slash |
| Paths.Path.DivideAssign | yogi-cpp/yogi/path.cpp:96-100 | joins in place, keeps the path valid, and leaves it alone when it throws |
| Paths.Path.Clear | yogi-cpp/yogi/path.cpp:52-55 | the cleared path is the empty one |
| SessionNames.SessionFactory.MakeNameSuffix | yogi-account-manager/src/sessions/Session.cc:40-54 | the 32-bit counter of that username alone goes up, and the tag and its number make the suffix |
| SessionNames.SessionFactory.CreateSession | yogi-account-manager/src/sessions/Session.cc:9-15 | every session is named by its number in its account modulo 2^32, through a counter per username |
| SessionNames.NamesCollideIff | yogi-account-manager/src/sessions/Session.cc:40-54 | two names are equal if and only if their numbers and everything before are |
| SessionNames.FirstSession | yogi-account-manager/src/sessions/Session.cc:46-53 | the first session of an account has the number 1, behind the username and the tag, if any |
| SessionNames.DecimalExample | yogi-account-manager/src/sessions/Session.cc:48-53 | numbers are decimal, most significant digit first |
| SessionNames.OneAccountCollidesIff | yogi-account-manager/src/sessions/Session.cc:40-54 | two sessions of an account share a name if and only if they share the tag and 2^32 divides the difference of their numbers |
| SessionNames.OneAccountDistinct | yogi-account-manager/src/sessions/Session.cc:86-90 | with fewer than 2^32 sessions no two of an account share a name, whatever their tags |
| SessionNames.AccountsCollideIff | yogi-account-manager/src/sessions/Session.cc:9-15 | some sessions of two accounts share a name in some history if and only if one username is the other followed by `-` and anything |
| SessionNames.FirstSessionsCollide | yogi-account-manager/src/sessions/Session.cc:40-54 | for every such pair of usernames, a tag with which their first sessions share a name |
| SessionNames.AllDistinct | yogi-account-manager/src/sessions/Session.cc:86-90 | without such a pair, and with fewer than 2^32 sessions of each account, no two sessions at all share a name |
| SessionNames.DashesCollide | yogi-account-manager/src/sessions/Session.cc:13 | two sessions of two accounts that share a name, and so a storage section |

## Left out

- The routing core (leafs, nodes, bindings, scatter-gather logic), terminals, binders, schedulers, loggers and the user interface.
- Sockets, fork, pipes, inotify, signals and timers appear as events; `std::regex`, `boost::property_tree`, `boost::replace_all` and Protocol Buffers are modelled by what their documentation says, not by their code.
- FileAccounts.FileAccountProvider.LoadAccounts: works on the text of the file; opening and writing the file are not part of this model. Text is a sequence of Unicode code points, so strings that are no valid UTF-8 are outside; a truth value may be written true, false, 1 or 0.
- TemplateMeaning.ExtractedIsExpanded: is about values in which `$`, `{` and `}` occur in references only; Templates.ExtractConstants covers all others as text.
- HubSession.Session.HandleOne: which responses a parser and which notifications a handler throws on is a parameter; what the handlers do otherwise is to record the message.
- HubSession.Session.OnSocketClosed: the pending DNS queries, which the source iterates as map entries, are not modelled.
- HubProtocol.RunInv: assumes a hub that answers each request once and in order, with messages shorter than 2^32 bytes; after close() no more batches are handled.
- KnownTerminals.GetKnownTerminals: the node's list does not change between two rounds, and names have no NUL in them; memory is a number of bytes, so std::bad_alloc is an outcome.
- TerminalListParser.ParseKnownTerminals: runs a given number of rounds, because the loop need not end; how much memory or how long an argument list the engine allows is not modelled.
- The subtree response of the known terminals has a parser of its own, which would repeat the same argument.
- Signatures.MessageFactory.CreateMessageClass: a class is its half and its definition's lines; what Protocol Buffers makes of them is not modelled. A custom signature has no halves, so the source throws on it.
- Reconnect.RunInv: start is called from one thread and the thread's first wait ends only when notified; the observers called by the handlers, and messages logged, are left out.
- Observers.RunInv: operations complete asynchronously; one that completes inside start is not covered.
- Anomalies.RunInv: an expiration time is assigned in one step, although the source writes it without the mutex.
- Operational.RunInv: a flag is written in one step, and a condition's constructor registers it in the step that clears its flag.
- Dependency.Dependency.OnStateChanged: each observer is assumed to report changes only, after its first report.
- ServiceLoop.ServiceKeepsGoing: covers services, whose commands have no timeout; the lifetime of command objects, output pipes, log files, the startup command and a failing kill, whose retry has no effect, are left out.
- Device groups, whose list of active timers is never filled, and durations, where -1 is compared after scaling, are left out.
- Watching directories for events, and the loop over them, is left out.
