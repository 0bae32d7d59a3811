# Karna: a Dafny model of its matcher, protocols and parsers

Karna is a WAF plugin for Kong with an operator console. This project models the parts
of it whose correctness is a statement about every input or every run, in the form the
program has them: the C matcher and the Python and JavaScript objects are classes and
methods with loops that update their fields, proved against specification functions;
what the program promises is then proved about those functions.

| module | part of the program |
|---|---|
| `Bytes`, `Suffixes`, `Bitmap`, `Trie`, `BreadthFirst`, `AhoCorasick` | the multi-pattern matcher, `src/libka_ac` |
| `Actions`, `ActionHandlers` | writes proposed by the model, waiting for authorization |
| `Proposals`, `ProposalHandlers` | typed proposals, which go back to pending when applying fails |
| `Transcript`, `Messages` | the tool loop's transcript, its trimming and its conversion to provider messages |
| `Ingest`, `Ingester` | the audit log ingester |
| `Resp`, `RespErrors`, `Connection`, `RedisClient` | the RESP2 client |
| `Envelope` | the stream filter and the decoder of the proposal envelope |
| `Framing` | the bounded line splitter and the NDJSON reader |
| `ToolCalls`, `CallList` | tool calls assembled from fragments |
| `JsonScan` | the JSON editor's cursor scanner |
| `Throttle`, `Base64`, `Sessions` | the sign-in lockout and session tokens |
| `Inventory` | the Kong inventory cache |
| `Exclusions`, `FreeText`, `ExclusionBuilder`, `FieldExclusions` | rule exclusions and the guided builder |
| `Lines`, `Text`, `Wrappers` | cutting at separators, stripping, `Option` and `Result` |

## How things are modelled

- **Matcher.** A node is a value of the node table; the table, the queue and the bitmap are
  updated in place. Each node has a ghost word, its path from the root. An automaton is
  valid when its goto table is total, each failure link is the node of the longest proper
  suffix of the node's word, and each match list holds, once each, exactly the patterns that
  are suffixes of that word. Allocation succeeds and sizes fit.
- **Actions and proposals.** The stored rows move by compare-and-set. A request is a
  sequence of atomic steps (checks, claim, execution, recording), interleaved with those of
  any other requests, with new messages, deletions, crashes and the passing of time between
  any two of them. A ghost history per row, which outlives deletion, says what happened to
  it and, for a claim, when it was made, when its request had read the row and how much had
  happened by then. What the user typed, digests read from Kong and the outcome of a Kong
  call are parameters. What a row says (status, result, error) is proved to be exactly what its
  history says, outcomes of the calls included. Each handler states outright which row, request and
  history it changes and how, beside the step that it refines.
- **Transcript.** The model's turns and the console's decision on each call are inputs of
  the loop; rounds are completed and do not overlap.
- **Ingester.** Files are growing octet sequences, and a pass is a sequence of steps that
  can die anywhere. Whether a line is blank, is valid UTF-8 and parses to a record are
  functions of the line (`Codec`). What the writer promises is explicit: a file that is closed
  gets no further writes, and a line being written never reads as a record other than the
  one it ends up being (`Clean`). Nothing is pruned.
- **Parsers.** The pieces in which the input arrives are a sequence; each parser's result is
  stated as a function of their concatenation alone. JSON decoding and printing are functions
  given as parameters. `JsonScan` has its own grammar of documents, which contains every
  document of RFC 8259 (sections 2, 4, 5 and 7) and more: anything but the structural
  characters and quotes passes for a scalar or white space, and a backslash may escape any
  character.
- **Sessions.** The HMAC and the JSON codec of the payload are functions given as parameters;
  only that the payload reads back is assumed (`ReadsBack`).
- **Throttle.** Times are reals, and attempts are made one after another.

## What turned out to be false

- **The ten minutes of a proposal.** A proposal expires "the first time it is read or applied",
  but only while it is pending, and the claim does not look at the clock again.
  `Proposals.LateClaims` shows, over every run, that there are exactly two ways to claim it after
  its ten minutes: a request read it too late while another one was applying it, and that one
  gave it back afterwards (`Proposals.LateSuccess`); or a request read it in time and let the
  limit pass before its claim, as it can while it waits for the name of the service
  (`Proposals.LateAfterCheck`). For actions only the second is possible: a claim is late exactly when
  the time let pass between a request's check and its claim exceeds what the check had left
  (`Actions.LateOnlyAfterCheck`; `Actions.LateAfterCheck` is such a run). The handler awaits nothing
  between the two, but its claim needs the store's lock, which an ingestion pass holds while it
  reads a whole file. If no time passes there, no claim is late (`Actions.ClaimedInTime`).
- **Ingested counts.** With no pass running, the returned counts add up to the rows stored
  exactly when no crash found a pass that had stored some (`Ingest.CountsAddUp`,
  `Ingest.CrashLosesCount`). The rows themselves are never lost.
- **Stream and stored answer.** The stored answer is the streamed text, stripped, exactly when there
  is no marker, or the text ends in a proper envelope with something visible before it
  (`Envelope.StreamAgreesWithAnswer`). An unclosed marker hides the rest of the stream, but the stored
  answer keeps it (`Envelope.UnclosedMarkerDiffers`, `Envelope.BareMarkerDiffers`); and for an answer that is
  only an envelope nothing is shown, but a sentence of the console is stored
  (`Envelope.BareEnvelopeDiffers`). The texts before that sentence is put in are equal after stripping
  exactly when there is no marker or a proper envelope (`Envelope.StreamAgrees`).
- **The line limit.** A body passes however it is cut exactly when no line of it is over the limit
  (`Framing.EveryCutPasses`). Some cut of it passes exactly when what follows its last newline is
  within the limit, whatever the other lines are (`Framing.RefusalDependsOnCut`).
- **The controls of a field exclusion.** Names are free text that is written into a field and
  read back, where a comma or a newline cuts a name in two and outer white space is lost. The
  controls are the cross product of what is read back (`FieldExclusions.BuilderCross`). They are
  without repeats exactly when no two targets read back become one by clipping or completion, or
  no selector is read back (`FieldExclusions.BuilderDistinct`). They are those of the chosen values
  exactly when every selector is canonical and the targets survive the writing and reading, or there
  is nothing to cross (`FieldExclusions.BuiltAsChosen`). Targets survive when they stand for the same
  parts of a request before and after. Without separators they always do
  (`FieldExclusions.UnseparatedSurvive`); a separator within the first 240 characters of one prevents it
  (`FieldExclusions.SurvivorsUnseparated`); one after them, which clipping cuts off, is decided by what the
  pieces behind it read as. Targets too short to be clipped survive exactly when none holds a
  separator (`FieldExclusions.ShortBuiltAsChosen`). Both fail for the parameters `x,a` and `a`
  (`FieldExclusions.CommaRepeats`, `FieldExclusions.CommaDiffers`); the first also for two names that differ
  after their 222nd character (`FieldExclusions.LongNamesRepeat`).
- **Negative bulk lengths.** A bulk length below -1 is not refused by the client; the slices it
  takes count from the end of what has already arrived. The value depends on the cut exactly when
  more bytes follow than the length counts back (`Connection.ValueDependsOnCut`), and the bytes left
  exactly when the length is below -2 and enough bytes follow (`Connection.RestDependsOnCut`);
  `Connection.MinusTwo` is an instance of the first. The decoder calls this `Unsettled`.

## Model

| member | source | states |
|---|---|---|
| AhoCorasick.Scan | src/libka_ac/ka_ac.c:175-195 | for any patterns and any text, bit p is set exactly if it was before or pattern p occurs in the text, letter by letter the same or the same but for ASCII case; the error codes; a refused call leaves the bitmap alone |
| AhoCorasick.MatchAny | src/libka_ac/ka_ac.c:197-212 | returns 1 exactly when some pattern occurs in the text, with the same notion of occurrence as the full scan |
| AhoCorasick.Build | src/libka_ac/ka_ac.c:81-157 | refuses exactly a null array, a null pattern or an empty one; otherwise the result is a valid automaton of these patterns |
| AhoCorasick.Automaton.constructor | src/libka_ac/ka_ac.c:87-92 | the root alone is the trie of no patterns |
| AhoCorasick.Automaton.Insert | src/libka_ac/ka_ac.c:95-109 | inserting a pattern gives the trie of one more pattern, with no paths but its prefixes added |
| AhoCorasick.Automaton.AllocNode | src/libka_ac/ka_ac.c:63-79 | a new node at the end of the table, the others untouched |
| AhoCorasick.Automaton.AddMatch | src/libka_ac/ka_ac.c:50-60 | one id appended to one node's list, nothing else changed |
| AhoCorasick.Automaton.MergeMatches | src/libka_ac/ka_ac.c:143-151 | the failure target's list appended in order, only this node changed |
| AhoCorasick.Automaton.LinkRoot | src/libka_ac/ka_ac.c:116-125 | the root's row is completed and exactly its children are queued |
| AhoCorasick.Automaton.VisitNode | src/libka_ac/ka_ac.c:129-155 | one iteration keeps the breadth-first invariant and never overflows the queue |
| AhoCorasick.Automaton.Link | src/libka_ac/ka_ac.c:111-156 | the loop ends and turns the trie into an automaton |
| AhoCorasick.RunIsLongestSuffix | src/libka_ac/ka_ac.c:180-185 | after any text prefix the state is that prefix's longest suffix that is a path of the trie |
| AhoCorasick.EmittedHere | src/libka_ac/ka_ac.c:185-191 | the match list of the state after e bytes holds exactly the patterns that end there |
| AhoCorasick.CaseBit | src/libka_ac/ka_ac.c:30-32 | setting bit 5 of an upper-case letter adds 0x20 |
| AhoCorasick.FoldsCase | src/libka_ac/ka_ac.c:30-32 | two bytes fold to the same one exactly when they are equal or the two cases of one ASCII letter |
| Bitmap.SetBit | src/libka_ac/ka_ac.c:189-190 | sets one bit of the bitmap and no other |
| Suffixes.LongestSuffixStep | src/libka_ac/ka_ac.c:132-137 | the longest suffix after one more byte is that of the longest suffix before, extended by it |
| Trie.GrowTrie | src/libka_ac/ka_ac.c:101-105 | a new child keeps the table a trie with distinct, prefix-closed words |
| Trie.RecordTrie | src/libka_ac/ka_ac.c:108 | recording an id keeps each list equal to the patterns ending at the node |
| Trie.MergeEmits | src/libka_ac/ka_ac.c:141-151 | own list plus the failure target's list is all patterns that are suffixes of the word, without repeats |
| Trie.CellKeepsLinking | src/libka_ac/ka_ac.c:132-153 | one cell of the loop keeps goto rows, queue, failure links and match lists as they should be |
| BreadthFirst.FailIsDone | src/libka_ac/ka_ac.c:127-137 | breadth-first order: the failure target of a dequeued node has a completed row |
| BreadthFirst.TargetIsGood | src/libka_ac/ka_ac.c:135-140 | the failure node's cell is the node of the longest suffix wanted |
| BreadthFirst.QueueFits | src/libka_ac/ka_ac.c:112-114 | the queue never holds more than the non-root nodes, each once |
| BreadthFirst.Finished | src/libka_ac/ka_ac.c:129-157 | when the queue is empty every node was visited and the automaton is complete |
| Actions.RunsAtMostOnceAsReviewed | dashboard/api/app.py:1942-1994 | over every interleaving an action that is carried out is so once, never after a refusal, by a request that read it within its limit, with the confirmation typed back if it has risks, with the very arguments reviewed, and with the entity at the digest reviewed |
| Actions.OutcomeIsTold | dashboard/api/app.py:1942-1994 | over every interleaving, for every stored action: executed exactly when it ran with a result and that was recorded, which is its result; failed exactly when it ran with an error or was stopped by what was read and that was recorded, with the first 500 characters of the detail and no result; executing, rejected, expired and pending likewise |
| Actions.LateOnlyAfterCheck | dashboard/api/app.py:1945-1964 | over every schedule a claim rests on an earlier check of the same request, made in time, and is late exactly when the time let pass between the two exceeds what the check had left |
| Actions.LateAfterCheck | dashboard/api/app.py:1945-1964 | a run whose claim is held up: the action is run after its limit |
| Actions.ClaimedInTime | dashboard/api/app.py:1945-1964 | in every run in which no time passes between checks and claim, nothing is claimed after its limit |
| Actions.StepKeepsInv | dashboard/api/store.py:773-797 | every step keeps the protocol's invariant: rows agree with histories, at most one holder per action |
| Actions.StepMovesStatus | dashboard/api/store.py:773-797 | statuses only go pending to executing, rejected or expired, and executing to executed or failed; the reviewed content never changes |
| Actions.FinalIsClosed | dashboard/api/app.py:1942-1994 | once the status is final no request holds the action |
| Actions.ClosedForGood | dashboard/api/app.py:1942-1994 | whatever follows, a final status stays and the action is never run or refused again |
| ActionHandlers.ActionStore.Transition | dashboard/api/store.py:773-784 | compare-and-set: writes only on the expected status, keeps the result when none is given, answers the row or nothing |
| ActionHandlers.ActionStore.ExpirePending | dashboard/api/store.py:787-797 | expires exactly the conversation's pending actions and returns them as they were |
| ActionHandlers.ActionStore.Delete | dashboard/api/store.py:800-813 | removes exactly the conversation's actions |
| ActionHandlers.Console.Propose | dashboard/api/store.py:749-763 | a new action starts pending, with no result or error |
| ActionHandlers.Console.BeginAuthorize | dashboard/api/app.py:1945-1961 | the checks before the claim: exactly when each of 404, 410 and 428 is answered and the request goes on (409 is the rest), what it then holds, and that only 410 changes the row, to expired |
| ActionHandlers.Console.ClaimAction | dashboard/api/app.py:1962-1964 | the claim succeeds exactly on a pending action, moves only its status, and is noted with the time; otherwise nothing changes but the request |
| ActionHandlers.Console.ExecuteAction | dashboard/api/app.py:1809-1840 | carried out exactly when no digest was reviewed or the entity is read with that digest; otherwise stopped, with the text of its obstacle; noted with what was read and what came of it |
| ActionHandlers.Console.RecordOutcome | dashboard/api/app.py:1965-1979 | an executing row becomes executed with the result and no error, or failed with the detail cut at 500 characters and the result kept; no other row changes, and the row is answered as recorded |
| ActionHandlers.Console.RejectAction | dashboard/api/app.py:1982-1994 | exactly a pending action is rejected, and nothing else changes; its codes |
| ActionHandlers.Console.UserMessage | dashboard/api/app.py:2031-2036 | exactly the conversation's pending actions expire, and are handed back as they were |
| ActionHandlers.Console.DeleteConversation | dashboard/api/store.py:800-813 | refines the deletion step |
| Proposals.AppliesAtMostOnce | dashboard/api/app.py:2141-2204 | over every interleaving a proposal succeeds at most once and nothing follows but its record; the success is of the operation reviewed by the claim just before it, with the service name typed back if it is risky and the entity at the digest reviewed; at most one holder at any time |
| Proposals.OutcomeIsTold | dashboard/api/app.py:2141-2204 | over every interleaving, for every stored proposal: status and error are exactly those of the last thing that happened to it; applied exactly when Kong accepted it and that was recorded, and applying until it is |
| Proposals.StepKeepsInv | dashboard/api/app.py:2141-2204 | every step keeps the invariant, releases after a failure included |
| Proposals.FinalIsClosed | dashboard/api/app.py:2141-2204 | once applied, rejected or expired, no request holds the proposal |
| Proposals.ClosedForGood | dashboard/api/app.py:2141-2204 | applied, rejected and expired are never left, whatever follows |
| Proposals.LateClaims | dashboard/api/app.py:1534-1545 | over every interleaving a claim is late exactly when its request read the row too late while another was applying it, which gave it back afterwards, or read it in time and waited |
| Proposals.LateSuccess | dashboard/api/app.py:1534-1545 | a run of the first kind that applies a proposal long after its ten minutes |
| Proposals.LateAfterCheck | dashboard/api/app.py:2147-2159 | a run of the second kind that does |
| ProposalHandlers.Console.Transition | dashboard/api/store.py:691-701 | compare-and-set on proposals, which overwrites the error |
| ProposalHandlers.Console.ReadProposal | dashboard/api/app.py:1534-1545 | a pending proposal over its ten minutes expires when it is read, and nothing else changes |
| ProposalHandlers.Console.BeginApply | dashboard/api/app.py:2144-2156 | exactly when each of 404, 410, 503 and 428 is answered and the request goes on, what it then holds, and that nothing but an overdue row changes |
| ProposalHandlers.Console.ClaimProposal | dashboard/api/app.py:2157-2159 | the claim succeeds exactly on a pending proposal, moves only its status and error, and is noted with the time |
| ProposalHandlers.Console.CheckEntity | dashboard/api/app.py:2160-2170 | given back when Kong is unreachable, expired when the configuration changed, each with its code and text; otherwise the request goes on with the digest read |
| ProposalHandlers.Console.ExecuteProposal | dashboard/api/app.py:2171-2185 | success is noted with the operation and the digest; a failure gives the row back with its detail cut at 500 characters |
| ProposalHandlers.Console.RecordApplied | dashboard/api/app.py:2186 | an applying row becomes applied without an error, and is answered as recorded |
| ProposalHandlers.Console.RejectProposal | dashboard/api/app.py:2193-2204 | exactly a pending proposal is rejected, and nothing else changes; its codes |
| Ingest.NothingLost | dashboard/api/store.py:266-355 | over every schedule, of a file that is gone every valid record is stored, under its request id or else its file and line; every row stored is the text of some record of the files with that id, or of that line; and rows equal returned plus lost plus pending counts |
| Ingest.KeysApart | dashboard/api/store.py:221-231 | two records have the same key exactly when they have the same request id, or neither has one and they are the same line of the same file |
| Ingest.RowsStay | dashboard/api/store.py:299-330 | a row once stored is never replaced or removed |
| Ingest.SameAsOnePass | dashboard/api/store.py:266-355 | once all files are removed the stored ids are those of one pass over the complete files |
| Ingest.OnePassKeys | dashboard/api/store.py:290-330 | what one pass over complete files stores: exactly the keys of their valid records |
| Ingest.CountsAddUp | dashboard/api/store.py:345-355 | with no pass running, the returned counts equal the rows exactly when no crash in the schedule found a pass that had stored rows |
| Ingest.LostByCrash | dashboard/api/store.py:345-355 | over every schedule a count is lost exactly when some crash found one |
| Ingest.CrashLosesCount | dashboard/api/store.py:345-355 | a concrete run in which a stored row is in no returned count |
| Ingest.StepKeepsInv | dashboard/api/store.py:290-354 | every step keeps the ingester's invariant |
| Ingest.InsertLinesKeys | dashboard/api/store.py:299-330 | the keys after reading lines: those before and those of the lines that give a row |
| Ingest.EarlyKeys | dashboard/api/store.py:271-274 | re-reading is harmless: a file read while still growing stores only keys of the complete file |
| Ingest.ClosedKeys | dashboard/api/store.py:312-330 | reading a closed file stores all its keys |
| Ingester.EventStore.StoreFile | dashboard/api/store.py:296-334 | the transaction of one file: exactly the rows of its records that were not there, the number added, and whether a line was bad |
| Ingester.EventStore.ReadFile | dashboard/api/store.py:290-354 | one file once it has been found: read and stored, removed when it is closed, or skipped when it cannot be read or has a bad line while open |
| Ingester.EventStore.IngestFile | dashboard/api/store.py:290-354 | one file of a pass refines its look, store and remove steps, and what that does to rows, files and counters is stated outright |
| Ingester.EventStore.IngestDir | dashboard/api/store.py:266-355 | a pass refines the run of its steps; its counts are the rows added, the files removed and those skipped, and only closed files that were read are removed |
| Transcript.TrimTranscript | dashboard/api/app.py:1847-1856 | the longest suffix within both limits that starts at a user item; a call is never split from its replies |
| Transcript.SizeAdds | dashboard/api/app.py:1843-1856 | the size that is limited is the sum of the items' sizes |
| Transcript.PairedFromUser | dashboard/api/app.py:1847-1856 | cutting at a user item keeps every call with its replies |
| Transcript.RoundIsPaired | dashboard/api/app.py:1876-1934 | a round is one assistant item and one reply per call, in order |
| Transcript.Conversation.HandleCall | dashboard/api/app.py:1886-1934 | one reply: of a blocked or read call its own text, of a write its own unless an earlier write of the turn was stored, and then the one-at-a-time text; the call is stored exactly when it is a write whose review passed and none waits |
| Transcript.Conversation.HandleCalls | dashboard/api/app.py:1885-1936 | one reply per call, in order, and what the turn stores |
| Transcript.StoredIsFirst | dashboard/api/app.py:1885-1936 | what a turn stores is the first write whose review passed, if there is one, and nothing else |
| Transcript.Conversation.TakeTurn | dashboard/api/app.py:1876-1936 | appends exactly the round's items |
| Transcript.Conversation.AgentRun | dashboard/api/app.py:1859-1939 | at most 10 rounds, whole rounds only, each with the assistant's item and for each call the text that answers it; how the run ended; one action exactly when it ended waiting, that of the last turn's first write whose review passed |
| Transcript.Conversation.Append | dashboard/api/store.py:705-717 | items are added at the end, in order |
| Messages.AnthropicMessages | dashboard/api/assistant_runtime.py:292-314 | the conversion that merges neighbours of the same role, in place |
| Messages.Extend | dashboard/api/assistant_runtime.py:295-301 | adds exactly these blocks, in order and under their role, after all the others, and keeps the roles alternating |
| Messages.ConvertKeepsBlocks | dashboard/api/assistant_runtime.py:292-314 | for any transcript, roles alternate, no message is empty, and all blocks are kept in order with their roles |
| Messages.ConvertSays | dashboard/api/assistant_runtime.py:292-314 | the messages say exactly what the transcript says, in order: each text under its author, each call with id, name and arguments, each result with its call's id |
| Messages.ResultsFollowCalls | dashboard/api/assistant_runtime.py:292-314 | every tool result is in the message right after its call, in call order, and no call is left without one |
| Messages.TrimmedConverts | dashboard/api/assistant_runtime.py:292-314 | all of this for a trimmed transcript, whose conversion starts with the user |
| Resp.ParseEncode | scripts/karna-rules.py:290-305 | decoding an encoded reply tree, nested and null ones included, gives that tree and leaves exactly the bytes that follow |
| Resp.CommandRoundTrip | scripts/karna-rules.py:264-270 | an encoded command decodes back to its arguments |
| Resp.DecimalRoundTrip | scripts/karna-rules.py:297-303 | a number written in decimal is read back, negative ones included |
| RespErrors.ErrorReply | scripts/karna-rules.py:295-296 | an error reply is reported with its own text |
| RespErrors.ErrorInArray | scripts/karna-rules.py:295-304 | an error among the elements of an array is the reply, whatever came before it |
| RespErrors.UnknownReply | scripts/karna-rules.py:305 | a line of no known type is reported as it is |
| RespErrors.BadNumberReply | scripts/karna-rules.py:297-303 | so is an integer or a length that is no number |
| RespErrors.NumeralsOnly | scripts/karna-rules.py:297-303 | a number is read exactly from digits with single underscores between them |
| RespErrors.UnderscoresIgnored | scripts/karna-rules.py:297-303 | and is that of the digits without them |
| RespErrors.CutReply | scripts/karna-rules.py:272-305 | of an encoded reply every proper prefix leaves the client waiting, and reads as closed when nothing follows |
| Connection.ReplyAgrees | scripts/karna-rules.py:272-305 | however the bytes arrive, the reply is the decoder's result on the whole stream, unless the decoder is undecided |
| Connection.NegativeBulk | scripts/karna-rules.py:281-301 | the exact value and rest for a bulk length below -1, from how many bytes came with the header |
| Connection.ValueDependsOnCut | scripts/karna-rules.py:281-301 | for such a length the value is the same for every cut exactly when no more bytes follow than it counts back |
| Connection.RestDependsOnCut | scripts/karna-rules.py:281-301 | and the bytes left are the same for every cut exactly when the length is -2 or too few bytes follow |
| Connection.MinusTwo | scripts/karna-rules.py:281-301 | two cuts of one stream that return different values |
| RedisClient.Client.Line | scripts/karna-rules.py:272-279 | however the socket cuts the bytes, the line up to the stream's first terminator |
| RedisClient.Client.Exactly | scripts/karna-rules.py:281-288 | exactly n bytes, and the two after them dropped, or closed |
| RedisClient.Client.Backwards | scripts/karna-rules.py:281-288 | what the two slices yield for a negative length: they count from the end of the buffer |
| RedisClient.Client.Reply | scripts/karna-rules.py:290-305 | the decoder's result on the whole stream, whatever the chunks, with exactly its rest left; for a bulk length below -1, what the chunks make of it |
| RedisClient.Client.Replies | scripts/karna-rules.py:304 | the same for n replies in a row |
| RedisClient.Client.Cmd | scripts/karna-rules.py:264-270 | sends exactly the encoded command, then reads its reply |
| RedisClient.Client.ReplyToEncoded | scripts/karna-rules.py:290-305 | for every error-free reply and every way of cutting it: that reply, and exactly the bytes after it |
| Envelope.ProposalStreamFilter.Feed | dashboard/api/assistant_runtime.py:51-64 | what has been shown and held back is the text, no marker in it, the held tail as long as can begin one; after a marker, what was before it |
| Envelope.ProposalStreamFilter.Finish | dashboard/api/assistant_runtime.py:66-70 | in all, the text before the first marker, or the whole text |
| Envelope.FilterAll | dashboard/api/assistant_runtime.py:43-70 | the same for every way of cutting the text |
| Envelope.MarkerIsFirst | dashboard/api/assistant_runtime.py:43-70 | text without a marker is all shown, and a marker after it hides what comes next |
| Envelope.SearchFinds | dashboard/api/assistant_runtime.py:40 | the pattern matches exactly when some marker ends in a proper envelope, and then from the first marker or its newline |
| Envelope.ProposalRead | dashboard/api/assistant_runtime.py:73-83 | for an answer that ends in an envelope the decoder is given exactly what is between the first marker and the last closing tag, its proposal is returned, and the answer is the text before, stripped, or else the sentence that a proposal was or was not made |
| Envelope.StreamAgreesWithAnswer | dashboard/api/assistant_runtime.py:43-83 | the stored answer is the stripped stream exactly when there is no marker, or a proper envelope with something visible before it; a decoded proposal implies an envelope |
| Envelope.StreamAgrees | dashboard/api/assistant_runtime.py:43-78 | the streamed text and the text before the envelope are equal after stripping exactly when there is no marker or a proper envelope |
| Envelope.UnclosedMarkerDiffers | dashboard/api/assistant_runtime.py:73-83 | with a marker and no closing tag the whole text is stored, and it is not what was shown |
| Envelope.BareMarkerDiffers | dashboard/api/assistant_runtime.py:73-83 | a bare marker: nothing is shown, and the marker is stored |
| Envelope.BareEnvelopeDiffers | dashboard/api/assistant_runtime.py:73-83 | a bare envelope: nothing is shown, and a sentence is stored |
| Framing.BoundedLines | dashboard/api/assistant_runtime.py:105-117 | refuses exactly when a read leaves a partial line over the limit; otherwise the lines of the whole body, and before a refusal the complete lines so far |
| Framing.TakeLines | dashboard/api/assistant_runtime.py:111-113 | the complete lines of the buffer in order, and what follows the last newline |
| Framing.TerminatedLines | dashboard/api/assistant_runtime.py:111-113 | lines written with a newline, any carriage returns in front of it, are read as they were written |
| Framing.EveryCutPasses | dashboard/api/assistant_runtime.py:105-117 | a body passes however it is cut exactly when every line of it is within the limit |
| Framing.RefusalDependsOnCut | dashboard/api/assistant_runtime.py:105-117 | some cut passes exactly when the end after the last newline is within the limit, and some cut is refused exactly when a line is over it |
| Framing.OneReadPasses | dashboard/api/assistant_runtime.py:110-115 | in one read, lines of any length pass |
| Framing.StreamNdjson | dashboard/web/src/data/api.js:55-84 | the events of the whole text's lines, once each and in order up to the first that does not parse, however it was cut |
| Framing.BadLineStops | dashboard/web/src/data/api.js:62-84 | lines are delivered up to the first that does not parse, which ends the delivery |
| Framing.BlankSkipped | dashboard/web/src/data/api.js:62-84 | a blank line makes no difference |
| Framing.ReadWritten | dashboard/web/src/data/api.js:55-84 | events written one a line are delivered, once each and in order, whatever the chunks |
| Framing.WrittenEvents | dashboard/api/app.py:2043-2044 | what the chat stream writes reads back as the same events |
| ToolCalls.SameProjections | dashboard/api/assistant_runtime.py:361-374 | only the order within each index matters |
| ToolCalls.FragmentsAssemble | dashboard/api/assistant_runtime.py:361-374 | fragments in any such interleaving assemble to the calls of the unfragmented response |
| ToolCalls.FragmentsMakeCalls | dashboard/api/assistant_runtime.py:361-374 | and these are the calls that were cut up, each with its id, its name and all of its text |
| ToolCalls.NumberedInOrder | dashboard/api/assistant_runtime.py:361-374 | calls sent whole without an index are all kept, numbered in the order in which they come, event after event |
| ToolCalls.CutsMerge | dashboard/api/assistant_runtime.py:366-374 | a call's pieces merge to its whole |
| ToolCalls.BlockAssembles | dashboard/api/assistant_runtime.py:418-431 | an Anthropic block's parts assemble to its text in order |
| ToolCalls.BlocksAssemble | dashboard/api/assistant_runtime.py:418-431 | blocks in fragments, in any interleaving that keeps each index's own order, assemble to the whole blocks |
| ToolCalls.Assembler.OpenAiCall | dashboard/api/assistant_runtime.py:366-374 | one call of an event: its slot is made when it is new; id and name are replaced when given, text arguments extended, an object put in their place; no other slot changes |
| ToolCalls.Assembler.OpenAiCalls | dashboard/api/assistant_runtime.py:361-374 | one event's calls, a missing index counted after the known ones |
| ToolCalls.Assembler.AnthropicEvent | dashboard/api/assistant_runtime.py:418-431 | a start replaces the slot, text is appended to a started one and dropped otherwise |
| CallList.Collect | dashboard/api/assistant_runtime.py:456-461 | exactly the named calls by increasing index |
| CallList.CallListUnique | dashboard/api/assistant_runtime.py:456-461 | there is only one such list |
| CallList.FragmentsSameList | dashboard/api/assistant_runtime.py:361-461 | fragmented and unfragmented responses give the same list of calls |
| CallList.StreamedCalls | dashboard/api/assistant_runtime.py:361-461 | the assembler run over a stream of events, missing indices counted after the calls known so far, gives the list of calls of all their fragments in a row |
| CallList.FragmentedAndWhole | dashboard/api/assistant_runtime.py:361-461 | so a response in fragments and the same response in one event give the same list |
| CallList.StreamedBlocks | dashboard/api/assistant_runtime.py:416-461 | the same for a stream of Anthropic blocks |
| CallList.FragmentedBlocks | dashboard/api/assistant_runtime.py:416-461 | blocks in fragments give exactly the named whole blocks by increasing index |
| CallList.WholeBlocks | dashboard/api/assistant_runtime.py:391-397 | the list of calls of a response that is not streamed |
| CallList.StreamedAndSent | dashboard/api/assistant_runtime.py:391-461 | streamed blocks and the same response sent whole give the same list, the collected text read as the object sent |
| JsonScan.ScanText | dashboard/web/src/components/JsonEditor.jsx:84-116 | the loop computes the scan of the text up to the cursor |
| JsonScan.CursorContext | dashboard/web/src/components/JsonEditor.jsx:79-116 | for every document and cursor: in-string exactly when the cursor is, with its start; the stack is the open containers, each with its property name; the top frame has the key last completed and whether its value is awaited; nothing open at the end |
| JsonScan.TypingContext | dashboard/web/src/components/JsonEditor.jsx:79-83 | the same for incomplete text that agrees with a document up to the cursor |
| JsonScan.FullValue | dashboard/web/src/components/JsonEditor.jsx:84-116 | a whole value leaves the stack and string state as they were |
| Throttle.AtMostFifteen | dashboard/api/auth.py:223-251 | in any half-open 900-second window without a success at most 15 failed checks take place |
| Throttle.WaitIsCapped | dashboard/api/auth.py:238-247 | the reported wait is between 0 and 900 seconds |
| Throttle.LockTable | dashboard/api/auth.py:246-247 | 30 seconds after the eleventh failure of a window, doubling to 480 after the fifteenth, 900 from the sixteenth on |
| Throttle.LockDoubles | dashboard/api/auth.py:246-247 | for any limits: the first lockout is 30 seconds or the cap, and each further failure doubles it up to the cap |
| Throttle.LockoutExplained | dashboard/api/auth.py:238-251 | over every serial run each failed check counted exactly itself and the others of its window, a thousand of them at most, and the lockout is that of the last one that counted more than the free ones |
| Throttle.TenAreFree | dashboard/api/auth.py:233-247 | with at most ten failed checks since the last success nothing is locked |
| Throttle.TryAllKeepsInv | dashboard/api/auth.py:238-251 | over any serial run the list holds the failures in the window, and each lockout was waited out |
| Throttle.SixteenTakeLonger | dashboard/api/auth.py:243-247 | sixteen failures in a row span at least 900 seconds |
| Throttle.KeptTail | dashboard/api/auth.py:245 | pruning and the cap of a thousand keep a tail of all the failures |
| Throttle.Throttle.WaitTime | dashboard/api/auth.py:238-241 | whole seconds, never negative; zero exactly when less than a thousandth of a second is left; otherwise at least what is left but for that thousandth, and less than a second more |
| Throttle.Throttle.RecordFailure | dashboard/api/auth.py:243-247 | the kept failures, and the lockout that doubles up to the cap |
| Throttle.Throttle.RecordSuccess | dashboard/api/auth.py:249-251 | a success clears everything |
| Base64.RoundTrip | dashboard/api/auth.py:254-259 | unpadded base64url decodes back to the same bytes, for every length |
| Base64.Alphabet | dashboard/api/auth.py:254-259 | the characters are those of table 2 of RFC 4648 |
| Base64.GroupBits | dashboard/api/auth.py:254-259 | each group holds its bytes' bits, most significant first |
| Sessions.IssuedVerifies | dashboard/api/auth.py:262-295 | an issued token verifies exactly while unexpired, for the same account at the same version |
| Sessions.VerifiedExactly | dashboard/api/auth.py:270-295 | the same, for every token whatever |
| Sessions.UnsignedRefused | dashboard/api/auth.py:279-281 | a token whose second part does not decode to the keyed hash of its first is refused |
| Sessions.VerifiesUntilRevoked | dashboard/api/auth.py:196-295 | over every run, a token verifies exactly while it is unexpired and nothing bumped the version since |
| Sessions.RevokedForGood | dashboard/api/auth.py:196-295 | a token that stopped verifying never verifies again |
| Sessions.SignedOut | dashboard/api/auth.py:214-220 | signing out everywhere stops every token handed out so far |
| Sessions.PasswordChanged | dashboard/api/auth.py:196-211 | a password change stops every older token, hands out one that verifies, and only the new password counts from then on |
| Sessions.LoggedIn | dashboard/api/auth.py:262-267 | a token just handed out verifies |
| Sessions.Auth.IssueToken | dashboard/api/auth.py:262-267 | a token of the account's email and version, good for its lifetime |
| Sessions.Auth.ChangePassword | dashboard/api/auth.py:196-211 | its refusals in order; otherwise the version is bumped and a fresh token handed out |
| Sessions.Auth.RevokeSessions | dashboard/api/auth.py:214-220 | the version is bumped, nothing else |
| Sessions.Auth.VerifyToken | dashboard/api/auth.py:270-295 | answers an account exactly when the token is two parts that decode to some bytes and to their keyed hash, and the bytes name that account's email and version and a time not past |
| Inventory.CachedIsCurrent | dashboard/api/app.py:551-567 | in every interleaving cached data comes from a load begun after the latest invalidation, against the key it is under |
| Inventory.AnsweredFromCache | dashboard/api/app.py:579-596 | what is answered from the cache was read from the target active now |
| Inventory.StaleLoadNeverPublished | dashboard/api/app.py:561-566 | a load in flight at an invalidation is never published |
| Inventory.RunKeepsInv | dashboard/api/app.py:551-567 | every run keeps the cache's invariant: a load is of the current generation exactly when it began after the last invalidation, and its request has the lock |
| Inventory.OneLoadInFlight | dashboard/api/app.py:553-562 | over every run at most one load is in flight, that of the request with the lock |
| Inventory.InventoryCache.AskRefresh | dashboard/api/app.py:553 | a refresh queues for the lock, which keeps the invariant |
| Inventory.InventoryCache.EnterRefresh | dashboard/api/app.py:553-562 | with the lock: an answer exactly when cached data for this target is young enough (five seconds when forced), and then read since the last invalidation; otherwise a load begun now |
| Inventory.InventoryCache.FinishRefresh | dashboard/api/app.py:562-567 | published, with its time and target, exactly when it was read from the target active now and begun since the last invalidation; returned in any case |
| Inventory.InventoryCache.InvalidateInventory | dashboard/api/app.py:2519-2525 | the cache is emptied and the generation moves on |
| Inventory.InventoryCache.FetchCached | dashboard/api/app.py:579-596 | what is answered without waiting was read from the target active now since the last invalidation, and there is no such data when nothing is answered |
| Exclusions.BuildExclusionControls | dashboard/web/src/data/exclusions.js:90-123 | the controls of a form, in order |
| FreeText.ControlsHave | dashboard/web/src/data/exclusions.js:90-123 | the controls of any form, exactly: the rules and tags named for removal, and each selector with each target named in the same group, clipped to 240 characters and a bare name completed |
| Exclusions.SplitJoin | dashboard/web/src/data/exclusions.js:67-73 | canonical values written one a line are read back, repeats dropped |
| Exclusions.CrossMembers | dashboard/web/src/data/exclusions.js:98-121 | a group's controls are exactly each selector with each target |
| Exclusions.CrossDistinct | dashboard/web/src/data/exclusions.js:98-121 | they repeat exactly when one selector sees two targets as one |
| ExclusionBuilder.AppendGrouped | dashboard/web/src/data/exclusions.js:125-129 | the target joins the first group of its selector, or opens one |
| ExclusionBuilder.ExclusionFieldsFromControls | dashboard/web/src/data/exclusions.js:131-155 | controls to form fields, refusing an empty list and malformed controls |
| ExclusionBuilder.DraftHas | dashboard/web/src/data/exclusions.js:131-155 | grouping controls loses none and invents none |
| ExclusionBuilder.DraftInOrder | dashboard/web/src/data/exclusions.js:125-155 | one group for each selector in the order of first occurrence, with all its targets in order; removals in order |
| ExclusionBuilder.TargetRoundTrip | dashboard/web/src/data/exclusions.js:38-65 | a canonical target shown as a request field is written back as itself |
| ExclusionBuilder.FieldRoundTrip | dashboard/web/src/data/exclusions.js:38-65 | a field that fits is written as a target that shows as the same kind of field, its name trimmed and a header's in lower case |
| ExclusionBuilder.SameTarget | dashboard/web/src/data/exclusions.js:38-47 | two such fields are one target exactly when they are of one kind with the same written name, headers whatever their case |
| ExclusionBuilder.BuilderRoundTrip | dashboard/web/src/data/exclusions.js:131-233 | canonical controls the builder can show are built back as the same set of controls |
| ExclusionBuilder.ShownExactly | dashboard/web/src/data/exclusions.js:131-233 | canonical controls can be shown exactly when there are some and they all remove, or all name targets the builder knows with every selector having the same ones |
| ExclusionBuilder.RemovalShown | dashboard/web/src/data/exclusions.js:131-215 | a rule to be removed is shown as a selected rule, so the round trip above is not empty |
| FreeText.SplitCanon | dashboard/web/src/data/exclusions.js:67-73 | whatever was typed, the values read are distinct, trimmed and free of separators |
| FreeText.TrimEdges | dashboard/web/src/data/exclusions.js:67-73 | trimming leaves what is between the first and the last visible character |
| FreeText.DedupOrder | dashboard/web/src/data/exclusions.js:67-73 | of repeated values the first stays, and the order too |
| FreeText.ReadBackExactly | dashboard/web/src/data/exclusions.js:67-73 | values written one a line are read back as the same set exactly when all are canonical |
| FreeText.SplitsToNothing | dashboard/web/src/data/exclusions.js:67-78 | a field reads as no values exactly when it holds only separators and white space |
| FieldExclusions.BuilderCross | dashboard/web/src/data/exclusions.js:90-188 | for every builder the controls of a field exclusion are exactly the cross product of the selectors and targets read back |
| FieldExclusions.BuilderDistinct | dashboard/web/src/data/exclusions.js:90-188 | they are without repeats exactly when normalization keeps the targets read back apart, or no selector is read back |
| FieldExclusions.BuiltAsChosen | dashboard/web/src/data/exclusions.js:90-188 | they are those of the chosen values exactly when every selector is canonical and the targets survive, or there is nothing to cross |
| FieldExclusions.ShortBuiltAsChosen | dashboard/web/src/data/exclusions.js:90-188 | with no target long enough to be clipped: exactly when no chosen value holds a separator or outer white space |
| FieldExclusions.SurvivorsUnseparated | dashboard/web/src/data/exclusions.js:23-28 | targets never survive when clipping leaves a separator in one |
| FieldExclusions.UnseparatedSurvive | dashboard/web/src/data/exclusions.js:23-28 | targets without separators all survive, however long |
| FieldExclusions.CommaRepeats | dashboard/web/src/data/exclusions.js:67-73 | two parameters, one with a comma in its name, build the same control twice |
| FieldExclusions.CommaDiffers | dashboard/web/src/data/exclusions.js:67-73 | and their controls are not those of the names chosen |
| FieldExclusions.LongNamesRepeat | dashboard/web/src/data/exclusions.js:4-28 | two parameter names that differ after the clip length build the same control twice |

## Left out

- Resp.ParseEncode: integers are unbounded; Python's limit of 4300 digits on `int()` is not modelled, nor is a decoding error of a status line that is not UTF-8.
- Base64.RoundTrip: `Decode` refuses characters outside the alphabet, which Python's decoder skips; tokens issued by the console hold none.
- Sessions.VerifiedExactly: for the same reason a token with such characters added to it is refused here, where the program makes the same checks without them.
- Framing.StreamNdjson: the chunks are decoded text; the byte decoder in front of it, HTTP errors and the sign-out on 401 are not modelled.
- ToolCalls.FragmentsAssemble: an index is a natural number, which is what providers send; entries that are not objects are skipped before this model begins.
- Ingest.KeysApart: the text that keys a record without a request id is its file's base name and line number; that no request id imitates it, and that base names differ, is taken for granted.
- Ingest.NothingLost: a file is read as one snapshot. Iterating over a file that is being appended to can yield a partial line and then its tail, which moves the line numbers that key records without a request id.
- CallList.Collect: the random id given to a call that came without one, and the parsing of its arguments, are not modelled.
- Transcript.Conversation.AgentRun: rounds are completed and do not overlap; a turn that raises halfway through its calls and a transcript written by two runs at once are not modelled; replies are texts, without the JSON around them.
- Throttle.AtMostFifteen: attempts are serial; checks that run at the same time can each pass before the others fail.
- Inventory.CachedIsCurrent: that at most one background refresh is started at a time is not modelled; refreshes queue for the lock.
- Exclusions.SplitJoin: values are strings; the conversion of other JavaScript values to text is not modelled.
- `aggregate`, the dashboard counters over stored events, would only add sums that follow the loop.
- `hgetall` pairs up a decoded array.
- `_openai_messages` maps items to messages one by one.
- Times stored beside rows (`created_at`, `updated_at`), activity records, messages shown in the chat and the change log.
- HTTP plumbing, SQL text, DNS, the egress transport and the content of Kong's documents; two clients of Kong that write at once.
- Cryptography: hashes and signatures are functions; nothing is assumed of them but what a lemma says.
- Memory exhaustion and integer overflow in the C code, and freeing.
- `src/libka_re2` and the redaction patterns, whose meaning is their regular expression library's.
- The Lua engine, the views, charts and scenes of the console.
