# A verified model of the gateway's parsers, gates, rings and tables

The C sources under `common/` hold the parts of the inference gateway that every
connection depends on: the HTTP request parser and the chunked decoder, the
admission gate with its lock-free set of bound services, the event notifier, the
asynchronous log, the JSON tokenizer, the trace ring, the Internet checksum and
the rule list of the packet filter. This project models them in Dafny and proves
what they promise, over every input, every run and every interleaving.

`dafny verify dfyconfig.toml` checks all of it.

## What is modelled

**Chunked decoding** (`ChunkedSpec`, `ChunkedDecoder`, `ChunkedMessage`). `ChunkedSpec.React`
is what one octet does to the decoder; the class `Chunked` is the code, which
scans and moves blocks in one buffer, proved to give what `React` gives octet by
octet. On top of that: the decoder does not see how the input is cut into
buffers, and it completes on exactly the inputs that begin with a message of a
grammar written independently after section 4.1 of RFC 7230, whether it consumes
trailers or leaves them; it refuses exactly what nothing could complete.

**Request parsing** (`HttpRequest`, `HttpResume`, `HttpParser`, `HttpGrammar`, `HttpPartial`). `HttpRequest.Parse`
is the parse as a function of the octets; the methods of `HttpParser` are the
code, eight octets at a time where it goes that fast. Verdicts are final, a
success depends on nothing behind it, and the resume shortcut loses no request.
`HttpGrammar` writes request heads down as a grammar of their own, over octets as
the RFC names them: a buffer parses exactly when it begins with one. `HttpPartial`
says when a partial one can still be completed.

**The set of bound services** (`NetidSet`, `NetidTable`, `NetidProtocol`). The set as
a map, the two probed tables and the state word as the code fills them, and the
lock-free readers as a state machine: a read answers for one published set.

**The admission gate** (`AdmissionTable`, `AdmissionGate`, `AdmissionTheorems`,
`AdmissionPolicy`). The
seven-row table as functions of the request and of the control plane's answers;
the gate as the methods that fill the result field by field and log each call of
an oracle; theorems about whatever the gate returns; and the policy as an operator
reads it, in mode numbers, request fields and calls alone.

**The asynchronous log** (`LogRecord`, `LogRing`, `LogRingProtocol`, `LogWriter`,
`LogPass`, `LogFlush`). Records as bytes in a ring, the ring under interleaved
pushes and takes byte by byte, one pass of the writer over the rings as a merge,
and flushing and ring recycling as a state machine over all threads.

**The notifier** (`NotifyTable`, `Notify`, `NotifyHistory`, `NotifyPause`,
`NotifyResume`). The registration table with its counters, its pause table and a
mirror of the kernel's interest lists as a class; the life of registrations over
runs; the pause handshake as a state machine; the resume ring.

**jsmn** (`JsmnSpec`, `JsmnTokens`, `JsmnParser`, `JsmnGrammar`, `JsmnVerdict`). The reference
`JsmnSpec.Run` has a bracket stack of its own; the parser keeps it in the token
array. `JsmnGrammar` writes JSON values down as a grammar after RFC 8259: the text of
any value gives that value's tokens back. `JsmnVerdict` says what "invalid" and
"incomplete" are worth.

**The trace ring** (`TraceRing`, `TraceBuffer`), **the checksum** (`Checksum`) and
**the rule list** (`Pdi`, `PdiMap`).

Where the code and a comment disagree the model follows the code. Three cases
matter. A partial request need not have a continuation: without a method, or with
a version that cannot become one, it stays partial until the parser gets that far
(`HttpPartial.PartialExactly`). The comment on the pause table bounds the listeners
that can be paused at once, but the code bounds entries: a registration that is
paused and disarmed again and again fills the table alone, and another one is then
refused (`Notify.OneFillsTheTable`). A refusal finds 1024 paused registrations if
and only if no fd stands in the table twice, which a caller avoids by not pausing a
fd a second time before a re-arm has found something to re-arm
(`NotifyTable.RefusalIsRight`, `Notify.Notifier.PauseLocked`). And
`ip_decrease_ttl` keeps a valid header (its first octet, version and length, is not
zero) valid if and only if the TTL was not zero (`Checksum.DecreasedChecks`).

## Model

| member | source | states |
|---|---|---|
| `ChunkedSpec.ReactKeepsValid` | common/picohttpparser.c:550-661 | no octet in any state leads out of the decoder's valid positions; with the 16-digit cap the size accumulator stays within 64 bits |
| `ChunkedSpec.RunSplit` | common/picohttpparser.c:543-676 | reading `a + b` is reading `a` and, if undecided, reading `b` from where that stopped: same body, verdict, position and remainder |
| `ChunkedSpec.RunData` | common/picohttpparser.c:605-621 | a block of chunk data taken at once is the same octets taken singly |
| `ChunkedSpec.CallSplit` | common/picohttpparser.c:543-676 | two calls in a row do what one call on both buffers does, the overhead guard's answer included |
| `ChunkedSpec.FeedIsOneCall` | common/picohttpparser.c:543-676 | split invariance: for every cut into buffers, feeding the pieces gives the body, verdict, decoder position and unread remainder of one call on the whole, whenever the guard stays quiet between pieces |
| `ChunkedSpec.FeedTotals` | common/picohttpparser.c:543-676 | as long as the answer is -2, the totals the guard sees are the octets of all buffers and those of them that were not body, in 64 bits |
| `ChunkedDecoder.MoveDown` | common/picohttpparser.c:609-614 | moving a block towards lower addresses delivers the old octets and touches nothing else |
| `ChunkedDecoder.Chunked.constructor` | common/picohttpparser.h:62-70 | a zero-filled decoder is at the start of a message |
| `ChunkedDecoder.Chunked.ScanSize` | common/picohttpparser.c:552-584 | the hex loop reaches what the single octets reach: accepted size, error, or more input needed |
| `ChunkedDecoder.Chunked.ScanExt` | common/picohttpparser.c:586-603 | skipping a chunk extension, likewise |
| `ChunkedDecoder.Chunked.TakeData` | common/picohttpparser.c:605-621 | data is moved down over dropped framing with the write position never ahead of the read position; unread octets are untouched |
| `ChunkedDecoder.Chunked.ScanCrlf` | common/picohttpparser.c:623-636 | the line end behind a chunk, likewise |
| `ChunkedDecoder.Chunked.ScanTrailerHead` | common/picohttpparser.c:637-646 | the start of a trailer line, likewise |
| `ChunkedDecoder.Chunked.ScanTrailerMiddle` | common/picohttpparser.c:648-657 | the rest of a trailer line, likewise |
| `ChunkedDecoder.Chunked.Round` | common/picohttpparser.c:550-661 | one turn of the loop with its fall-throughs makes progress and keeps body plus unread input equal to the reference's outcome |
| `ChunkedDecoder.Chunked.Finalize` | common/picohttpparser.c:663-675 | the exit moves unread octets behind the body and charges overhead only to an undecided message |
| `ChunkedDecoder.Chunked.Decode` | common/picohttpparser.c:543-676 | one call leaves the decoder, the return code, the body at the front of the buffer and the unread octets behind it exactly as the octet-by-octet reference does, and touches nothing past `bufsz`; the code is what is left of a complete message, -1 for a wrong one or a tripped guard, -2 for one that goes on |
| `ChunkedMessage.RoundTrip` | common/picohttpparser.c:530-676 | every well-formed message, whatever follows it, decodes to the concatenation of its chunks and leaves exactly what follows |
| `ChunkedMessage.CompletesExactly` | common/picohttpparser.c:530-676 | with trailers consumed, decoding completes if and only if the input begins with a well-formed message, and then yields that message's data and remainder |
| `ChunkedMessage.CompletesBeforeTrailers` | common/picohttpparser.c:586-601 | where trailers are not consumed, as in a zero-filled decoder, it completes on exactly the inputs that begin with well-formed chunks and the line of a last one, yields their data and leaves all that follows that line, trailers included |
| `ChunkedMessage.ModesAgree` | common/picohttpparser.c:595-601 | where consuming trailers completes, leaving them completes with the same body and leaves the trailers and the empty line in front of what the other leaves |
| `ChunkedMessage.RefusedExactly` | common/picohttpparser.c:550-661 | in either mode an input is refused if and only if nothing that could follow would complete it |
| `ChunkedMessage.HexDigits` | common/picohttpparser.c:530-541 | the digits of a size and their values, as written |
| `ChunkedMessage.SizeDelimiters` | common/picohttpparser.c:563-574 | what may follow a size: a blank, a semicolon or a line end |
| `ChunkedMessage.GuardIs` | common/picohttpparser.c:669-674 | the guard fires at 102400 octets of framing when the body is less than a quarter of what was read, rounded down |
| `HttpRequest.ParseAgrees` | common/picohttpparser.c:355-427 | a settled verdict depends on no octet beyond those it was reached in |
| `HttpRequest.VerdictIsFinal` | common/picohttpparser.c:401-427 | a verdict other than partial, with every field, is unchanged by any extension of the buffer |
| `HttpRequest.SuccessIsLocal` | common/picohttpparser.c:401-427 | a success of n octets is the same for every buffer that shares those n octets |
| `HttpGrammar.RoundTrip` | common/picohttpparser.c:355-427 | the text of every well-formed request head, whatever follows it, parses to that head, field by field, and stops at its end |
| `HttpGrammar.ParsesExactly` | common/picohttpparser.c:355-427 | a buffer parses if and only if it begins with a well-formed head of no more header lines than there is room for, and then every field reads as that head has it |
| `HttpGrammar.NoRoom` | common/picohttpparser.c:298-353 | a well-formed head with too many header lines is refused, never cut short |
| `HttpGrammar.TokenCharIs` | common/picohttpparser.c:96-103 | the parser's token characters are the letters, digits and fifteen marks of section 3.2.6 of RFC 7230, for every octet |
| `HttpGrammar.BlankIs` | common/picohttpparser.c:298-348 | its blanks are space and tab |
| `HttpGrammar.ControlIs` | common/picohttpparser.c:71-94 | its control octets are those that are neither visible nor space |
| `HttpGrammar.Codes` | common/picohttpparser.c:280-296 | the codes of the delimiters and the letters of the protocol's name |
| `HttpGrammar.LinesAreKept` | common/picohttpparser.c:298-353 | header lines that are there in full are in the array, as the grammar has them, whatever becomes of the rest |
| `HttpGrammar.OnlyLines` | common/picohttpparser.c:298-353 | and what is in the array was there in full |
| `HttpPartial.PartialExactly` | common/picohttpparser.c:355-427 | some octets complete a partial request if and only if its request line has a method and what stands for its version can still become one |
| `HttpResume.ParsePaired` | common/picohttpparser.c:298-427 | a request that parses has a CR only before an LF up to its end, and ends in an empty line |
| `HttpResume.BlankLineFound` | common/picohttpparser.c:197-223 | a search that starts on or before the line end preceding the empty line finds one |
| `HttpResume.CompletesLater` | common/picohttpparser.c:401-427 | a request that was partial at k octets completes behind them |
| `HttpResume.ResumeIsSound` | common/picohttpparser.c:401-427 | if the first k octets were partial, parsing with `last_len` k succeeds if and only if parsing afresh does, with the same length and fields |
| `HttpResume.ResumeErrorIsFinal` | common/picohttpparser.c:197-223 | an error of the shortcut is never a mistake: no extension of the buffer parses |
| `HttpResume.ResumeWaits` | common/picohttpparser.c:197-223 | until an empty line comes, no more than three octets before where the last attempt ended, nothing is parsed, and the answer is partial unless a CR stands without its LF |
| `HttpResume.FoundIsBlank` | common/picohttpparser.c:197-223 | what the search finds is an empty line behind where it started; what it refuses is a bare CR |
| `HttpParser.GetTokenToEol` | common/picohttpparser.c:134-195 | the scan by eights agrees with the scan by ones: same line end, same token, same error |
| `HttpParser.ParseToken` | common/picohttpparser.c:245-277 | a token up to its delimiter, an error on any octet that is neither, or partial |
| `HttpParser.MapIsTokenChar` | common/picohttpparser.c:96-103 | the 256-entry table holds the token characters |
| `HttpParser.ParseVersion` | common/picohttpparser.c:280-296 | nine octets must be there; the prefix and a digit, or an error |
| `HttpParser.TrimEnd` | common/picohttpparser.c:341-348 | blanks dropped from the back of a value |
| `HttpParser.ParseHeaders` | common/picohttpparser.c:298-353 | fills the header array from the front with exactly the reference's headers, continuation lines included, and refuses one too many; on every verdict the count and the array hold the lines read so far |
| `HttpParser.ParseTarget` | common/picohttpparser.c:368-384 | method and path, and which of the two are written when it fails |
| `HttpParser.VerbWritten` | common/picohttpparser.c:369-371 | the method is written as soon as a space follows its token characters |
| `HttpParser.VerbUnwritten` | common/picohttpparser.c:369-371 | and only then |
| `HttpParser.PathWritten` | common/picohttpparser.c:372-376 | the path is written as soon as a space follows it |
| `HttpParser.PathIs` | common/picohttpparser.c:372-376 | and a path that was written lies behind the method and its spaces, ends at a space, and holds neither space nor control octet |
| `HttpParser.ParseRequestLine` | common/picohttpparser.c:355-396 | the request line; method, path and version as far as they were read |
| `HttpParser.CheckComplete` | common/picohttpparser.c:197-223 | the search for the empty line from three octets back |
| `HttpParser.ParseRequest` | common/picohttpparser.c:401-427 | the whole parse with `last_len`; on every verdict method, path, version, count and the caller's header array hold what was read |
| `NetidSet.ListedIsCovered` | common/sockproxy_ai_admit.c:275-384 | every listed service is answered bound with all its flags, however many are listed |
| `NetidSet.AllIsCovered` | common/sockproxy_ai_admit.c:275-384 | a set marked all answers bound, with its flags, for every service |
| `NetidSet.BuildIsExplained` | common/sockproxy_ai_admit.c:275-334 | every tag and flag of the set is owed to an entry of the list |
| `NetidSet.AnswerIsExplained` | common/sockproxy_ai_admit.c:336-384 | every reported bit is owed to all, to a service that overflowed, or to a listed service whose hash agrees above the low bits |
| `NetidSet.ComputeHash` | common/sockproxy_ai_admit.c:258-267 | the loop computes the hash of the text |
| `NetidSet.HashVectors` | common/sockproxy_ai_admit.c:258-267 | the hash is FNV-1a, by its published vectors for the empty text, "a" and "foobar" |
| `NetidSet.TagIs` | common/sockproxy_ai_admit.c:215-226 | two services share a slot exactly when their hashes agree above the three low bits |
| `NetidTable.ProbeEnds` | common/sockproxy_ai_admit.c:291-320 | at most a quarter of the slots is used, so no probe goes all the way round |
| `NetidTable.StoppedProbe` | common/sockproxy_ai_admit.c:336-384 | an empty slot means the tag is not in the set; a slot with the tag has the set's flags |
| `NetidTable.Inserted` | common/sockproxy_ai_admit.c:291-320 | writing a new tag where its probe ended keeps every other tag findable |
| `NetidTable.Merged` | common/sockproxy_ai_admit.c:291-320 | merging flags in place does too |
| `NetidTable.WordAnswersRight` | common/sockproxy_ai_admit.c:336-384 | an answer taken from the state word alone is the set's answer |
| `NetidTable.ProbeAnswersRight` | common/sockproxy_ai_admit.c:336-384 | an answer taken from a probe that stopped is the set's answer |
| `NetidTable.NetidTables.constructor` | common/sockproxy_ai_admit.c:215-272 | two empty tables publish the empty set |
| `NetidTable.NetidTables.Fill` | common/sockproxy_ai_admit.c:288-320 | filling the hidden table leaves it standing for the new set, overflow included |
| `NetidTable.NetidTables.BoundSet` | common/sockproxy_ai_admit.c:275-334 | the hidden table is refilled, the word swapped, the generation moved on; the published set is the new one |
| `NetidTable.NetidTables.Bound` | common/sockproxy_ai_admit.c:336-384 | with no replacement running, the answer of the published set |
| `NetidProtocol.SameWordSameEdition` | common/sockproxy_ai_admit.c:336-384 | fewer than 2^25 publications apart, equal words are the same publication |
| `NetidProtocol.RetryMeansReplaced` | common/sockproxy_ai_admit.c:336-384 | a reader goes round again only when a set was published since its load |
| `NetidProtocol.Replace` | common/sockproxy_ai_admit.c:275-334 | a call of `BoundSet` is a run of the protocol's writer: stores into the hidden table, then a publication that meets every condition of that step |
| `NetidProtocol.ReadsAreExact` | common/sockproxy_ai_admit.c:275-384 | in every interleaving a finished read answered exactly what the set published at its last load answers, and retried no more often than sets were published meanwhile |
| `AdmissionTheorems.KeylessIsNobody` | common/sockproxy_ai_admit.c:421-442 | where nobody is identified nothing is attributed or held; the one charge, if any, is the shared bucket's and names nobody; a service without an identity is never refused; a refusal is the rate stage's with 429 or 503 |
| `AdmissionGate.NetidAsk` | common/sockproxy_ai_admit.c:448-490 | one resolver call; no answer refuses only a service that fails closed |
| `AdmissionGate.AdmitClass` | common/sockproxy_ai_admit.c:509-557 | one class call; its refusal is the class stage's |
| `AdmissionTheorems.ClaimCovers` | common/sockproxy_ai_admit.c:632-661 | the claim covers the prompt and a quarter of the declared bytes up to a hundred million, grows with what is declared, and a default stands in exactly for a ceiling that was not declared |
| `AdmissionGate.AdmitReserve` | common/sockproxy_ai_admit.c:632-690 | at most one reservation, held only when granted |
| `AdmissionGate.AdmitMetered` | common/sockproxy_ai_admit.c:563-694 | stage by stage: conflict, model list, class, rate, reservation; the first refusal ends it; identity, class, reservation and calls are what that stage leaves |
| `AdmissionGate.AdmitNetwork` | common/sockproxy_ai_admit.c:698-715 | metering as the binding's tenant |
| `AdmissionGate.StripBearer` | common/sockproxy_ai_admit.c:800-817 | the credential without its scheme tag |
| `AdmissionGate.CheckCredential` | common/sockproxy_ai_admit.c:837-849 | exactly one validator, the one the mode and the presented credentials select |
| `AdmissionTheorems.RefusedCredential` | common/sockproxy_ai_admit.c:850-878 | a refused credential is answered 401, 403 or 503 at the authentication stage, with a code; a retry only with 503, an identity only with 403; nothing was charged |
| `AdmissionGate.HoldToBinding` | common/sockproxy_ai_admit.c:884-929 | an enforcing binding refuses a mismatch of tenant or model, and otherwise changes nobody's tenant |
| `AdmissionGate.AdmitEnforcing` | common/sockproxy_ai_admit.c:782-930 | rows 3 to 7 of the table |
| `AdmissionGate.Decide` | common/sockproxy_ai_admit.c:717-930 | the gate's route is the table's route for every request and oracle behaviour |
| `AdmissionGate.Admit` | common/sockproxy_ai_admit.c:136-163 | the result and the log of calls are the table's, every refusal recorded through one frame |
| `AdmissionTheorems.CallsInOrder` | common/sockproxy_ai_admit.c:717-930 | each oracle is called at most once, and class, rate, reservation and record in that order |
| `AdmissionTheorems.RefusalIsRecorded` | common/sockproxy_ai_admit.c:136-163 | a refusal holds no reservation and leaves exactly one record, of itself; an admission leaves none |
| `AdmissionTheorems.ChargedAfterStages` | common/sockproxy_ai_admit.c:563-694 | a rate or reservation call for an identity means that authentication, the model conflict check, the network's model check and the class stage have passed; a reservation, that the rate check has too |
| `AdmissionTheorems.CredentialAloneDecides` | common/sockproxy_ai_admit.c:782-930 | on an enforcing service a presented credential is admitted only as the identity its validator named, and not at all if refused |
| `AdmissionTheorems.ResolverCannotChangeTenant` | common/sockproxy_ai_admit.c:884-929 | two control planes that differ only in the resolver admit a presented credential as the same identity |
| `AdmissionTheorems.SevenRows` | common/sockproxy_ai_admit.h:48-76 | each row of the documented table: exactly when it is admitted or let through unmetered, as which tenant, with which source recorded, and what refuses it |
| `AdmissionTheorems.AdmittedExactlyWhen` | common/sockproxy_ai_admit.c:563-694 | a request is allowed if and only if a tenant is decided and none of the five stages refuses, and unmetered if and only if nobody is identified and the shared bucket admits |
| `AdmissionTheorems.GateIsDetermined` | common/sockproxy_ai_admit.c:717-930 | the request and the oracles' answers determine every field of the result and every call |
| `AdmissionTheorems.NoAnswer` | common/sockproxy_ai_admit.c:448-490 | a resolver without an answer refuses where the service fails closed |
| `AdmissionTheorems.NoAnswerIsNoMatch` | common/sockproxy_ai_admit.c:480-490 | and elsewhere the result and the calls are exactly those of a resolver that finds no binding |
| `AdmissionPolicy.NoFreePass` | common/sockproxy_ai_admit.c:728-846 | under any mode but 0 and 2 a request that is not refused was accepted by a validator, or came without any credential from a source whose binding stands in for one; and it is never let through unmetered |
| `AdmissionPolicy.ModeChoosesArm` | common/sockproxy_ai_admit.c:837-851 | modes 0 and 2 ask no validator, 3 about the token only, 4 about the key when there is one and the token otherwise, any other about the key only; with the request's own credential |
| `AdmissionPolicy.CredentialIsChecked` | common/sockproxy_ai_admit.c:826-851 | under an enforcing mode a presented credential is put to its validator unless the request is malformed; in mode 4 a present key always is |
| `AdmissionPolicy.FramedExactly` | common/sockproxy_ai_admit.c:742-757 | a request is refused as framed exactly when its body names a model or a user twice and somebody would read it, and which of the two is said |
| `AdmissionPolicy.ModelIs` | common/sockproxy_ai_admit.c:742-761 | the model is what the transport or the body names, then the prefix, then the header; a scanned name is cut at 127 characters |
| `AdmissionPolicy.OneModel` | common/sockproxy_ai_admit.c:718-851 | every call that names a model names that one; the resolver is asked only on a service with bindings and an identity, about the request's own source |
| `AdmissionPolicy.TokenIs` | common/sockproxy_ai_admit.c:811-817 | a header of the bearer scheme, in any case and with any number of spaces, carries what follows them |
| `AdmissionPolicy.NoToken` | common/sockproxy_ai_admit.c:811-817 | any other header carries no token |
| `AdmissionPolicy.AdmittedAs` | common/sockproxy_ai_admit.c:699-716 | a credential admits its validator's tenant, key, user and flags; without one the binding admits its tenant, for a model it allows |
| `AdmissionPolicy.PassedEveryStage` | common/sockproxy_ai_admit.c:564-694 | an admitted request was checked against its rate and found within it, a claim it made was granted, no validator and no strict objective refused it, and body and header do not disagree on the model |
| `AdmissionPolicy.ChargedToWho` | common/sockproxy_ai_admit.c:595-692 | class, rate and reservation are asked about the identity the verdict carries |
| `AdmissionPolicy.ClaimIsMade` | common/sockproxy_ai_admit.c:635-692 | an admitted request makes a claim exactly when there is a body, or the promise of one, that comes to any tokens, and for that many |
| `AdmissionPolicy.HeldIsGranted` | common/sockproxy_ai_admit.c:664-690 | what is held for settlement is what was granted, under its epoch, and it is marked where less was given than asked for with a default |
| `AdmissionPolicy.NothingWithoutClaim` | common/sockproxy_ai_admit.c:635-692 | without a claim nothing is held |
| `AdmissionPolicy.ClassIsReported` | common/sockproxy_ai_admit.c:510-557 | the class is the resolver's answer, standard where it cannot answer; the objective is refused exactly where it denies and the service is strict; the tier is the body's, where the body is whole |
| `AdmissionPolicy.SourceNamesArm` | common/sockproxy_ai_admit.c:879-882 | an admitted request says whether a token, a key or its network decided |
| `AdmissionPolicy.LimitSays` | common/sockproxy_ai_admit.c:609-630 | a rate refusal carries the answer of its one rate call: 503 where the store cannot answer, 429 otherwise, with its delay and code |
| `AdmissionPolicy.QuotaSays` | common/sockproxy_ai_admit.c:664-680 | a refused reservation is a 429 with the quota's delay and code; what was asked is noted and nothing is held |
| `AdmissionPolicy.ValidatorSays` | common/sockproxy_ai_admit.c:847-873 | a refused credential is a 503, 403 or 401 by the validator's decision, with its code or the arm's own, and only the 403 names an owner |
| `AdmissionPolicy.TurnedAway` | common/sockproxy_ai_admit.c:885-912 | a credential its binding turns away is a 403 that names it in full and says whether tenant or model was the reason |
| `AdmissionPolicy.StatusOfStage` | common/sockproxy_ai_admit.c:564-912 | the status fits the stage that refused |
| `AdmissionPolicy.FailsClosed` | common/sockproxy_ai_admit.c:449-492 | where bindings fail closed, a resolver that cannot answer, or that matches and names no tenant, refuses what no validator refuses; elsewhere it is never taken for a binding |
| `LogRecord.LeRoundTrip` | common/log.c:225-230 | a number read back from its little-endian octets |
| `LogRecord.HeadReadsBack` | common/log.c:225-230 | a record's header reads back as stamp, length and level |
| `LogRecord.HoldsAppend` | common/log.c:317-328 | a record written at the end joins the queue in the bytes |
| `LogRecord.HoldsKept` | common/log.c:296-302 | a byte written outside the queued stretch, wrapped or not, leaves the queued records alone |
| `LogRecord.SizeIsLeast` | common/log.c:312-314 | a record takes the least multiple of eight that holds sixteen octets and its line |
| `LogRing.Ring.constructor` | common/log.c:234-244 | an empty ring |
| `LogRing.Ring.Put` | common/log.c:296-302 | a copy that wraps writes exactly the addressed bytes |
| `LogRing.Ring.Take` | common/log.c:304-310 | and reads them back |
| `LogRing.Ring.Push` | common/log.c:317-328 | queued if and only if it fits; the queue gains the record at its end |
| `LogRing.Ring.Peek` | common/log.c:528-528 | the header at `cons` is the oldest record's |
| `LogRing.Ring.Give` | common/log.c:541-546 | the line behind that header is the oldest record's, and `cons` moves past it |
| `LogRing.Ring.TakeOldest` | common/log.c:537-548 | the oldest record comes out whole, and the queue loses it |
| `LogRingProtocol.AlwaysARecord` | common/log.c:537-540 | what the writer finds at its position passes the record test |
| `LogRingProtocol.QueueIsExact` | common/log.c:296-328 | at every point of every interleaving, byte by byte, the bytes between `cons` and `prod` are the pushed and not yet emitted records in order, and what was emitted is a prefix of what was pushed |
| `LogRingProtocol.NeverGivenBack` | common/log.c:511-551 | the arm that gives a ring back whole is never taken |
| `LogPass.ListRings` | common/log.c:516-530 | ring by ring, while lines are queued: a snapshot that holds all that was queued at the start, and a cursor with the header read at it for each ring in use with something in its snapshot, and no other; an empty ring whose thread is gone is freed |
| `LogPass.Oldest` | common/log.c:533-535 | the first cursor whose head has the smallest stamp |
| `LogPass.Emit` | common/log.c:536-548 | the record at a cursor goes out of its ring and `cons` moves past it; the test for a non-record never fires; the next header is read if it lies before the snapshot |
| `LogPass.Drain` | common/log.c:532-549 | while lines are queued before every round: the output is the complete greedy merge of the snapshots, and the rings keep exactly what was queued behind them, in order |
| `LogPass.WriterPass` | common/log.c:511-551 | while other threads queue lines in both loops, a pass ends; it puts out the complete greedy merge of its snapshots, which hold all that was queued at the start; of every ring, what went out and what is left is what was queued before and meanwhile, in order |
| `LogWriter.MergeIsSorted` | common/log.c:511-551 | if no ring's stamps go back, neither does the output |
| `LogWriter.MergeCounts` | common/log.c:511-551 | each line comes out as often as it was queued in its ring |
| `LogFlush.FlushedMeansOut` | common/log.c:616-626 | in every interleaving of threads, writer and flushers, `log_flush` returning 0 means that every line queued in any ring before the call was taken and flushed |
| `LogFlush.OnePassIsNotEnough` | common/log.c:616-626 | a run in which one finished pass after the call leaves a line behind, so waiting for two is needed |
| `LogFlush.FreeIsEmpty` | common/log.c:263-294 | a ring is free only when empty and nobody's, so its next owner inherits no line |
| `LogFlush.NextKeeps` | common/log.c:511-574 | every step of a thread, the writer or a flusher keeps the ring, snapshot and flush invariants |
| `Notify.Notifier.constructor` | common/notify.c:215-262 | no registration, all counts zero |
| `Notify.Notifier.StartWorker` | common/notify.c:1016-1035 | the wake fd counts towards its shard's load and registers nothing |
| `Notify.Notifier.KernelDrops` | common/notify.c:164-183 | the kernel drops a closed fd by itself: no registration changes, and the mirror stays right, since it may lack a fd the table still has |
| `Notify.Notifier.KernelIs` | common/notify.c:407-475 | the kernel watches only registrations, on their shard, for what they want, and for nothing while they are paused |
| `Notify.Notifier.ShardHasRoom` | common/notify.c:446-452 | no shard has more than 8192 to poll |
| `Notify.Notifier.Add` | common/notify.c:380-478 | the exact answer for every argument, and the exact new registrations: a new one goes to the shard asked for, else to its live partner's, else by its fd; another owner's is left alone; the counts, the pause table and the kernel mirror stay right |
| `Notify.Notifier.Update` | common/notify.c:407-428 | another owner's registration is left alone; a paused one changes what it gets back |
| `Notify.Notifier.Insert` | common/notify.c:454-475 | one more registration in the table, the counts and the kernel |
| `Notify.Notifier.Delete` | common/notify.c:544-607 | exactly the registration named goes, and only if its generation is the one asked for; what each answer means; the destroy callback gets its owner |
| `Notify.Notifier.Deregister` | common/notify.c:706-750 | the registration goes, nothing is destroyed |
| `Notify.Notifier.Remove` | common/notify.c:582-594 | table, counts, pause count and kernel all lose it |
| `Notify.Notifier.Disarm` | common/notify.c:755-790 | the registration stays, wants nothing, and is not paused |
| `Notify.Notifier.Compact` | common/notify.c:860-874 | exactly the table entries still paused are kept, in order |
| `Notify.Notifier.PauseLocked` | common/notify.c:846-881 | pauses exactly one live registration that was not paused, and refuses exactly when the table stays full without its dead entries; says when that refusal means 1024 paused registrations, what the table is afterwards with and without a compaction, and when it gets a repeat |
| `Notify.Notifier.Pause` | common/notify.c:836-894 | paused, or everything re-armed when the gate is open |
| `Notify.Notifier.RearmLocked` | common/notify.c:809-829 | every paused registration gets its mask back, none is left paused, their number and their shards are returned |
| `Notify.Notifier.RearmPaused` | common/notify.c:897-918 | likewise when the gate is open; otherwise nothing changes |
| `Notify.OneFillsTheTable` | common/notify.c:856-881 | one registration, paused and disarmed in turn, fills the table: the next pause of another is refused for want of room while a single registration is paused |
| `NotifyTable.RefusalIsRight` | common/notify.c:860-874 | a refusal for want of room finds 1024 paused registrations if and only if no entry repeats: always, when no fd was paused twice since a re-arm found any; and for the first 1024 pauses since then, only then |
| `NotifyTable.Write` | common/notify.c:459-475 | one write of a slot with its counter and kernel updates keeps every part of the invariant: registration counts, shard loads, pause count, pause table, mirrored masks |
| `NotifyTable.AddsNew` | common/notify.c:380-478 | a new fd is taken exactly when its number is in range, it asks for something the kernel can watch, its shard exists and has room, and the kernel grants it |
| `NotifyTable.AddRefuses` | common/notify.c:380-478 | what every other answer to an addition means |
| `NotifyTable.MaskIs` | common/notify.c:145-162 | each kind of event that has a bit asks for it, and a hang-up for two |
| `NotifyTable.RearmedIs` | common/notify.c:809-829 | re-arming gives each registration back what it wants and changes nothing else; the shards to wake are those of the paused ones |
| `NotifyHistory.EndsOnce` | common/notify.c:1091-1147 | over every run no registration is destroyed twice, destroyed after it was handed back, or counted as ended while live |
| `NotifyHistory.StaleIsHarmless` | common/notify.c:1091-1147 | an event captured at one point of a run and acted on later destroys at most the registration it was captured against, never a newer one on the same fd |
| `NotifyHistory.NextKeeps` | common/notify.c:544-607 | every registration, delete, deregister and dispatch keeps that |
| `NotifyHistory.PartnersStay` | common/notify.c:372-445 | a fd registered with a live partner is on its partner's shard at every later point of a run at which both registrations are still there |
| `NotifyHistory.PlaceStays` | common/notify.c:433-445 | one that asked for a shard stays on it, and one without shard or live partner where its number puts it |
| `NotifyPause.NoAcceptLost` | common/notify.c:809-918 | in every interleaving, a registration paused behind an open gate has a thread whose look at the gate or re-arm is still to come |
| `NotifyPause.QuiescentIsArmed` | common/notify.c:809-918 | when every thread is out, nothing is paused behind an open gate and the counter is the number of paused registrations |
| `NotifyPause.LastWitness` | common/notify.c:897-918 | a reader of a zero counter leaves only while the uncounted pause's own thread is still to look |
| `NotifyPause.CountKeeps` | common/notify.c:809-894 | the unlocked counter is off by at most the step its lock holder is in |
| `NotifyResume.Resume.constructor` | common/notify.c:239-244 | an empty ring |
| `NotifyResume.Resume.Push` | common/notify.c:312-342 | a wake joins the end, or the full ring is left as it was |
| `NotifyResume.Resume.Pop` | common/notify.c:948-958 | the oldest wake comes out |
| `NotifyResume.Resume.Drain` | common/notify.c:935-972 | the wakes that waited and those that found room while it ran are all taken, in order, and exactly those whose registration, when their turn comes, is still the one parked are resumed |
| `NotifyResume.StandsExactly` | common/notify.c:962-969 | over runs, a wake stands exactly if the registration it was for is still there, with the same shard and owner; one without a generation always does |
| `JsmnSpec.CountSuffices` | common/jsmn.h:268-453 | if the counting pass answers m, a pass with room for m never runs out, and a pass that succeeds used exactly m |
| `JsmnSpec.CountIsNeeded` | common/jsmn.h:268-453 | a pass that succeeds used what the counting pass answers, and had that room |
| `JsmnParser.SkipString` | common/jsmn.h:193-262 | the closing quote past escapes and four-digit escapes, an error, or partial |
| `JsmnParser.SkipPrimitive` | common/jsmn.h:135-170 | the end of a primitive, or an error on an unprintable octet |
| `JsmnParser.LastOpen` | common/jsmn.h:337-347 | the innermost open bracket of the token array |
| `JsmnParser.Parser.constructor` | common/jsmn.h:459-463 | a fresh parser |
| `JsmnSpec.RunIsForest` | common/jsmn.h:268-453 | whatever is parsed, parents come before their children and open brackets are tokens |
| `JsmnParser.Parser.Append` | common/jsmn.h:106-130 | a token is allocated, filled and counted under its superior token; order, nesting and sizes are kept |
| `JsmnParser.Parser.OpenBracket` | common/jsmn.h:281-306 | the bracket is pushed on the stack the token array holds |
| `JsmnParser.Parser.CloseBracket` | common/jsmn.h:308-360 | accepted if and only if the top of that stack has its type, which is then popped |
| `JsmnParser.Parser.Comma` | common/jsmn.h:379-396 | after a keyed value the superior token is the innermost open bracket again, if there is one, and otherwise it stays |
| `JsmnParser.Parser.Value` | common/jsmn.h:361-433 | a string or primitive becomes one closed token; a failure leaves the parser where the value began |
| `JsmnParser.Parser.Parse` | common/jsmn.h:268-453 | the outcome and the tree (kinds, places, parents, open brackets, superior token) of the reference with an explicit stack, failures included; on success every token is closed and the code's own counter is the tokens allocated; always in bounds, strictly increasing in start, disjoint or nested, brackets of one type, sizes the numbers of children |
| `JsmnParser.Parser.CountTokens` | common/jsmn.h:268-453 | the pass without tokens is the reference count |
| `JsmnParser.TwoPasses` | common/jsmn.h:268-453 | counting and then parsing into that many tokens never answers that there are too few; on success the sizes count the children of the reference's tree |
| `JsmnGrammar.ParseText` | common/jsmn.h:268-453 | for every JSON value and every text of it, with white space anywhere, the tokens are the value's in preorder, each with its kind, its place and the number of its children; with fewer tokens than that, there are too few |
| `JsmnGrammar.RoundTrip` | common/jsmn.h:268-453 | the reference reads the text of a value as that value's tree, or runs out of tokens exactly when there are too few |
| `JsmnGrammar.ReadsValue` | common/jsmn.h:268-453 | the same for a value inside a text: the parse goes over it, adds its tokens under the superior token and leaves the bracket stack as it was |
| `JsmnGrammar.ReadsItems` | common/jsmn.h:268-453 | the items of an open array all get it as their parent, and it is still the superior token behind them |
| `JsmnGrammar.ReadsMembers` | common/jsmn.h:268-453 | each key of an open object gets it as its parent, and each value gets its key |
| `JsmnGrammar.StringAt` | common/jsmn.h:193-262 | a string of plain octets, escapes and four-digit escapes ends at its closing quote |
| `JsmnGrammar.ValueSizes` | common/jsmn.h:268-453 | in a value's tree an array has as many children as items, an object as members, a key one, a string or primitive none |
| `JsmnGrammar.LessRoom` | common/jsmn.h:268-453 | fewer tokens make no difference or end in the answer that there are too few |
| `JsmnGrammar.SpaceIs` | common/jsmn.h:370-374 | white space is that of section 2 of RFC 8259 |
| `JsmnGrammar.EscapesIs` | common/jsmn.h:225-236 | the escapes are those of section 7, but for the four digits |
| `JsmnGrammar.HexIs` | common/jsmn.h:237-252 | which are hexadecimal in either case |
| `JsmnGrammar.BareIs` | common/jsmn.h:135-170 | what ends a primitive, opens or closes, and what may stand in one |
| `JsmnGrammar.Marks` | common/jsmn.h:268-433 | the marks of the grammar, and which bracket is which |
| `JsmnVerdict.InvalIsFinal` | common/jsmn.h:268-453 | nothing that could follow makes an invalid text good |
| `JsmnVerdict.PartExactly` | common/jsmn.h:268-453 | a text found incomplete can be completed, given enough tokens, if and only if no zero byte ended it |
| `JsmnVerdict.RunBlind` | common/jsmn.h:273-276 | nothing behind a zero byte is read |
| `JsmnTokens.LookBack` | common/jsmn.h:337-358 | the bracket found by looking back over the tokens is the top of the stack |
| `JsmnTokens.CloseKeeps` | common/jsmn.h:337-358 | closing the innermost open bracket keeps all spans disjoint or nested |
| `JsmnTokens.CloseIsPop` | common/jsmn.h:337-358 | the last open token is the top of the bracket stack, and closing it pops |
| `JsmnTokens.AppendCounts` | common/jsmn.h:281-306 | sizes count children in a forest whose parents come first |
| `TraceRing.RefinesQueue` | common/lxb_ring.h:68-118 | with stale reads of the other side's index, in every interleaving, the ring is a queue of at most 8191 events: popped is a prefix of accepted, and each step adds at the back, takes the front or changes nothing |
| `TraceRing.NeverCollide` | common/lxb_ring.h:68-118 | the slot the consumer reads is never the one the producer copies into, and holds the accepted event all along |
| `TraceRing.AttemptsAccounted` | common/lxb_ring.h:68-92 | every push that began, but for the one in hand, was accepted or dropped; the ring got exactly the events of the accepted ones, in order; the shared counter is the drops modulo 2^32 |
| `TraceRing.DroppedWhenFull` | common/lxb_ring.h:72-76 | a push is dropped only when 8191 events waited at the read index it saw |
| `TraceRing.SizeIsLength` | common/lxb_ring.h:126-130 | the utilisation is the queue's length |
| `TraceBuffer.Buffer.constructor` | common/lxb_ring.h:35-49 | an empty ring |
| `TraceBuffer.Buffer.Push` | common/lxb_ring.h:68-92 | queued unless 8191 wait; a drop is counted in 32 bits and changes no event |
| `TraceBuffer.Buffer.Pop` | common/lxb_ring.h:103-118 | the oldest event, or none |
| `TraceBuffer.Buffer.Used` | common/lxb_ring.h:126-130 | how many wait |
| `Checksum.FoldIsOnes` | common/common_sum.c:12-33 | adding first and folding at the end is the one's-complement sum of RFC 1071 with every carry brought round at once, odd lengths included |
| `Checksum.TwoFoldsDo` | common/parsing_helpers.h:178-192 | two folds are the whole fold loop for every 32-bit sum |
| `Checksum.Compute` | common/common_sum.c:12-33 | the complement of the one's-complement sum |
| `Checksum.SetIpChecksum` | common/common_sum.c:133-138 | the check field is the complement over the header without it; a header that reaches the field then sums to all ones; nothing else was written |
| `Checksum.SetTcpChecksum` | common/common_sum.c:35-93 | the check field is the complement over pseudo-header and segment without it, for IPv4 and IPv6 addresses, any length; they then sum to all ones whenever the field is within the length, and at 17 octets exactly when the sum without the field is at least 0xFF00 |
| `Checksum.SetTcp4Checksum` | common/common_sum.c:95-131 | likewise, the case of 17 octets included, with the length taken from the IPv4 header in 16 bits |
| `Checksum.DecreaseTtl` | common/parsing_helpers.h:165-171 | the in-place update of TTL and check field |
| `Checksum.DecreasedChecks` | common/parsing_helpers.h:165-171 | a valid header is valid after it if and only if the TTL was not zero (section 3 of RFC 1624) |
| `Checksum.LengthsOfHeader` | common/common_sum.c:95-98 | header length and segment length from the fields of section 3.1 of RFC 791, in 16 bits |
| `Checksum.PseudoOfIp4` | common/common_sum.c:101-112 | the summed words are the pseudo-header of section 3.1 of RFC 793 |
| `Checksum.PseudoOfIp6` | common/common_sum.c:35-93 | a segment checks under them exactly when it does under the layout of section 8.1 of RFC 2460 |
| `Checksum.WorkedExample` | common/common_sum.c:12-33 | the example of section 3 of RFC 1071 |
| `Pdi.InitIsBuilt` | common/common_pdi.h:97-122 | every key assembled by the INIT macros has no value bit outside its mask |
| `Pdi.KeyEqIsEquality` | common/pdi.h:122-130 | on keys built by the INIT macros the masked comparison is equality |
| `Pdi.MatchesExactly` | common/pdi.h:132-140 | a built key is matched by exactly the packets whose every field agrees with its value in each bit of its mask, or lies between the bounds of its range |
| `Pdi.InitMatches` | common/common_pdi.h:97-122 | the same in terms of the arguments of the INIT macros |
| `Pdi.InsertKeeps` | common/common_pdi.c:82-140 | insertion keeps preference order, order of arrival among equals, and no duplicates |
| `Pdi.DeleteKeeps` | common/common_pdi.c:143-176 | so does deletion, which adds nothing |
| `Pdi.DeleteUndoesInsert` | common/common_pdi.c:82-176 | deleting a rule that was just inserted gives the list back |
| `Pdi.InsertIsIdempotent` | common/common_pdi.c:110-120 | inserting the same preference and key again is refused and changes nothing |
| `Pdi.RunOrdered` | common/common_pdi.c:82-176 | after any run of inserts and deletes the list is ordered and free of duplicates |
| `Pdi.LookupIsBest` | common/common_pdi.c:207-220 | after any run, a lookup that can match finds the matching rule of highest preference, the first inserted among equals |
| `Pdi.LookupIsFor` | common/common_pdi.c:207-220 | after any run over built keys, lookup finds the best of the rules that describe the packet field by field, or that there is none |
| `PdiMap.Map.constructor` | common/common_pdi.c:14-31 | an empty map |
| `PdiMap.Map.Insert` | common/common_pdi.c:82-140 | the linked nodes become the inserted list, or a duplicate is refused and nothing changes; acyclic, `nr` its length in 32 bits |
| `PdiMap.Map.Delete` | common/common_pdi.c:143-176 | the linked nodes become the list without that rule, whose node is returned, or nothing changes |
| `PdiMap.Map.Get` | common/common_pdi.c:207-220 | the first node whose key describes the packet, field by field and bit by bit, or none if no key does |
| `PdiMap.Replay` | common/common_pdi.c:82-220 | any run of inserts and deletes on the linked list leaves the list of that run, and a lookup then finds the best of the rules that describe its packet |

## Left out

- Weak memory: concurrent parts are state machines of sequentially consistent steps; only the trace ring's indices may be read stale.
- `malloc` failure, `epoll`, `eventfd`, clocks and sinks: success, or an answer given as a parameter or a nondeterministic step.
- The SSE4.2 scan, the response parser and `phr_parse_headers` of picohttpparser: easier relatives of what is modelled; the `int` width of a request's length is not modelled either.
- ChunkedSpec.FeedIsOneCall: the totals of read and overhead octets are compared only while the message is undecided, because the code stops counting overhead when it decides; a completed message's return code is the leftover of the last buffer.
- NetidProtocol.ReadsAreExact: a run has fewer than 2^25 publications during one read, the width of the generation in the state word; packed words are records of their fields, and the writer's stores to the hidden table are arbitrary until it publishes.
- The gate's error texts, request ids and correlation fields of the refusal record; a null string is the empty one; the control plane's answers are functions of the call's arguments.
- The log's positions do not wrap at 2^64 bytes; formatting, rotation and the fatal-signal dump are not modelled.
- LogFlush.FlushedMeansOut: lines are counted, not copied; `LogRingProtocol.QueueIsExact` says which bytes a ring delivers.
- The notifier's evict requests, and the wake bit of shard 32, which a 32-bit mask does not have: the set of shards to wake is a set. The wake fd is counted and not listed in the kernel mirror. Generations are distinct per fd, as callers provide them.
- Notify.Notifier.Pause: no other thread comes between its two sections; `NotifyPause` has the interleavings.
- NotifyPause.NoAcceptLost: the pause table's room is abstract there; a pause may be declined at any time.
- jsmn with `JSMN_STRICT` or `JSMN_PARENT_LINKS`, and texts longer than an `int` can index.
- Checksum.SetTcpChecksum: the host is little-endian; the buffer holds the check field and the length to be summed.
- IPv6 rule keys, the per-rule value hash and the NTOH macros of the rule list.
- llhttp and the HTTP glue, the socket, cgroup and libbpf wrappers, configuration loading and the BPF map layouts: generated code, plumbing, or easier members.
