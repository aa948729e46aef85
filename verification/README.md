# Event stream readers and the resume protocol of the Tether Go client

The client reads four Server-Sent-Events streams: named channels (`channels_client.go`), daemon
events (`events.go`), AI chat (`ai_stream.go`) and mailbox subscriptions (`messaging_store.go`).
This project models those readers over one incremental line scanner, the goroutine, buffer and
cancellation protocol around a channel subscription, and the protocol by which a consumer resumes
a channel from its last processed sequence number. Session bootstrap, client credentials and error
matching are modelled as well.

## How it is built

- `Text`, `Numbers`: byte-string and 64-bit decimal helpers. A `char` stands for one byte; every
  theorem holds for all strings.
- `Lines`: `Split`, the lines of a whole stream, and the class `Scanner`, whose reads return any
  non-zero number of bytes. Which number is a nondeterministic choice, so what is proved of
  `Scanner.Scan`, and of the readers built on it, holds for every way the bytes can arrive.
- `Frames`: frames as runs of lines between blank lines, and the two rules for the end of a
  stream: `Discarding` (the unfinished frame is dropped) and `Flushing` (it is flushed, but only at
  a clean end). What a frame means is a parameter `h`, so the theorems of `Frames` and
  `Truncation` hold for every frame reader.
- `ChannelCuts`: what that means for the texts and messages of the channel reader, with its limit.
- `ChannelReader`, `EventReader`, `AIReader`, `MessagingReader`: one imperative loop each, with the
  source's accumulators, proved against a function of the stream. JSON decoding is the parameter
  `decode`. If the caller cancels, it does so after any number of lines (`cancelAt`); from then on it may be
  seen at any moment (`Fields.Poll`), and where a send competes with it either may win, so each
  contract covers every choice. `broken` says that the body ended with an
  error; the scanner's own error after a hundred empty reads is the same as a body broken there.
- `EventStreamStandard`: sections 9.2.5 and 9.2.6 of the HTML Living Standard, written down
  separately, and what the channel reader makes of the same stream.
- `Wire`: what a daemon may write, which is every line a stream can hold, and that reading gives it
  back.
- `EventWire`, `ChatWire`, `MailboxWire`: the same for the other three streams, with frames left open at
  the end and frames that do not decode.
- `Subscription`: the producer goroutine, its consumer and cancellation as a step relation. The
  bytes that the body returns before it ends are given; as they are arbitrary, so is the moment at
  which a cancelled body breaks off.
- `Resume`: history pages and broken-off subscriptions over a log that may grow in between. Of the
  daemon it is assumed (`Possible`) that sequence numbers grow, that a page or stream carries a prefix
  of what comes after the cursor, and that a page's `next` is its last entry's number.
- `Bootstrap`, `Credentials`, `ErrorTrees`: the smaller cores.

Large functions are put out of the solver's sight with `hide` where a proof does not need them.

## Where the code differs from what is said about it

- The comment at `channels_client.go:160-161` says an incomplete frame at the end of the stream is
  discarded. A stream that ends in a carriage return at the start of a line is an exception: that
  carriage return is dropped, the empty line flushes the frame. In
  `ChannelCuts.StrayReturnDeliversEarly` a cut delivers a message the full stream does not have.
  `ChannelCuts.PayloadsOfACut` and `ChannelCuts.MessagesOfACut` say for each cut of each stream
  whether this happens; `Truncation.TruncationSafeExactly` says which streams complete no frame early
  at any cut, events or not.
- `channels_client.go:151-154` uses "something is there already" for "an earlier data line was
  seen", so leading empty data lines are lost, and events left without data are not delivered:
  `EventStreamStandard.LeadingEmptyLineIsLost` has a stream with both. The agreement with the standard
  is stated with leading line feeds stripped; `EventStreamStandard.ReaderIsStandardExactly` says when
  nothing is lost.
- A line counts against the limit without its line feed: a line of exactly the limit is already too
  long (`Frames.TooLongExactly`). `README.md:252` of the repository says lines up to 16 MiB;
  `ChannelCuts.LimitItselfIsTooLong` shows both sides of the boundary.
- `bootstrap.go:122-125` announces an error for an invalid explicit session id; the code accepts
  any id, and only a failure to mint one is an error.

## Model

| member | source | states |
|---|---|---|
| Lines.Scanner.Scan | channels_client.go:114-135 | one call returns the next line of the whole split of what is left, or says that a line filled the buffer, whatever sizes the reads have |
| Lines.CompleteLine | channels_client.go:114-135 | a line feed in the buffer ends the first line, whatever has yet to arrive |
| Lines.FullBuffer | channels_client.go:115 | a full buffer without a line feed is an over-long line, whatever has yet to arrive |
| Lines.LineEndings | channels_client.go:134-135 | LF and CRLF end a line, only one CR goes with the LF, and a last line needs no end |
| Text.SpaceIsUnicode | ai_stream.go:60 | white space is the encodings of Unicode's white space code points |
| Text.TrimSpaceExactly | ai_stream.go:60 | trimming takes white space off both ends, and what is kept neither starts nor ends with any |
| Frames.TooLongExactly | events.go:38 | a scan stops early if and only if the stream has `limit` bytes in a row without a line feed |
| Frames.LineLimit | events.go:37-107 | with a smaller line limit both kinds of frame reader deliver a prefix, and the same outcome when every line fits |
| Frames.FramesAreLocal | events.go:39-68 | after a blank line, later lines deliver what they would on their own: nothing leaks from one frame into the next |
| Frames.DeliverIsPrefixOfEvents | channels_client.go:134-143 | what is delivered up to the first failing frame starts the frames' own events, and is all of them when none fails |
| Frames.FirstFailureEnds | channels_client.go:134-143 | the first frame that fails ends the stream: exactly the events before it are delivered |
| Frames.TerminalErrorIs | channels_client.go:137-159 | the error is the decoding error if some frame fails, else the too-long error if some line fills the buffer, else that of a broken body, else none |
| Truncation.CutIsSafeExactly | channels_client.go:134-161 | at one cut the completed frames are a prefix of the full stream's, unless the cut falls right after a stray carriage return, and then never |
| Truncation.DiscardingIsSafeExactly | channels_client.go:118-161 | at one cut the events are a prefix of the full stream's, unless the cut falls right after a stray carriage return, no earlier frame failed, the open frame is an event, and the full stream's next one is not that |
| ChannelCuts.PayloadsOfACut | channels_client.go:118-161 | the texts that reach the decoder from a cut stream are a prefix of the full stream's, with the same exact exception |
| ChannelCuts.MessagesOfACut | channels_client.go:118-161 | the messages delivered from a cut stream are a prefix of the full stream's, with the same exact exception, at the reader's own limit |
| ChannelCuts.StrayReturnDeliversEarly | channels_client.go:118-161 | a concrete stream and cut for which a message is delivered that the full stream does not have |
| ChannelCuts.LimitItselfIsTooLong | channels_client.go:115 | a line of exactly 16 MiB ends the stream with the too-long error, a line of one byte less is read |
| Truncation.TruncationSafeExactly | channels_client.go:134-161 | at every cut the flushed frames are a prefix of the full stream's, if and only if no reached line starts with a stray carriage return |
| Truncation.LineEndsAreCleanStarts | channels_client.go:134-161 | streams whose carriage returns are all in line ends have no such line |
| Truncation.DiscardingIsTruncationSafe | channels_client.go:134-161 | on those streams the messages of any cut are a prefix of the full stream's, failing frames and over-long lines included |
| Truncation.FlushBound | events.go:69-111 | of any cut of any stream a flushing reader delivers a prefix of the full events and at most one more, made from the frame the cut left open |
| ChannelReader.HoldByField | channels_client.go:145-154 | the accumulators hold the frame's data lines put together and its last event line, and nothing else |
| ChannelReader.SubscribeChannel | channels_client.go:110-162 | the loop delivers exactly the decoded message frames up to the first failure, with the terminal error; under cancellation a prefix that holds everything sent before, and no error |
| ChannelReader.Flush | channels_client.go:118-133 | a frame is skipped, sent, abandoned only after cancellation, or undecodable |
| EventReader.HoldByField | events.go:70-100 | sequence, kind and data of an event come from its own frame's id, event and data lines; a non-numeric id counts as absent |
| EventReader.FrameEvent | events.go:43-66 | a frame's event has the last numeric id, the last event line, and scope, session id and payload of its decoded data, each in its place; without data these are empty; undecodable data fails; an empty frame gives nothing |
| EventWire.EventRoundTrip | events.go:37-111 | events written on a stream, with comments, other fields, non-numeric ids and other frames in between, are delivered as written; one left open at the end is delivered unless the stream broke off |
| EventWire.UndecodableEventEndsAll | events.go:71-75 | data that does not decode ends the stream with the decoding error after the events written before it, whatever follows |
| EventReader.StreamEvents | events.go:37-111 | the loop delivers exactly one event per non-empty frame with its payload, the last frame flushed at a clean end, and returns the terminal error; under cancellation a prefix that holds everything sent before |
| EventReader.Flush | events.go:43-68 | an empty frame is skipped, one without data sent without payload, undecodable data ends the stream |
| EventReader.EventsOfACut | events.go:69-111 | the events of a cut stream are a prefix of the full stream's and at most one more, from the open frame |
| AIReader.AIChatStream | ai_stream.go:19-70 | uncancelled: exactly the frames' events and the terminal error; cancelled, under any choices: a subsequence of the frames' events, although abandoned data stays and later frames are added to it, starting with everything sent before |
| ChatWire.ChatRoundTrip | ai_stream.go:44-68 | events written over any number of data lines, with any white space around their texts and other lines and frames in between, are delivered as written; one left open at the end is delivered unless the stream broke off |
| ChatWire.PaddedLine | ai_stream.go:56-61 | of a data line the reader keeps the text without the prefix and the white space around it |
| ChatWire.UndecodableChatEndsAll | ai_stream.go:46-51 | data that does not decode ends the stream with the decoding error after the events written before it, whatever follows |
| AIReader.Flush | ai_stream.go:27-42 | the data is dropped only after a send; when cancellation wins it stays |
| AIReader.AtBlankLine | ai_stream.go:27-52 | the state kept at a blank line: an abandoned event may still be sent later, in its place, and only once |
| MessagingReader.Subscribe | messaging_store.go:190-210 | the loop delivers the decodable data lines in order; under cancellation a prefix that holds everything sent before |
| MailboxWire.OneMoreEvent | messaging_store.go:196-203 | a line of `data`, colon, space and a text adds the text's message if it decodes, and nothing otherwise |
| MailboxWire.NoEvent | messaging_store.go:196-198 | any other line adds nothing |
| MailboxWire.MailRoundTrip | messaging_store.go:194-209 | messages written on one spaced data line each, with other lines and frames in between, are delivered as written, ended or not |
| MessagingReader.CutDeliversAPrefix | messaging_store.go:194-209 | if no data line's payload decodes before it is complete, any cut delivers a prefix, without anything being discarded at the end |
| MessagingReader.LimitDeliversAPrefix | messaging_store.go:194 | with a smaller line limit a prefix is delivered, and the same when every line fits |
| MessagingReader.ReadersAgree | messaging_store.go:195-209 | on streams whose frames have one decodable data line each, reading by lines and reading by frames deliver the same |
| MessagingReader.SubscriptionsAgree | messaging_store.go:194-209 | such streams, ending at a blank line, give the mailbox reader and the channel reader the same events |
| EventStreamStandard.PayloadsFollowStandard | channels_client.go:118-155 | on every stream with carriage returns only in line ends, what reaches the decoder is exactly the data of the standard's message events, leading line feeds stripped and empty ones left out |
| EventStreamStandard.ReaderIsStandardExactly | channels_client.go:121-154 | nothing is stripped or left out if and only if no message event has empty data or data that starts with a line feed |
| EventStreamStandard.LeadingEmptyLineIsLost | channels_client.go:121-154 | a concrete stream of which the reader loses a leading line feed and an event with empty data, at the reader's own limit |
| EventStreamStandard.ReaderFollowsStandard | channels_client.go:118-155 | on those streams the reader delivers what decoding that data in order gives, up to the first failure |
| EventStreamStandard.BufferSnoc | channels_client.go:150-154 | one data line does to the reader's data what it does to the standard's data buffer, up to leading line feeds |
| Fields.DataIsJoin | channels_client.go:150-154 | when the first data line is not empty, the data is all lines joined by line feeds |
| Wire.RoundTrip | channels_client.go:134-155 | messages written over any number of data lines, with or without the optional space or colon, with comments, other fields, other frames and any mixture of line ends, are read back as exactly those messages |
| Wire.UndecodableMessageEndsAll | channels_client.go:118-143 | a message frame that does not decode ends the subscription with the decoding error, after exactly the messages written before it, whatever follows |
| Wire.AnyLineIsWritten | channels_client.go:145-155 | the written form covers every non-blank line without line breaks |
| Wire.RenderedFrames | channels_client.go:134-155 | a written stream is taken apart into exactly the frames written |
| Subscription.EveryRunIsSafe | channels_client.go:108-162 | in every interleaving: at most 16 buffered, received starts sent starts parsed, at most one error put, the error channel closes first, nothing is sent on a closed channel |
| Subscription.DrainedRunEnds | channels_client.go:110-162 | after draining the events a receive of the error never blocks and gives the terminal error or nothing; uncancelled, everything was received and it is exactly the terminal error |
| Subscription.NothingBlocks | channels_client.go:127-132 | until it exits the producer can step, unless the buffer is full, nothing is cancelled and the consumer can receive; its steps use up a bound nobody else adds to |
| Subscription.EveryRunEnds | channels_client.go:110-162 | every run holds at most twice the lines and four producer steps, and a bounded number of steps in all; where neither the producer nor a receive can go on, the producer has exited and the buffer is drained |
| Subscription.FinishedRunIsComplete | channels_client.go:110-162 | a run that cannot go on has both channels closed and everything sent received; uncancelled, that is exactly the stream's messages and its terminal error |
| Subscription.SomeRunDelivers | channels_client.go:110-162 | every stream has a run in which the consumer receives all of its messages and its error |
| Subscription.CanFinish | channels_client.go:110-162 | from wherever a run has come to, it can be finished without cancelling it |
| Subscription.CancelledIsSilent | channels_client.go:137-141 | cancelled before the stream ended or a frame failed, a subscription never reports an error |
| Subscription.StepKeeps | channels_client.go:110-162 | every step of producer, consumer and canceller keeps the protocol's invariant |
| Resume.AfterIsTheRest | channels_client.go:62-63 | the entries after a cursor are exactly the log from its first number above the cursor on |
| Resume.RunIsExactlyOnce | channels_client.go:88-163 | over any run of pages and subscriptions cut at any byte, with the log growing in between, the processed messages are exactly the first ones of the log above the start, without a gap |
| Resume.ContactKeepsExactlyOnce | channels_client.go:38-86 | one page, with the cursor it comes with, or one broken-off subscription keeps exactly-once, and what is left to read is exactly the rest |
| Resume.ContactMakesProgress | channels_client.go:62-86 | a subscription of which message frames arrived whole, and every non-empty page, leave strictly less; after an empty page every entry has been processed |
| Resume.PagingEnds | channels_client.go:62-86 | over more pages than entries are left, everything there at the first page is processed; with nothing published in between, that is exactly the log from its first number above the start on |
| Resume.HistoryThenLive | channels_client.go:62-90 | once a page comes back empty, everything in the log by then has been processed, and any contacts that follow add exactly a prefix of what is published later, from the page's cursor |
| Resume.ReceivedIsAPrefix | channels_client.go:134-161 | wherever a subscription breaks off, what it delivers is a prefix of the messages it carries |
| Resume.WholeFramesArrive | channels_client.go:134-143 | every message whose frame arrived whole, in lines within the limit, is delivered |
| Resume.AnyInterleavingIsAContact | channels_client.go:110-162 | what the consumer received in any interleaving, cancelled or not, is what some contact of a run gains |
| Resume.ReconnectAsksForTheRest | channels_client.go:93-103 | the cursor of any run is accepted, is read back from the query as the same number, and asks for exactly what is missing |
| Resume.QueryForms | channels_client.go:93-103 | no name or a negative cursor is refused, no cursor starts live, 0 asks for everything |
| Resume.LiveStart | channels_client.go:88-90 | once a message of a live stream, cut anywhere, was processed, its cursor gives exactly the rest since connecting; nothing is lost since an earlier live connection without messages if and only if nothing was published in between |
| Resume.AfterSuffix | channels_client.go:62-63 | the entries after the last of some processed ones are exactly the remaining ones: the cursor is exclusive |
| Numbers.FormatThenParse | events.go:86-92 | a 64-bit number written in decimal is read back as the same number |
| Numbers.ParseIntExactly | events.go:86-92 | a text is read as a number if and only if it is the number's digits after an optional sign and any zeros, within 64 bits |
| Bootstrap.ResolveSessionBootstrap | bootstrap.go:126-167 | the explicit id, else the environment's, else a minted one; the daemon's answer changes only whether the session counts as registered, and the request carries the resolved id and intent |
| Bootstrap.OneIdentity | bootstrap.go:126-166 | over any hook calls without explicit ids all calls give one id, minted at most once, and the daemon creates at most that one |
| Bootstrap.RunHooks | bootstrap.go:9-24 | hook calls run one after another, each exporting its id, give the ids they would give without any daemon; without explicit ids all calls and all requests carry one id |
| Credentials.New | client.go:72-82 | applying the options in order gives the credential of the last token file option, else of the last token option, else of the environment, if it is valid and the last base URL is an origin, and keeps the last HTTP client given |
| Credentials.Client.Apply | client.go:34-60 | each option sets its own fields and leaves the others |
| Credentials.Client.ResolveToken | credentials.go:51-78 | the decision chain over explicit file, explicit token, environment, proxy marker and default file |
| Credentials.ValidBearerToken | credentials.go:80-90 | accepts exactly 1 to 256 printable ASCII bytes without spaces |
| Credentials.TokenFileWins | credentials.go:18-23 | a token file option wins over tokens before and after it and over the environment; an origin it cannot be sent to is refused |
| Credentials.TokenFileCases | token_file_unix.go:14-36 | a missing and an insecure file are refused each in its own way, and content is accepted exactly when it trims to a valid token within 257 bytes |
| Credentials.RefusedWithoutFile | credentials.go:52-72 | an explicit empty path is refused, and so is a missing home when nothing else decides |
| Credentials.LastHTTPClientWins | client.go:34-40 | the last HTTP client given is used, nil ones apart |
| Credentials.LastBaseURLWins | client.go:42-48 | the last base URL that is not empty is used, without the slashes it ends in |
| Credentials.LastTokenWins | credentials.go:12-16 | without token files the last token decides, and an empty one makes the client anonymous |
| Credentials.AmbientCredential | credentials.go:61-77 | without explicit credentials a proxied session never gets the operator's token, and only a missing default file is forgiven |
| Credentials.BoundedReadIsWhole | token_file_unix.go:27-35 | the bounded read accepts exactly the valid trimmed whole files below 258 bytes |
| Credentials.PaddedTokenIsRead | token_file_unix.go:27-35 | a valid token with white space around it is read back if and only if the file has at most 257 bytes |
| ErrorTrees.TranslationKeepsMatches | messaging_store.go:256-270 | translation keeps every match and the API error found, and adds exactly the sentinel its kind calls for, whatever matching methods other error types bring |
| ErrorTrees.TranslatedNotFound | messaging_store.go:256-270 | the result matches the not-found sentinel if and only if the error already did or is a not-found answer |
| ErrorTrees.UnreachableIsMarked | errors.go:89-109 | marking keeps every match and marks exactly the unreachable errors |
| ErrorTrees.BothAddsOnlyItself | messaging_store.go:265-267 | wrapping with a sentinel adds that sentinel and the wrapper, and nothing else, to what matches at any depth |
| ErrorTrees.MatchIsSearch | errors.go:56-68 | an error matches a target if and only if some error of its tree is it, or is an API error with the status and code asked for, or matches by its own method |
| ErrorTrees.FoundApiIsFirst | errors.go:73-76 | the API error found is the first of the tree |
| ErrorTrees.TranslationByAnswer | messaging_store.go:256-270 | the first API error's status 404 or code not_found, else 422 or preset_lifecycle, decides the sentinel, and without one nothing changes |
| ErrorTrees.UnreachableExactly | errors.go:96-109 | unreachable is a refused connection or missing socket in the tree, a first operation error that is a dial, or a text that says so |

## Left out

- HTTP transport, dialing, timeouts, query encoding other than the cursor, and the one-request calls: thin wrappers.
- JSON itself: decoding is a parameter. Assumed where needed: the decoder gives back what was encoded (`Wire.Inverse`), the AI decoder ignores what follows the first value (`AIReader.DecodesFirstValue`), no payload decodes before it is complete (`MessagingReader.NoPrefixDecodes`).
- The goroutines around the AI and the daemon event readers as step relations: their loops are modelled with every choice of cancellation, but not the hand-over to the consumer, which is that of `Subscription` (AI) or that without a buffer and with one error value, possibly nil, always put (daemon events).
- The argument checks of `ChannelMessages` and its `Last` mode: independent one-line checks.
- Lines.Scanner.Scan: a body that reports its end together with its last bytes is not modelled, which matters only for a last line of exactly the limit.
- Credentials.New: parsing the listen address into the first base URL, parsing a URL (`isOrigin` is a parameter), and the refusal of redirects to another origin are not modelled; owner, mode and link checks of a token file are the case `Insecure`.
- Fairness and time: a receive that can happen may still be delayed by the scheduler.
- The standard's byte order mark, `retry` field and last event id: the code does not implement them.
