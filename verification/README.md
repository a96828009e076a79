# khttp: a verified model

A Dafny model of the parts of the khttp server in which a mistake would be hard to see by
reading: the incremental HTTP request parser, the URL parser, the assembly of header
lists, the response writer, the work queue, the thread pool, and three container
algorithms from the bundled `ut` headers. `dafny verify dfyconfig.toml` checks all of it.

## How it is organised

The request parser comes in three layers. `HttpParser` has the case bodies of the switch as
functions and, built from them, a reference run that looks at one byte at a time, knows
no buffers, and records callbacks in a joined trace (adjacent data of one kind is one
piece). `HttpExecute` has the real function as a class: marks into the caller's buffer,
bodies read in bulk, re-execution, pausing and failing callbacks, early returns; its
contract says it follows the reference run, and that wherever a call ends it has stopped at
one of the points `HttpSteps` takes that run through. Everything else is proved about the
reference run and its points and carries over: `HttpInvariant` and `HttpLimits` (safety, lengths,
the size limit), `HttpSession` (cuts and pauses are invisible), `HttpGrammar` (order and framing
of callbacks), and the chain `HttpSegments`, `HttpHeaders`, `HttpMessages`, `HttpBodies`,
`HttpRoundTrip`, which reads back everything a client can write, from method names to
pipelines of messages with chunked bodies and trailers, with lines that end in CRLF or in a bare line feed;
`HttpAlphabet` compares the byte classes and the folding of cases with the letters the standards write down, `HttpMeanings`
says what header lines mean for a request, `HttpChunks` is a client that writes sizes in hexadecimal, `HttpSimple` has the
requests without a version, and `HttpLoose` what else the parser lets through and exactly which bytes it refuses where; `HttpHeadLimit` tells exactly which heads
are too long. `HttpReader` is the application's header list on top of the trace,
`HttpExamples` has two requests letter by letter, `HttpWitnesses` concrete messages for which the list or the limit surprises, and `HttpBareLine` those
with a header line that has no colon.

`HttpUrl` and `HttpHost` are the two passes over a URL as machines that file bytes under
parts, `HttpUrlParse` relates them to a grammar in both directions, `HttpUrlFields` has
the loops that fill in the result struct, `HttpWrittenUrl` has URLs as a client writes them, and `HttpUrlRuns` ties the URL parser to the
request parser.

`Kmp` is the substring search of `utstring.h`. `HashTable` has the hash of `uthash.h` on values and
`HashNodes` refines it to handles that are linked twice, with everything `HASH_FSCK` looks at as
invariant. `MergeSort` is the list sort of `utlist.h` on linked nodes. `QueueProtocol` is the work queue as atomic steps
between lock and unlock, with sleeping threads in the state and a place of its own for an
item that is in neither list; `QueueOwnership` has the results over all runs, `QueueLives` follows one item and one worker; `QueueList`
refines the steps to the doubly linked list, and `TokenList` the list of items in processing. `SocketModel`, `DataBuffers`,
`ResponseHead` and `ResponseWriter` are the sending side over a scripted socket, `HeadReader` is a client that reads heads back, `VisitOutcome` tells what a
visit of the writer comes to, and `ThreadPool` is the management loop.

## Conventions

- A byte is a `char` with the byte's code, a buffer a `string`. `HTTP_PARSER_STRICT` is 1 and
  the type `HTTP_REQUEST`, as the server builds and uses the parser.
- Tables and branches are as written: `unhex` lists 128 entries, so bytes from 128 on read
  as 0; the 8-bit `index` wraps; a Content-Length keeps its spaces out of the value.
- The answer of `on_headers_complete` is a parameter (`skip`), as are the replies of all callbacks,
  the times at which workers look at their flags, the date in a response, and what `write` does.
- `unsigned long` and `size_t` are 64 bits wide. Buffer and list sizes are unbounded numbers
  except where the source's width matters.

## Where the code and its comments or callers part

- CONNECT targets are said to hold only a host and a port; `ConnectExact` gives the exact
  condition and `ConnectWithMore` a target that has more.
- A URL with a fragment directly behind its host is refused, though RFC 3986 allows it (`FragmentRefused`).
- A header line that is continued on the next line means nothing any more: "Transfer-Encoding: chunked" followed by a line
  that begins with a blank leaves the body unframed (`FoldRun`).
- The digit table of chunk sizes lists 128 entries, so bytes from 128 on are taken for the digit 0 (`BodyRefuses`).
- The port is said to be validated already, but `strtoul` reads on past the end of the URL;
  `PortExact` gives the exact condition and `PortReadPast` a buffer.
- The header callbacks copy with `strncpy` and join with `strcat`, so how a value with a NUL in
  it is assembled depends on the cut; `FragmentationExact` gives the exact condition and `NulMatters`
  a request.
- The same header callbacks run for trailers. With the list already filed, the header state stays
  where the last line left it, so each trailer is filed when the next one begins and the last one
  stays under construction, to be filed under the next message if the reader is not reset
  (`HeaderListRoundTrip`, `PipelinedList`). After a last header line without a colon, which the
  parser accepts (`BareSession`), the first trailer finds a NULL header: `FaultExact` and `BareLineFaults` give the
  exact condition and `BareTrailer` a request.
- `src/http-server.c:65` asks whether `http_parser_parse_url` returned a negative number; it returns 1
  on failure, so the branch is never taken.
- `src/server-loop-read.c:81` assigns where it means to compare, so the server's own reader leaves its
  loop after one successful read; the model's caller (`Feed`) goes on and resumes paused parsers.
- A body blocked by EAGAIN makes the writer let go of the item without marking it blocked, so
  the item is returned as finished with a response under way, unless a head met EAGAIN earlier in
  the same visit. A head blocked in the inner loop is retried at once, so the thread spins until the
  socket takes it, and the item is then kept although nothing is left. `VisitOutcome.OfVisit` tells from
  what the kernel is going to do, the sizes of what is buffered, of heads and of bodies, and which
  responses close the connection, to what each reply is given and where the visit ends; `Serve` proves
  that this is what happens, and `FlagExact` says exactly when the flag is right. `TakenThenBlocked` and
  `BlockedThenTaken` are the two ways in which it is wrong, and `BodyForgotten` and `NothingKept`
  build a connection of each kind and serve it.
- `src/http-reader.c:72` looks at the version only when no header has been seen since the reader was new,
  so a pipelined message under another version is let through behind one that is served (`RefusedExact`,
  `PipelinedList`), and so is a request with no header at all.
- The spilling case of `data_buffer_list_append` links the last buffer to itself through the chain
  it is already part of; the writer never gets there (`AppendHead`).
- Trailer bytes of a chunked message count towards the size limit of the next message's head,
  because `nread` is only reset when headers are complete or a size line ends; `NextHeadExact` gives the
  exact condition and `TrailersCount` two messages.

## Model

| member | source | states |
|---|---|---|
| HttpParser.AgainLowersRank | lib/http_parser.c:1240-1604 | A byte is only re-executed after a change of state that moves down a rank of at most 3, so at most four case bodies run for one byte. |
| HttpInvariant.InitSound | lib/http_parser.c:1975-1984 | The initialised struct satisfies the invariant and the asserts of its first case. |
| HttpInvariant.ScaleExact | lib/http_parser.c:1505-1522 | Under the overflow guard, multiplying a length by the base and adding a digit neither wraps 64 bits nor gives the "unknown length" sentinel. |
| HttpInvariant.MatchStep | lib/http_parser.c:1312-1371 | A keyword matcher continues, completes or gives up, and never reads its keyword beyond the last letter. |
| HttpInvariant.CaseKeepsSound | lib/http_parser.c:664-1890 | From a struct for which its asserts hold, every case body leaves a sound struct, and when the byte is re-executed the asserts of the next case hold too. |
| HttpSteps.StepsSound | lib/http_parser.c:662-1890 | Before every case body of every run, in the middle of a byte or not, the asserts of that case hold; between bytes the invariant does. |
| HttpInvariant.RunAllSound | lib/http_parser.c:641-1892 | Safety over whole runs: any input leaves a sound struct or a reported error, and a run that finishes has used every byte. |
| HttpSteps.RunPassesPoints | lib/http_parser.c:641-1892 | Taken one case body at a time, a run passes through its points: from each of them it still comes to the same result. |
| HttpSteps.PassesBody | lib/http_parser.c:1719-1868 | Body bytes read in one piece pass through the steps of reading them one by one. |
| HttpLimits.CaseKeepsLimit | lib/http_parser.c:643-660 | No case body delivers more URL, field or value bytes than have been counted since headers were last complete; bodies and chunk lines deliver none. |
| HttpLimits.StepsLimited | lib/http_parser.c:643-660 | At every point of every run the head bytes delivered stay within `nread`, and `nread` within the limit. |
| HttpLimits.HeadIsBounded | lib/http_parser.c:643-660 | After every call of any sequence of calls, rejected or not, no more than 80 KiB of URL, names and values have been delivered since headers were last complete. |
| HttpRuns.RunAllConcat | lib/http_parser.c:641-1892 | The byte-at-a-time reference run over a concatenation is the run over the first part followed by the run over the second. |
| HttpRuns.CaseIgnoresCount | lib/http_parser.c:664-1890 | The header byte counter influences no case body except through the size limit. |
| HttpRuns.RunIgnoresCount | lib/http_parser.c:643-660 | Starting with a larger header count changes nothing in a run but the count, short of the size limit. |
| HttpExecute.FlushOwed | lib/http_parser.c:84-109 | Handing out a stretch of a buffer in one data callback gives the same joined trace as handing out its bytes one by one. |
| HttpExecute.StepBody | lib/http_parser.c:1719-1750 | A body read in bulk is that many steps of the reference run. |
| HttpExecute.Parser.Notify | lib/http_parser.c:60-82 | One callback is appended to the trace; the call goes on unless the callback paused the parser or failed. |
| HttpExecute.Parser.Perform | lib/http_parser.c:60-109 | After a case body the struct, the marks and the trace are what its outcome says, or the call ends early with what is still owed recorded; only a refusing `on_headers_complete` leaves something else, `F_SKIPBODY` as it was. |
| HttpExecute.Parser.ReadBody | lib/http_parser.c:1719-1868 | The two body cases consume as much of the body as the buffer holds, against the reference run. |
| HttpExecute.Parser.Switch | lib/http_parser.c:662-1890 | The switch with re-execution settles one byte as the reference run does. |
| HttpExecute.Parser.FlushMarks | lib/http_parser.c:1894-1912 | At the end of the buffer at most one leftover callback is made, with the bytes still owed. |
| HttpExecute.Parser.Loop | lib/http_parser.c:641-1912 | The loop over the buffer follows the reference run: same struct, same return value, same joined trace; after a pause, feeding the rest completes it; and where a callback pauses or fails it stops at that point of the run, with the trace up to and including that callback. |
| HttpExecute.Parser.Execute | lib/http_parser.c:576-1922 | One call with marks, bulk bodies, early returns, and callbacks that pause or fail delivers exactly what the byte-at-a-time run delivers up to the point where it stops; an empty buffer is the end of input. |
| HttpSession.LeftUpgrades | lib/http_parser.c:1676-1717 | A run leaves its buffer early only after a request that asked for an upgrade. |
| HttpSession.SessionAgrees | lib/http_parser.c:576-1922 | However a stream is cut into calls and wherever callbacks pause, the struct (header count aside), the offset and the joined trace are those of one uninterrupted run; a rejected byte is rejected at the same place with the same error. |
| HttpSession.SplitInvariance | lib/http_parser.c:576-1922 | Two ways of cutting and pausing one accepted stream give the same joined trace and the same struct but for the header count, and without pauses the same struct. |
| HttpSession.AnyCutAgrees | lib/http_parser.c:576-1922 | If one call on a buffer ends without error and upgrade, offering it in any non-empty pieces to callbacks that return normally consumes all of it and leaves the same struct and the same joined trace. |
| HttpSession.Feed | lib/http_parser.c:576-1922 | A caller that feeds whatever has arrived and resumes a paused parser at the returned offset produces a session, so all of the above applies to it. |
| HttpGrammar.CaseTracks | lib/http_parser.c:664-1890 | The state of the parser, its flags and its length determine where in the order of callbacks the trace stands, and every case body keeps to that order. |
| HttpGrammar.StepsOrdered | lib/http_parser.c:641-1892 | At every point of every run the callbacks made so far are in grammatical order. |
| HttpGrammar.CallInOrder | lib/http_parser.c:576-1922 | One call leaves the trace in order whatever it ends in: an error, the size limit, a refused callback, a pause or an upgrade. |
| HttpGrammar.TraceGrammar | lib/http_parser.c:641-1912 | After every call of any sequence of calls on any buffers, however each call ends, the trace is a prefix of (begin url (field value?)* headers-complete body* (field value?)* complete)*. |
| HttpGrammar.NothingAfterClose | lib/http_parser.c:665-673 | Nothing follows a message for which keep-alive is false. |
| HttpGrammar.IdentityBodyIsExact | lib/http_parser.c:1719-1765 | Between headers-complete and message-complete a message framed by Content-Length delivers exactly that many body bytes, and one without a body none. |
| HttpSegments.NameStep | lib/http_parser.c:949-1032 | For each of the 27 method names, each further letter matches the current guess or makes the one switch that leads towards it. |
| HttpSegments.MethodAccepted | lib/http_parser.c:908-1032 | Each of the 27 names followed by a space is recognised as its method. |
| HttpSegments.MethodTokenExact | lib/http_parser.c:908-1032 | The URL is awaited exactly when the consumed token is one of the 27 names, and the method is that one. |
| HttpHeaders.NameStateExact | lib/http_parser.c:1279-1385 | The header state after a name is special exactly when the name is the keyword, ignoring case. |
| HttpHeaders.NameRun | lib/http_parser.c:1229-1391 | A header name is delivered as one piece of field data and leaves the state that comparing it with the keywords tells. |
| HttpHeaders.ValueStateExact | lib/http_parser.c:1424-1571 | The chunked, keep-alive and close states are entered exactly by the matching value, ignoring case, with spaces after it. |
| HttpHeaders.ValueRun | lib/http_parser.c:1424-1571 | A value is delivered as one piece and leaves the state and length its text tells. |
| HttpHeaders.LengthExact | lib/http_parser.c:1448-1525 | A Content-Length value is accepted exactly when it is a digit followed by digits and spaces that stay below the guard, and then the length is its decimal value, spaces skipped, below the sentinel. |
| HttpHeaders.FinishMeans | lib/http_parser.c:1581-1605 | The flags set at the end of a header are those its name and value mean. |
| HttpMessages.LineRun | lib/http_parser.c:1229-1605 | A header line, ended by CRLF or a bare line feed, is delivered as one field and one value, with its meaning applied to the struct. |
| HttpMessages.LinesRun | lib/http_parser.c:1229-1605 | A block of header lines is delivered in order, with the meanings of all lines applied. |
| HttpMessages.BlankLine | lib/http_parser.c:1229-1241 | The blank line, CRLF or a bare line feed, announces the framing, then leads to a body or completes the message. |
| HttpMessages.UrlRun | lib/http_parser.c:1034-1105 | A URL the machine accepts is delivered whole, as one piece, in the state it leads to. |
| HttpMessages.VersionRun | lib/http_parser.c:1107-1227 | A version after the URL sets major and minor and ends the request line, with CRLF or a bare line feed. |
| HttpBodies.SizeRun | lib/http_parser.c:1767-1818 | A chunk size is the base-16 fold of its digits and never reaches the sentinel. |
| HttpBodies.SizeLineRun | lib/http_parser.c:1767-1845 | A size line, extension included, starts a chunk of that size, or the trailers when it is zero. |
| HttpBodies.ChunkRun | lib/http_parser.c:1847-1883 | One chunk delivers exactly its bytes and leaves the machine ready for the next. |
| HttpBodies.ChunksRun | lib/http_parser.c:1767-1883 | Decoding inverts encoding: the bodies of any list of chunks join to the payload. |
| HttpBodies.CodedBodyRun | lib/http_parser.c:1628-1883 | A whole chunked body, with any chunking, extensions and trailers, delivers the payload, then the trailers, then exactly one message-complete. |
| HttpChunks.HexReadBack | lib/http_parser.c:180-197 | A number written in base 16, in small letters or capitals, is read back. |
| HttpChunks.HexIsGood | lib/http_parser.c:1786-1818 | The parser takes exactly the sizes below 2^64 - 16. |
| HttpChunks.WrittenBodyRun | lib/http_parser.c:1628-1883 | Whatever pieces a client makes of a payload, and in whatever case it writes their sizes, the payload is delivered in one run, then the trailers, then one message-complete. |
| HttpRoundTrip.HeadRun | lib/http_parser.c:908-1605 | The head of a request is delivered as one begin, its URL, and each header once, in order, and leaves the struct its headers mean. |
| HttpRoundTrip.LengthFits | lib/http_parser.c:1448-1525 | The length announced by the headers of a request fits 64 bits. |
| HttpRoundTrip.MessageRun | lib/http_parser.c:908-1883 | A written request with a body in any framing, whichever of its lines end in CRLF and whichever in a bare line feed, is parsed into its own parts, and leaves the parser between messages, open or closed as its headers and trailers say. |
| HttpRoundTrip.UpgradeRun | lib/http_parser.c:1640-1690 | A request for an upgrade completes at its blank line and nothing after it is read. |
| HttpRoundTrip.PipelineRun | lib/http_parser.c:641-1892 | A pipeline of requests is delivered message by message. |
| HttpRoundTrip.AnySessionRoundTrip | lib/http_parser.c:576-1922 | Every session over the text of a pipeline, cut and paused in any way, delivers exactly its messages, in order, each completed once. |
| HttpExamples.LfGet | lib/http_parser.c:1229-1241 | `GET / HTTP/1.1 LF Host: a LF LF`: its six callbacks, however it is cut and paused. |
| HttpExamples.TenBytes | lib/http_parser.c:1767-1883 | A chunk of ten bytes with the size `a`, behind a chunked head: its callbacks, however it is cut and paused. |
| HttpAlphabet.ClassesExact | lib/http_parser.c:145-227 | Every byte class of the parser is the one RFC 7230, RFC 3986 and RFC 1123 write down. |
| HttpAlphabet.TokenFolds | lib/http_parser.c:145-177 | The token table turns every capital into its small letter and leaves all else. |
| HttpAlphabet.SpecialNames | lib/http_parser.c:1244-1384 | Whatever mixture of cases a name is written in, it is special exactly when its letters are those of one of the five. |
| HttpAlphabet.SpecialValues | lib/http_parser.c:1436-1571 | The same for the three values that set a flag, which blanks may follow. |
| HttpMeanings.HeadersMean | lib/http_parser.c:1581-1605 | A flag is set behind a header block exactly when one of its lines says so, and the last Content-Length counts. |
| HttpMeanings.RequestMeans | lib/http_parser.c:1640-1717 | How a request is framed, whether it asks for an upgrade and whether the connection stays open, told from the letters of its lines. |
| HttpSimple.SimpleRun | lib/http_parser.c:1086-1100 | A request without a version is complete at its blank line, and the connection is closed behind it unless a line says keep-alive. |
| HttpLoose.LeadRun | lib/http_parser.c:908-912 | Line ends between messages are skipped. |
| HttpLoose.ClosedRefuses | lib/http_parser.c:665-673 | After a message that closes the connection anything but line ends is an error. |
| HttpLoose.GapRun | lib/http_parser.c:1034-1038 | More blanks before the URL or the version do not matter. |
| HttpLoose.SkippedBody | lib/http_parser.c:1645-1700 | When the headers-complete callback returns 1 the message is complete at the blank line, whatever its headers say of a body. |
| HttpLoose.LongVersionRun | lib/http_parser.c:1137-1227 | Both version numbers may have several digits, up to 999. |
| HttpLoose.FoldRun | lib/http_parser.c:1581-1590 | A line that begins with a blank continues the value, whose meaning is then forgotten. |
| HttpLoose.LengthFoldRefused | lib/http_parser.c:1505-1512 | A Content-Length cannot be continued. |
| HttpLoose.LineRefuses | lib/http_parser.c:664-1227 | In the request line a byte is refused exactly if it is not one of those its place allows, with the error of the place. |
| HttpLoose.BlockRefuses | lib/http_parser.c:1229-1700 | The same in the header block. |
| HttpLoose.BodyRefuses | lib/http_parser.c:1767-1883 | The same between chunks; the digit table lets all bytes from 128 on pass. |
| HttpHeadLimit.HeadLimitExact | lib/http_parser.c:643-660 | A request head is rejected for its length exactly when it is longer than what the header bytes counted so far leave of the limit. |
| HttpHeadLimit.NextHeadExact | lib/http_parser.c:1628-1700 | After a message on the same connection, the next head is rejected for its length exactly when it and the trailer lines of that message, blank line included, exceed the limit together. |
| HttpReader.Reader.Begin | src/http-reader.c:41-49 | A new message starts with an empty list; the header under construction is kept. |
| HttpReader.Reader.HeaderField | src/http-reader.c:61-103 | The field callback starts, continues or files a header as the specification function does; it fails for a first header under a version other than 1.0 and 1.1, and says what it leaves then. |
| HttpReader.Reader.HeaderValue | src/http-reader.c:104-112 | The value callback appends to the current header. |
| HttpReader.Reader.HeadersDone | src/http-reader.c:113-122 | The header under construction is filed and none is left. |
| HttpReader.Reader.Reset | src/server-connection.c:69-79 | After a reset the reader is as new. |
| HttpReader.FragmentationExact | src/http-reader.c:61-112 | A name or value is assembled the same from every cut of its bytes exactly when no NUL in it precedes another byte; otherwise some cut into two pieces brings bytes back that another loses. |
| HttpReader.ReadJoin | src/http-reader.c:61-122 | Without such NULs the header list depends on the joined trace alone. |
| HttpReader.HeaderListIndependent | src/http-reader.c:61-122 | If no name or value in the trace has a NUL before another byte, two sessions over one accepted input, cut and paused in any two ways, build the same header list, whatever pieces the callbacks got. |
| HttpReader.HeaderListRoundTrip | src/http-reader.c:61-122 | Under the same condition, the list built from any delivery of one request is its headers, in order, and behind them all trailers but the last, which stays under construction; it is the list of the headers alone exactly when there is at most one trailer. A callback refuses the delivery exactly when the request has a header or a trailer and its version is neither 1.0 nor 1.1. |
| HttpReader.AskedOf | src/http-reader.c:64-82 | Asked with the version the parser has read, the field callback accepts the first name of a request exactly under 1.0 and 1.1. |
| HttpReader.RefusedExact | src/http-reader.c:61-82 | Over any callbacks that meet no NULL header, however cut, one returns -1 exactly when the first name of all arrives in a message whose version is not served. |
| HttpReader.MessageNulFree | src/http-reader.c:61-112 | The condition holds for every message with no NUL in its header lines and trailers. |
| HttpReader.PipelinedList | src/http-reader.c:41-122 | Under the same condition, of several messages in one call, with no reset between them, the last request is left, and its list begins with the last trailer of the message before; it is the list of its own headers exactly when that message had no trailer and it has at most one. A callback refuses exactly when the first message with a header or a trailer has a version that is neither 1.0 nor 1.1; the others are not looked at. |
| HttpReader.FaultExact | src/http-reader.c:83-122 | Whatever the callbacks before, after headers-complete one uses a NULL header exactly when the last header line had no value and a trailer follows. |
| HttpBareLine.BareLineRun | lib/http_parser.c:1393-1403 | A header line without a colon is accepted: it is delivered as one name and no value, and changes neither flags nor length. |
| HttpBareLine.BareMessageRun | lib/http_parser.c:641-1892 | A request whose last header line has no colon is parsed to its end, with the framing, payload and trailers of the request without it. |
| HttpBareLine.BareSession | lib/http_parser.c:576-1922 | Every session over its text, however cut and paused, delivers those callbacks. |
| HttpBareLine.BareLineFaults | src/http-reader.c:61-122 | For every such request and every way its callbacks are cut, they meet a NULL header exactly when the body has a trailer. |
| HttpBareLine.BareTrailer | src/http-reader.c:88-92 | A request whose last header line is X and whose body has one trailer: it is accepted however cut, X has no value before headers-complete, and the trailer finds a NULL header. |
| HttpWitnesses.TwoTrailers | src/http-reader.c:83-122 | The body `0 CRLF A: 1 CRLF B: 2 CRLF CRLF` behind a chunked head leaves A in the list and B under construction, however it is cut and paused. |
| HttpWitnesses.NulMatters | src/http-reader.c:104-112 | A request the parser accepts with a NUL in a value: two ways of cutting the value, which every session may take, give two lists. |
| HttpWitnesses.TrailersCount | lib/http_parser.c:643-660 | A request that is accepted on a fresh connection is rejected as too long after a message with two trailers. |
| HttpUrl.ByteClass | lib/http_parser.c:428-574 | Which bytes lead to which state of the URL machine, and from where. |
| HttpUrl.ShapeStep | lib/http_parser.c:428-574 | What has been filed has the shape of the state reached: parts come in order and later ones are still empty. |
| HttpUrl.FileAppends | lib/http_parser.c:2149-2204 | Each byte is appended to one part, and no later part has any bytes. |
| HttpUrl.ReadKeeps | lib/http_parser.c:428-574 | While the machine is alive, the parts filed spell the text read. |
| HttpUrl.ReadState | lib/http_parser.c:2149-2151 | The URL parser runs the same machine as the request parser. |
| HttpHost.HostShapeStep | lib/http_parser.c:1998-2061 | What the host machine has filed has the shape of its state. |
| HttpHost.HostReadKeeps | lib/http_parser.c:1998-2118 | While the host machine is alive, the parts filed spell the authority read. |
| HttpHost.AuthorityRoundTrip | lib/http_parser.c:1998-2134 | Every authority [userinfo "@"] (host or "[" address "]") [":" port] is accepted and taken apart into the parts it was made of. |
| HttpHost.AuthorityIsGood | lib/http_parser.c:1998-2134 | Every accepted authority is one of that grammar, spelt by its parts. |
| HttpUrlParse.FieldStep | lib/http_parser.c:2153-2204 | What one byte of the URL does to the set of fields, to the offsets and lengths, and to the last field. |
| HttpUrlParse.TargetRoundTrip | lib/http_parser.c:428-574 | Every target of the grammar is read back into its parts. |
| HttpUrlParse.UrlRoundTrip | lib/http_parser.c:2136-2233 | Every URL of the grammar is accepted, and split into the parts it was made of. |
| HttpUrlParse.ParsedIsUrl | lib/http_parser.c:2136-2233 | Every accepted URL is one of the grammar, spelt by its parts. |
| HttpUrlParse.ConnectExact | lib/http_parser.c:2214-2217 | The target of CONNECT is only a host, a colon and a port, as the comment there says, exactly when it does not start with "@" and has no "?". |
| HttpUrlParse.ConnectWithMore | lib/http_parser.c:2214-2217 | A target that is accepted although it is more than that. |
| HttpUrlFields.UrlFields.ParseHost | lib/http_parser.c:2063-2134 | The host loop fails exactly when its machine does not end well, and otherwise sets host, port and user information to where they lie in the authority. |
| HttpUrlFields.UrlFields.Scan | lib/http_parser.c:2149-2204 | The URL loop fails exactly when the machine dies; otherwise offsets, lengths, field set and the "@" flag are those of the parts read. |
| HttpUrlFields.UrlFields.ParseUrl | lib/http_parser.c:2136-2233 | The result struct is that of the parts of the URL, and the call fails exactly when they are not accepted or the port is above 65535. |
| HttpUrlFields.StrToUl | lib/http_parser.c:2219-2230 | `strtoul` at the port: the decimal value of the digits there, capped at the greatest unsigned long. |
| HttpUrlFields.FieldsCover | lib/http_parser.c:2136-2233 | The fields of an accepted URL lie inside it, in order, without overlap; each covers its own text, and the bytes no field covers are delimiters. |
| HttpUrlFields.PortExact | lib/http_parser.c:2219-2230 | The port is the decimal value of its field exactly when no digit follows a URL that ends in its port, or all the digits read are zeros. |
| HttpUrlFields.PortReadPast | lib/http_parser.c:2219-2230 | A buffer of which four bytes are parsed, `@h:1`, where the port found is 10. |
| HttpWrittenUrl.WrittenIsParsed | lib/http_parser.c:2136-2233 | Every absolute URL over the letters of the standards, with a host name or an address in brackets, is accepted and taken apart into the parts it was made of. |
| HttpWrittenUrl.ReadWritten | lib/http_parser.c:2136-2233 | For such a URL the function succeeds, each of its seven fields is the text of its part, and the port is its number. |
| HttpWrittenUrl.ConnectIsParsed | lib/http_parser.c:2214-2217 | Every host name with a port is accepted as the target of CONNECT. |
| HttpWrittenUrl.PathIsParsed | lib/http_parser.c:2136-2233 | Every path, or `*`, with a query and a fragment is accepted and taken apart. |
| HttpWrittenUrl.FragmentRefused | lib/http_parser.c:484-508 | A URL with a fragment directly behind its host is refused. |
| HttpWrittenUrl.ExampleIsGood | lib/http_parser.c:2136-2233 | One URL with all seven parts is among them. |
| HttpUrlRuns.CaseKeepsUrl | lib/http_parser.c:1034-1105 | After every case body the URL text delivered takes the URL machine exactly where the parser is. |
| HttpUrlRuns.DeliveredUrlIsAlive | lib/http_parser.c:2149-2156 | A URL that the request parser let through never reaches the dead state of the URL parser: it can be refused only for its authority, for being more than host and port after CONNECT, or for its port. |
| Kmp.StoreStrong | lib/ut/utstring.h:174-186 | The entry stored is the strong one: the longest border after which the needle goes on with another letter. |
| Kmp.BuildTable | lib/ut/utstring.h:157-194 | The left-to-right builder fills the strong failure table, with at most as many fall-backs as letters. |
| Kmp.Shift | lib/ut/utstring.h:249-257 | Shifting the needle by the table passes over no occurrence. |
| Kmp.Find | lib/ut/utstring.h:237-267 | The search returns the least position at which the needle occurs, -1 exactly when there is none, with at most as many fall-backs as letters of the haystack. |
| Kmp.BuildTableR | lib/ut/utstring.h:197-234 | The right-to-left builder fills the mirrored table, with at most as many fall-backs as letters. |
| Kmp.OccursReversed | lib/ut/utstring.h:270-300 | An occurrence is an occurrence of the reversed needle in the reversed text. |
| Kmp.FindR | lib/ut/utstring.h:270-300 | The right-to-left search returns the greatest position at which the needle occurs, -1 exactly when there is none, with linearly many fall-backs. |
| Kmp.UtFind | lib/ut/utstring.h:304-346 | The least occurrence at or after the start position, which counts from the end when negative. |
| Kmp.UtFindR | lib/ut/utstring.h:350-390 | The greatest occurrence that ends at or before the start position. |
| QueueProtocol.StepWakes | src/queue.c:66-177 | No step of any thread leaves an item that can be taken while every worker sleeps. |
| QueueOwnership.StepOwned | src/queue.c:66-228 | No step puts an item in two places, or lets the processing list disagree with what workers hold. |
| QueueOwnership.RunOwned | src/queue.c:66-228 | In every reachable interleaving each item is in at most one place and no wakeup has been lost. |
| QueueOwnership.OneOwner | src/queue.c:113-140 | No two workers hold one item, and an item with a worker is neither on the list nor freed. |
| QueueOwnership.RetiredForGood | src/queue.c:212-228 | A freed item never reappears. |
| QueueLives.StepMoves | src/queue.c:66-228 | Every action does to every item what its name says and nothing else: where it is, its data and its flag follow from the action. |
| QueueLives.RunMoves | src/queue.c:66-228 | Over every run, every item is where its history has brought it. |
| QueueLives.ReturnMeans | src/queue.c:212-228 | An item returned as finished is never seen again; one returned as not finished is at once the last on the list, with the data and the flag it had. |
| QueueLives.SleepsOnEmpty | src/queue.c:113-122 | A worker goes to sleep exactly when it looks at an empty list without having just been woken. |
| QueueLives.WakesForWork | src/queue.c:66-177 | A sleeper is woken only by unblocked work, by a ping, or for no reason, and a ping wakes all. |
| QueueLives.PendingReturns | src/queue.c:229-241 | Over every run, a thread that waits for an item comes back exactly when it finds no worker handling it. |
| QueueLives.WaiterMoves | src/queue.c:220-241 | A waiting thread sleeps between one look and the next, and every announcement makes it look again. |
| QueueLives.FetchMeans | src/queue.c:113-140 | A worker that looks at the list takes something exactly when something on it is not blocked. |
| QueueOwnership.StepAhead | src/queue.c:66-177 | While both stay on the list, the earlier of two items stays ahead and free. |
| QueueOwnership.FetchedInOrder | src/queue.c:113-140 | Items that stay unblocked are taken in the order they were added. |
| QueueOwnership.RunServes | src/queue.c:212-241 | No thread that waits for an item sleeps on after its return has been announced. |
| QueueList.Queue.Append | src/queue.c:66-77 | Appending links the item last and counts it. |
| QueueList.Queue.Unlink | src/queue.c:78-95 | Deleting an item relinks its neighbours, or the head, and counts it off. |
| QueueList.Queue.Add | src/queue.c:66-77 | The list grows by the item at its end, and a signal is due exactly when it is not blocked. |
| QueueList.Queue.FetchOne | src/queue.c:113-140 | The first item that is not blocked leaves the list and its token goes to the end of the processing list; nothing else changes. |
| QueueList.Queue.Unblock | src/queue.c:141-158 | The item of that id is freed, and a signal is due exactly when it was blocked. |
| QueueList.Queue.UnblockData | src/queue.c:159-177 | Every item with the data is freed, and a signal is due exactly when there is one. |
| QueueList.Queue.Remove | src/queue.c:78-95 | The item is unlinked exactly if it is on the list, and counted off. |
| QueueList.Queue.RemoveData | src/queue.c:96-112 | Every item with the data is unlinked, each counted off. |
| TokenList.Tokens.Append | lib/ut/utlist.h:336-347 | `LL_APPEND` walks to the last token and links the new one behind it. |
| TokenList.Tokens.Delete | lib/ut/utlist.h:352-366 | `LL_DELETE` walks to the token before and links past the deleted one. |
| TokenList.Tokens.Remove | src/queue.h:34-43 | Every token of the id leaves the processing list, the others keep their order. |
| TokenList.Tokens.Has | src/queue.h:44-54 | Whether a token of the id is on the processing list. |
| SocketModel.Socket.Write | src/data-buffer.c:96 | `write` takes a non-empty prefix of what it is offered, or nothing, as the next reply of the kernel says. |
| SocketModel.AnythingCanHappen | src/data-buffer.c:96 | Of what it is offered the kernel may take any part, say EAGAIN, or fail. |
| DataBuffers.ChunksMean | src/data-buffer.c:49-55 | Appended bytes fill buffers of 16 KiB, the last as far as they go. |
| DataBuffers.Spread | src/data-buffer.c:58-69 | The bytes are spread over the chain, each buffer filled before the next. |
| DataBuffers.DataBufferList.Append | src/data-buffer.c:33-76 | In the cases where the chain is not spilt, the contents grow by exactly the bytes given; an empty list gets full buffers and one for the remainder. |
| DataBuffers.DataBufferList.WriteTo | src/data-buffer.c:87-121 | What is on the wire and what is left in the buffers together stay the same text; all is written exactly when the list ends empty; what each buffer has left, and how many replies were used, follow from the replies and the sizes. |
| ResponseHead.WithReplaces | src/http.c:189-198 | Replacing a header leaves one of its name, the new one, last, and the number of every other name as it was. |
| ResponseHead.LengthHeaderOnce | src/http.c:357-391 | A response other than 100 Continue that is not chunked carries exactly one Content-Length, with the length of the body cut to 32 bits. |
| ResponseHead.ContentLengthExact | src/http.c:357-365 | That Content-Length is a number the request parser accepts, and it is the length of the body exactly when the body is shorter than 2^32. |
| HeadReader.HeadReadBack | src/http.c:333-398 | A client that looks for line ends, blanks and colons reads back the version, the code, the message and exactly the headers, and is left with what follows the head. |
| HeadReader.FinalHeadersAre | src/http.c:357-384 | The headers sent are those given, in their order, but for the three the writer sets itself; then the coding, a content type if there was none, the date and the server. |
| HeadReader.SaidExactly | src/http.c:357-365 | What the client reads in Content-Length is the length of the body exactly when that is below 2^32. |
| HeadReader.PlainHead | src/http.c:333-398 | One head, letter by letter. |
| VisitOutcome.PushTells | src/data-buffer.c:87-121 | Writing buffers uses up replies that take bytes, and ends at the reply that says how: EAGAIN, a failure, or the one that takes the last byte. |
| VisitOutcome.PushBodyTells | src/http-body.c:172-214 | The same for a body. |
| VisitOutcome.OfferedAtOnce | src/http-body.c:166-193 | A file is offered 16 KiB at a time, any other body whole. |
| VisitOutcome.LeftExact | src/server-loop-write.c:31-109 | A visit that neither fails nor closes the connection leaves responses on the list exactly when its last reply is EAGAIN. |
| VisitOutcome.FlagExact | src/server-loop-write.c:31-109 | For all replies and sizes: the flag says whether something is left exactly when the visit ends at the buffers, or ends at a body and a head met EAGAIN before, or sends everything and no head did. |
| VisitOutcome.VisitClosesLast | src/server-loop-write.c:85-98 | Of the responses a visit takes off the list only the last can close the connection, and the connection is closed exactly when it does. |
| VisitOutcome.TakenThenBlocked | src/server-loop-write.c:52-83 | When a head that fits a buffer is taken at once and the body then meets EAGAIN, the body is left and the flag is not set, whatever follows. |
| VisitOutcome.BlockedThenTaken | src/server-loop-write.c:52-83 | When a head meets EAGAIN and is then taken with all of its body, nothing is left and the flag is set. |
| ResponseWriter.Body.WriteTo | src/http-body.c:158-219 | What goes to the wire is the body from the old offset to the new one, for every kind of body and any short writes; the result is "done" exactly when the end is reached; how it ends, and how many replies were used, follow from the replies and the size. |
| ResponseWriter.Response.AddHeaders | src/http.c:357-384 | The headers a response is sent with. |
| ResponseWriter.Response.WriteHead | src/http.c:333-398 | The head is written exactly once, complete, and the response is then to send its body. |
| ResponseWriter.Connection.PushPending | src/server-loop-write.c:31-45 | Writing pending data does not change the stream. |
| ResponseWriter.Connection.SendFirst | src/server-loop-write.c:71-98 | The body is sent and the response removed without changing the stream, unless the socket failed; the connection is closed exactly when the response says so. |
| ResponseWriter.Connection.Retire | src/server-loop-write.c:85-98 | A finished response leaves the list, the others keep their order, and the socket is closed exactly for "Connection: close". |
| ResponseWriter.ClosesExact | src/server-loop-write.c:88-93 | The connection is closed exactly when the first header called Connection says "close", in any mixture of cases. |
| ResponseWriter.Connection.Round | src/server-loop-write.c:48-100 | One round of the inner loop leaves the stream as it is while the socket works, and leads from what was foretold before it to what is foretold after it. |
| ResponseWriter.Connection.SendRounds | src/server-loop-write.c:44-103 | The inner loop of a visit: why it ends, how many responses are left, whether the socket failed and whether a head met EAGAIN are as foretold from the replies and the sizes. |
| ResponseWriter.Connection.Serve | src/server-loop-write.c:31-109 | While the socket works, what is on the wire, what is buffered and what the responses still have to say stay one and the same stream, and the wire is always a prefix of it. How the visit ends, what is left, and the flag are as foretold from the replies of the kernel and the sizes before the call: the item is kept exactly when a reply for buffered bytes is EAGAIN; when the visit neither fails nor closes, something is left exactly when its last reply is; and the item is kept as it should be exactly when the visit ends at the buffers, or ends at a body and a head met EAGAIN before, or sends everything and no head did. On a socket that is closed or has failed nothing more is sent. |
| ResponseWriter.BodyForgotten | src/server-loop-write.c:71-108 | A connection on which the item is given back as finished while a body is left. |
| ResponseWriter.NothingKept | src/server-loop-write.c:44-108 | A connection on which the item is kept while nothing is left. |
| ResponseWriter.Connection.Enqueue | src/http.c:483-488 | A new response extends the stream by its head and body. |
| ResponseWriter.Connection.Drive | src/server-loop-write.c:20-109 | Over any number of visits, short writes, EAGAINs and responses arriving in between, the wire is a prefix of head1 body1 head2 body2 … in list order. |
| ResponseWriter.FramedExact | src/http.c:357-398 | Taken apart by that client at line ends, empty lines and Content-Lengths, what is sent for waiting responses is those responses, each with its own body, exactly when all bodies are shorter than 2^32 bytes. |
| ResponseWriter.Connection.DriveFramed | src/server-loop-write.c:20-109 | All that a new connection ever shows its peer is a beginning of a text that can be cut like this. |
| HashTable.CountsAddUp | lib/ut/uthash.h:278-307 | The counts of the buckets add up to the number of items. |
| HashTable.CeilShiftLeast | lib/ut/uthash.h:675-677 | The shift and mask compute the least chain length with which the buckets hold all items. |
| HashTable.ChainHasKey | lib/ut/uthash.h:94-105 | Looking through the one chain finds what looking through the whole list would, for any hash function. |
| HashTable.RunFinds | lib/ut/uthash.h:94-248 | Over every run of operations, the last one on a key decides what is found under it. |
| HashNodes.PushHead | lib/ut/uthash.h:612-618 | The handle becomes the head of its chain: the old head points back to it, and before it is NULL. |
| HashNodes.Unchain | lib/ut/uthash.h:626-637 | The neighbours in the chain, or its head, are linked past the handle. |
| HashNodes.LinkLast | lib/ut/uthash.h:184-187 | The element is linked behind the tail in application order. |
| HashNodes.Unlist | lib/ut/uthash.h:224-243 | The neighbours in application order, or head and tail, are linked past the element. |
| HashNodes.Table.FindInBucket | lib/ut/uthash.h:598-609 | The first element along the chain with the key, or none. |
| HashNodes.Table.AddToBucket | lib/ut/uthash.h:612-623 | The element is linked into the chain its hash names; the table doubles exactly when the chain reaches its threshold and expansion is not inhibited. |
| HashNodes.Table.DeleteInBucket | lib/ut/uthash.h:626-637 | The element leaves its chain, and links and counts follow. |
| HashNodes.Table.MoveChain | lib/ut/uthash.h:683-703 | Following the forward links of an old chain, every handle is relinked at the head of its new chain. |
| HashNodes.Table.ExpandBuckets | lib/ut/uthash.h:667-719 | The same handles, linked into twice as many chains; `nonideal_items` is the excess over the ideal chain length summed over buckets; each multiplier, `ineff_expands` and `noexpand` are as documented. |
| HashNodes.Hash.Find | lib/ut/uthash.h:94-105 | Finding is linear search of the application-order list. |
| HashNodes.Hash.Add | lib/ut/uthash.h:173-196 | Adding a fresh key appends to the list; all links and counts of both lists hold. |
| HashNodes.Hash.Delete | lib/ut/uthash.h:215-248 | Deleting removes the element from the list; all links and counts of both lists hold, and with the last element the table goes. |
| HashNodes.Hash.Replace | lib/ut/uthash.h:163-171 | Replacing deletes the element with the key, if any, and appends the new one. |
| HashNodes.Hash.Fsck | lib/ut/uthash.h:278-328 | `HASH_FSCK` finds nothing: `hh_prev` along every chain, every bucket count, `prev` along the list, and both totals are right. |
| HashNodes.Run | lib/ut/uthash.h:160-248 | Every run of additions, replacements and deletions leaves the list the plain operations would, with every condition of `HASH_FSCK` fulfilled. |
| MergeSort.InsertMerge | lib/ut/utlist.h:133-150 | Inserting before merging is inserting after it. |
| MergeSort.MergeInserted | lib/ut/utlist.h:133-150 | Merging two sorted halves, ties to the left, sorts the whole stably. |
| MergeSort.PassSorts | lib/ut/utlist.h:116-153 | One pass doubles the length of the sorted runs. |
| MergeSort.SortMeans | lib/ut/utlist.h:108-228 | The result is sorted, has the same nodes, and keeps the order of equal ones. |
| MergeSort.MergeRuns | lib/ut/utlist.h:194-216 | The inner loop merges the two runs at the front and leaves the rest of the input linked. |
| MergeSort.OnePass | lib/ut/utlist.h:179-221 | One pass over the linked list; at most one merge was made exactly when the list is no longer than two runs. |
| MergeSort.Sort | lib/ut/utlist.h:171-228 | The doubly linked list is sorted in place and stably by any total preorder, all `prev` links restored, with `head->prev` as the tail. |
| ThreadPool.Pool.Start | src/thread-pool.c:107-119 | The pool starts with the minimum number of workers, and the maximum is raised to it if it was lower. |
| ThreadPool.Pool.Round | src/thread-pool.c:127-157 | One round is that of the run on values: it grows the pool at the head, stops the head, or neither, as queue growth and bounds say, joins exactly the stopped workers that have ended, and keeps the pool between its bounds. |
| ThreadPool.Pool.Cleanup | src/thread-pool.c:139-156 | Exactly the workers that have ended are removed, the others keep their order. |
| ThreadPool.RunBounded | src/thread-pool.c:103-159 | Over every run the pool keeps between its bounds, no two workers have one number, and the oldest, as many as the minimum, are never told to stop. |
| ThreadPool.AdjustsExactly | src/thread-pool.c:126-138 | Exactly when a worker is added, when the newest is told to stop, and that nothing else changes. |
| ThreadPool.WhoLeaves | src/thread-pool.c:139-156 | From round to round exactly the workers leave that have been told to stop and have come to look. |
| ThreadPool.GrowsAndShrinks | src/thread-pool.c:126-156 | A run in which a worker is started, stopped and joined. |
| ThreadPool.Pool.Shutdown | src/thread-pool.c:165-179 | Every worker is stopped and removed. |
| ThreadPool.Manage | src/thread-pool.c:103-159 | Every run of the management loop goes through the lists of the run on values, whatever the queue does and whenever workers look at their flags. |

## Left out

- SessionAgrees: does not cover streams that ask for an upgrade or hit the 80 KiB limit; the first leave the buffer early by design (`UpgradeRun`), and re-fed bytes are counted twice, so pausing can move the point at which the limit is hit. `TraceGrammar` and `HeadIsBounded` do cover them.
- AnyCutAgrees: about callbacks that return normally; with pauses the same is `SplitInvariance`, which needs that the size limit is not hit.
- Feed: ends without a promise when a callback refuses, an upgrade is requested or the size limit is hit; what each of its calls leaves then is in `Parser.Execute`.
- Append: only the cases in which the list is empty, the last buffer is full, or the data fits; in the spilling case the source makes the list cyclic.
- Serve: needs a connection without an earlier socket error, because the source then loops without writing; after an error only the prefix property is promised.
- The workers of the pool, the buffer chain and the response list are sequences; the macros that link them are modelled on nodes in `TokenList`, `QueueList` and `MergeSort`.
- Drive: one connection and one writer thread; the queue between them is modelled on its own.
- WithReplaces: header lists in which a replaced name occurs at most once, which `Response.constructor` asks for; with several matches `http_header_list_remove` erases at stale positions.
- LengthHeaderOnce: the same restriction on the header list.
- ContentLengthExact: the same restriction on the header list.
- ParseUrl: needs a zeroed struct and a URL of at most 65535 bytes, because offsets and lengths are 16 bits wide and are not checked; on failure nothing is said about the fields.
- UtFind: needs a start that is not before the beginning of the string; there the source reads in front of its buffer. The `(int)` casts of lengths are not modelled.
- UtFindR: needs a start inside the string; past it the source reads beyond its buffer.
- ExpandBuckets: counters are unbounded numbers, and `hashv & (n - 1)` is the remainder by n, which is a power of two. The stored `hashv`, `keylen` and `tbl` of a handle are read off its key and its table.
- FramedExact: responses with a Content-Length, that is neither chunked nor 100 Continue, with the same restriction on the header list and without line ends in messages, dates and headers, which the writer does not look for.
- HeadReadBack: without line ends in the message and the headers, and without colons in names.
- Hash.Add: a key that is already there is outside what `uthash` allows and is a precondition.
- Sort: the doubling of the 32-bit run length does not overflow, which needs a list of more than 2^30 nodes. `LL_SORT2` is the same without the assignments to `prev` and has no copy of its own.
- HeaderListRoundTrip: requests are written with single spaces in the request line, a version of one digit each side and no folded lines; `HttpLoose` has those.
- Request.Log, and all that uses it: the requests of `HttpRoundTrip` have a version of one digit each side; longer versions and requests without one are in `HttpLoose` and `HttpSimple`.
- HttpReader.Reader.HeaderField: needs a current header when a name is continued, because the source dereferences it; `FaultExact` and `BareLineFaults` tell when it is missing. The request object beyond its header list, the URL callback (which replaces instead of extending) and the body callback are not modelled.
- HttpReader.Reader.HeaderValue: needs a current header, which the source asserts.
- FetchedInOrder: about the list, not about which worker finishes first.
- Queue.FetchOne: blocking on the condition variable is in `QueueProtocol`, not in the class; locks are the atomicity of its steps. The data pointer of a token is not modelled.
- Round, Cleanup: `pthread_tryjoin_np` is a set of numbers of workers that have come to look at their flag; the assumption that a worker ends only when stopped is in the model.
- Response parsing, bodies delimited by the end of the connection, lenient mode, and what follows an upgrade in the parser: they widen the case split without harder properties.
- The struct members `type`, `status_code` and `data`.
- `queue_clear`, `queue_delete` and `queue_pending_waitptr`: shutdown code and a variant of waiting.
- `http_chunks_write`, `http_chunks_terminate`, host iteration, the `to_str` and `to_utstring` forms of body writing: not used for sending responses.
- The concrete hash functions, the Bloom filter, `HASH_SELECT` and `HASH_SRT`: the hash is any function.
- Sockets, epoll, accepting and closing connections, tear-down across pools: system calls and orderings the code does not fix.
- Logging, configuration, MIME lookup, directory listings and file mapping: input and output around the core.
