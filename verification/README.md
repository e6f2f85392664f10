# yamp: a verified model of the proxy's core

yamp is a proxy for the Model Context Protocol. It presents several backends to one
client as a single server: it composes their lists, routes calls back, correlates
requests in both directions, and filters and audits what passes. This project models
that core and proves what it is for. The layout follows the program:

| file | part of the program |
|---|---|
| `Basics.dfy` | first occurrences, decimal numerals, minted ids |
| `Namespace.dfy` | prefixing and splitting names and URIs |
| `StatelessChain.dfy` | stateless forwarders nested to any depth |
| `Collision.dfy`, `Routing.dfy` | collision strategies; a list entry and the call back to it |
| `Json.dfy`, `JsonText.dfy`, `JsonGrammar.dfy`, `Codecs.dfy`, `CodecMeaning.dfy`, `Cursor.dfy` | JSON values, canonical text and the texts that are read; hexadecimal, UTF-8, base64 and their wire forms; composite cursors |
| `Listing.dfy`, `ListCache.dfy`, `Aggregation.dfy`, `AggregateMeaning.dfy` | list results, the list cache, fan-out and aggregation, and what a list request is answered |
| `CacheAgreement.dfy`, `Pagination.dfy` | whole runs over the aggregated list |
| `Breaker.dfy` | the circuit breaker |
| `Bytes.dfy`, `Framing.dfy`, `FramingMeaning.dfy` | the three framings and the relay; the decoders on arbitrary streams |
| `Content.dfy`, `ContentMeaning.dfy`, `Filters.dfy`, `Scanner.dfy` | content blocks, the filter chain, the content scanner |
| `Signing.dfy` | the audit log |
| `Demux.dfy`, `ServerRequests.dfy`, `WorkerPool.dfy`, `Tasks.dfy` | the router's concurrent state |

Concurrency: an asyncio step runs from one `await` to the next, so every step is one
method, and a run is any sequence of method calls. Class invariants relate the fields
to a ghost history of the whole run, so a lemma about the invariant is a statement
about every reachable state. Clocks are arguments. Functions of the outside (what a
backend replies, what a filter or scanner judges, the digest) are arbitrary function
parameters.

Exceptions the source raises are values: `Raised`, `Malformed`, `None`, or a `raised`
result, as each declaration says.

## Main results

- Naming: `Namespace.SplitOfPrefix`, `Routing.ListThenCall`,
  `StatelessChain.DiscoveredToolRoutesHome`. Each list-then-call statement is an
  equivalence with a condition on the configuration and, for the passthrough strategy,
  on what was listed so far.
- Aggregation: `AggregateMeaning.AnswerMeaning`, `AggregateMeaning.CacheMeaning`,
  `Pagination.WholeRun`, `Pagination.EachBackendInFull`, `Pagination.RunEnds`,
  `CacheAgreement.RunKeepsAgreement`, `CacheAgreement.CachedAnswerIsFresh` and, over
  whole runs of the loop code on one cache, `CacheAgreement.Serve`.
- Cursors and framings: `Cursor.CursorRoundTrip`, `Cursor.ResolvesExactly`,
  `JsonGrammar.LoadsMeaning`, `Framing.FramingExact`, `Framing.StreamRoundTrip`,
  `Framing.Pump`, `Framing.RelaysDeliver`, `FramingMeaning.EventMeaning`.
- Message rewriting: `Content.WriteThenTraverse`, `Content.BlockWritesCommute`,
  `ContentMeaning.BlockMeaning`, `Scanner.ScanByVerdicts`, `Filters.Fusion`,
  `Filters.FailClosedBlocks`, `Filters.FailOpenIsInvisible`, `Filters.ChainPreserves`,
  `Signing.TamperingShows`, `Signing.SignatureBindsRecord`.
- Concurrent state: the methods and invariants of `Demux.Backend`,
  `ServerRequests.Correlator`, `WorkerPool.Pool`, `Tasks.TaskService`,
  `Breaker.CircuitBreaker` and `ListCache.ListCache`, with `Breaker.ObservedMeaning` on
  what a breaker shows, and `Demux.EntriesLeftBehind` and `WorkerPool.DeadlinesAgree`
  on what is not kept.

## What the code does not do

Each of these is a plausible property that fails. The first member named exhibits an
input or a run where it fails; the second states, for all inputs, exactly when it holds.

| what fails | witness | exact condition |
|---|---|---|
| A valid backend id that ends in one underscore has its names split one character early; the comment at yamp/namespace.py:19-21 says rejecting the delimiter is enough | `Namespace.TrailingUnderscoreClash` | `Namespace.SplitOfPrefix` |
| Two manual renames to one exposed name pass `resolve_manual` when only one of the renamed tools is listed, and the call goes to the other | `Routing.SharedTargetMisroutes` | `Routing.InvertedOfExposed` |
| With one backend, manual renames are applied to the list and not inverted on the call | `Routing.SingleBackendRenameMisroutes` | `Routing.ListThenCall` |
| A handler's tool that is renamed cannot be called | `Routing.RenamedHandlerToolIsUnknown` | `Routing.HandlerToolCallable` |
| URIs without `://` pass unprefixed and cannot be routed when there are several backends | `Routing.OpaqueUriIsUnknown` | `Namespace.SplitOfPrefixUri` |
| The filter chain can change the name a message is read to call, if `params` is a list of pairs; never for `tools/call` (`Filters.PoolDecisionAgrees`) | `Filters.AnnotatingListParamsNames` | `Filters.ChainPreserves` |
| SSE framing drops carriage returns at the end of every payload line | `Framing.SseDropsTrailingCr` | `Framing.SseExact` |
| A fetch that is under way when its backend announces a change caches the old list | `CacheAgreement.StraddlingFetchGoesStale` | `CacheAgreement.StraddlingFetch` |
| A cancelled request leaves its entry in `_pending` | `Demux.CancelledRequestStays` | `Demux.EntriesLeftBehind` |
| A half-open breaker admits any number of calls; the comment at yamp/resilience.py:58-59 says a single trial | `Breaker.HalfOpenAdmitsMany` | `Breaker.CircuitBreaker.Allow` |
| Progress moves the recorded deadline of a call, not the timeout that is enforced; yamp/pool.py:59-62 says it resets the deadline | `WorkerPool.ProgressDoesNotSave` | `WorkerPool.DeadlinesAgree` |
| A call id used again while its call is live hides the first call from the drain | `WorkerPool.ReusedIdEscapesDrain` | `WorkerPool.Pool.Drain` |

## Model

| member | source | states |
|---|---|---|
| Basics.Partition | yamp/namespace.py:34-36 | `str.partition`: cuts at the separator and loses nothing; fails exactly when the separator occurs nowhere |
| Basics.PartitionAt | yamp/namespace.py:34-37 | text joined with a separator is cut there again exactly when the separator does not start earlier |
| Decimal.PrintThenValue | yamp/router.py:169 | a printed counter reads back as itself |
| Decimal.MintInjective | yamp/router.py:169 | ids made of a fixed stem and a counter are equal only for equal counters |
| Decimal.NextIdIsFresh | yamp/router.py:168-171 | the next minted id is none of those minted before |
| Namespace.SplitOfPrefix | yamp/namespace.py:25-37 | splitting a prefixed name gives back id and name if and only if the id is non-empty, has no delimiter and does not end in an underscore, and the name is non-empty |
| Namespace.PrefixOfSplit | yamp/namespace.py:25-37 | prefixing undoes every successful split, and both parts are non-empty |
| Namespace.PrefixInjective | yamp/namespace.py:25-37 | prefixed names of routable ids are equal only for equal id and name |
| Namespace.ValidIsRoutable | yamp/namespace.py:18-22 | an accepted id is routable exactly when it does not end in an underscore |
| Namespace.ValidIdMeaning | yamp/namespace.py:15-22 | an accepted id is at least one letter, digit, underscore or hyphen and cannot be cut around the delimiter |
| Namespace.TrailingUnderscoreClash | yamp/namespace.py:18-37 | two accepted ids whose listings share an exposed name, which splits to the wrong one |
| Namespace.TakeOfInsert | yamp/namespace.py:47-50 | an id inserted as first path segment is taken out again exactly when it is non-empty and has no slash |
| Namespace.InsertOfTake | yamp/namespace.py:58-66 | inserting undoes every successful removal of a first segment |
| Namespace.SplitOfPrefixUri | yamp/namespace.py:40-66 | a hierarchical URI survives prefixing and splitting exactly for non-empty ids without a slash; any other URI passes unchanged and does not split |
| Namespace.PrefixUriOfSplit | yamp/namespace.py:40-66 | prefixing undoes every successful URI split |
| StatelessChain.AppendPrefixed | yamp/stateless.py:136-139 | one backend's tools are appended under its id, in order |
| StatelessChain.Discover | yamp/stateless.py:130-140 | discovery through nested forwarders yields the names of the nested surface, in order |
| StatelessChain.DiscoverStep | yamp/stateless.py:132-139 | one turn of the loop appends one backend's surface, relabelled |
| StatelessChain.DiscoveredToolRoutesHome | yamp/stateless.py:105-163 | a discovered tool called through forwarders of any depth arrives at the end server that listed it, along its listing path, with its original name, the body and all other metadata unchanged and the same negotiated version |
| StatelessChain.ForwardedKeeps | yamp/stateless.py:154-156 | rewriting the metadata keeps every key but two, and the negotiated version |
| StatelessChain.CallGoesDown | yamp/stateless.py:142-163 | a forwarder hands a call to the backend its name splits to and adds it to the path |
| StatelessChain.SurfaceHasNoClash | yamp/stateless.py:130-163 | equal exposed names on one surface are the same tool of the same server |
| StatelessChain.FindBackend | yamp/stateless.py:145-150 | a backend is found exactly when one has that id |
| StatelessChain.DiscoveryIsComplete | yamp/stateless.py:130-140 | discovery lists every tool of every backend once, backend after backend, each under its backend's id |
| StatelessChain.CallRejected | yamp/stateless.py:105-150 | a forwarder rejects exactly the calls whose version it cannot serve or whose name is no backend's id joined to a name, and says which |
| StatelessChain.NegotiateMeaning | yamp/version.py:44-53 | a request without a version is served at 2026-07-28; of the versions named, only 2026-07-28 and 2025-06-18 are served |
| Collision.ApplyPriority | yamp/collision.py:32-69 | the loop returns the priority resolution; kept and discarded together are a permutation of the input |
| Collision.PriorityMeaning | yamp/collision.py:39-69 | one tool per original name, each the first of least rank under that name, and no name missing |
| Collision.BestIsWinner | yamp/collision.py:54-66 | the kept copy is the first tool of minimal rank among those sharing the name |
| Collision.WinnerUnique | yamp/collision.py:54-66 | there is only one such position |
| Collision.OrderIsFirstAppearance | yamp/collision.py:53-69 | names come out in the order in which they first appear |
| Collision.PriorityIdempotent | yamp/collision.py:32-69 | resolving a resolved list changes nothing |
| Collision.StepBetter | yamp/collision.py:62-66 | replacing a kept copy and discarding it keeps the tables right and loses no tool |
| Collision.StepNew | yamp/collision.py:58-61 | recording a new name keeps the tables right and loses no tool |
| Collision.StepWorse | yamp/collision.py:67-68 | discarding a worse copy keeps the tables right and loses no tool |
| Collision.ResolveManual | yamp/collision.py:72-89 | raises exactly when two different names share an exposed name; otherwise maps exactly the names given, by the overrides, injectively |
| Collision.RankOfIdMeaning | yamp/collision.py:46-52 | an id's rank is its last position in the priority list, and the length of the list if it is not there |
| Collision.PriorityOverBackends | yamp/collision.py:32-69 | for tools labelled by routable backends: a tool is kept if and only if no tool of the same original name comes from a backend of better priority, or of equal priority and listed earlier |
| Routing.ListThenCall | yamp/router.py:1037-1091 | for every strategy and capability, calling the listed name reaches the lister under the original name if and only if `Callable` holds of the configuration and the listing history |
| Routing.ManualCall | yamp/router.py:1070-1077 | the manual case of it: routable, not shadowed by another rename, not a handler's name |
| Routing.ManualEndToEnd | yamp/router.py:983-995 | if the rename check accepts a listing and targets are distinct and not other listed names, distinct tools show distinct names and each routes home |
| Routing.InvertedOfExposed | yamp/router.py:1073-1074 | inverting the renames undoes renaming exactly for names no other rename shadows |
| Routing.SharedTargetMisroutes | yamp/router.py:1070-1077 | a listing the check accepts whose tool is routed to another backend |
| Routing.HandlerToolCallable | yamp/router.py:1039-1077 | a handler's tool can be called under its listed name if and only if no rename changes that name |
| Routing.RenamedHandlerToolIsUnknown | yamp/router.py:1039-1077 | a router and a renamed handler tool that resolves to nothing |
| Routing.SingleBackendRenameMisroutes | yamp/router.py:1067-1069 | a router with one backend that passes an exposed name on as it is |
| Routing.OpaqueUriIsUnknown | yamp/router.py:1087-1090 | a listed URI that resolves to nothing |
| Routing.ReverseHoldsFirst | yamp/router.py:938-940 | the passthrough table keeps the first lister of every name |
| Routing.ReverseIsFirst | yamp/router.py:938-940 | the table names a backend for a name if and only if that backend listed it first |
| Routing.PassthroughReachesFirstLister | yamp/router.py:1078-1086 | a passthrough call reaches the backend that listed the name first |
| Routing.RoutedIsKnown | yamp/router.py:1066-1091 | whatever name a client sends, a routed call goes to a backend there is and a local one to a handler there is, under a name that splits to it |
| Routing.HandlerServes | yamp/router.py:1037-1060 | a call of a registered handler's tool under its prefixed name is served by that handler under every strategy and number of backends |
| Hex.DecodeOfEncode | yamp/variants.py:101-113 | decoding hexadecimal text gives back the bytes |
| Hex.DecodeRejects | yamp/variants.py:112-115 | a character that is neither hexadecimal nor space makes decoding fail |
| Hex.DecodePairs | yamp/variants.py:112-115 | readable text has two digits for every byte |
| Utf8.StepOfEncodeChar | yamp/variants.py:101 | one encoded character decodes to itself and its own length, whatever follows (section 3 of RFC 3629) |
| Utf8.EncodeCharOfStep | yamp/variants.py:113 | every well-formed sequence is the encoding of what it decodes to: no overlong forms |
| Utf8.DecodeOfEncode | yamp/icap.py:65-77 | decoding, strictly or with replacement, gives back the text |
| Utf8.EncodeOfDecode | yamp/variants.py:113 | encoding undoes every successful strict decoding |
| CodecMeaning.HexMeaning | yamp/variants.py:101 | every byte is written as two lower-case hexadecimal digits, the high one first |
| CodecMeaning.SpelledMeaning | yamp/variants.py:112 | `fromhex` reads digits of either case, with white space between bytes |
| CodecMeaning.CharMeaning | yamp/variants.py:101 | a lead byte that tells the length, continuation bytes, the bits of the code point, and no shorter form (section 3 of RFC 3629) |
| CodecMeaning.BadMeaning | yamp/icap.py:73-77 | an ill-formed stretch, replaced as one, is as long as some encoding begins with it, or one byte |
| Base64.DecodeOfEncode | yamp/content.py:29-35 | strict decoding gives back the encoded bytes (section 4 of RFC 4648) |
| Base64.QuadOfTriple | yamp/content.py:110-118 | four symbols written for three bytes read back as those bytes |
| CodecMeaning.Base64Meaning | yamp/content.py:110-118 | three bytes are written as one number of four digits of the alphabet, a missing byte as padding (section 4 of RFC 4648) |
| CodecMeaning.Base64Accepts | yamp/content.py:29-35 | text decodes exactly if its length is a multiple of four and it consists of symbols but for one or two padding characters at the end |
| JsonText.ParseQuoted | yamp/variants.py:113-116 | a printed string reads back as itself whatever follows: quotes, backslashes, controls and non-ASCII included (section 7 of RFC 8259) |
| JsonText.SortedKeys | yamp/variants.py:98-100 | keys are printed in code point order, each once |
| JsonText.NumberStops | yamp/signing.py:33-37 | a number literal is read up to the delimiter that follows it |
| JsonText.ParsePrinted | yamp/variants.py:98-116 | any printed value followed by a delimiter reads back as itself and leaves the rest |
| JsonText.LoadsOfPrint | yamp/variants.py:98-114 | `loads` undoes canonical `dumps` for every printable value |
| JsonText.PrintInjective | yamp/signing.py:33-37 | different printable records have different canonical text |
| CodecMeaning.PrintMeaning | yamp/variants.py:98-101 | canonical text: items and members separated by commas without spaces, keys sorted, strings escaped character by character |
| CodecMeaning.EscapeMeaning | yamp/variants.py:98-101 | only quotes, backslashes and controls are escaped, by a letter where there is one and else in hexadecimal |
| CodecMeaning.CodeEscapeMeaning | yamp/variants.py:113 | `\u` and four hexadecimal digits read as that character |
| CodecMeaning.PairEscapeMeaning | yamp/variants.py:113 | a surrogate pair of escapes reads as the one character past 0xFFFF (section 7 of RFC 8259) |
| JsonGrammar.LoadsMeaning | yamp/variants.py:112-116 | `loads` reads a text as a value if and only if the JSON grammar derives the text, with white space between tokens, with that value (RFC 8259) |
| JsonGrammar.NumberMeaning | yamp/signing.py:33-37 | the literals of numbers: an optional minus sign, digits without a leading zero, a fraction, an exponent, or one of Python's three constants |
| JsonGrammar.StringFound | yamp/variants.py:112-116 | a string that is read is spelled by plain characters and escapes up to its closing quote |
| JsonGrammar.StringOnly | yamp/variants.py:112-116 | every such spelling is read as its characters |
| JsonGrammar.LastMemberCounts | yamp/variants.py:112-116 | of several members under one key the last counts |
| Cursor.CursorRoundTrip | yamp/variants.py:94-121 | resolving a bound cursor gives back the variant and every backend cursor, for all strings |
| Cursor.BindCursorInjective | yamp/variants.py:94-101 | bound cursors are equal only for equal variant and cursors |
| Cursor.RawCursorRejected | yamp/variants.py:104-115 | a string without the prefix, or with anything but hexadecimal digits and spaces after it, resolves to nothing |
| Cursor.OddDigitsRejected | yamp/variants.py:112-115 | an odd number of hexadecimal digits resolves to nothing |
| Cursor.ResolvesExactly | yamp/variants.py:112-121 | bytes in hexadecimal resolve if and only if they are the UTF-8 encoding of a JSON object whose `c` is an object |
| Cursor.TrailingTextRejected | yamp/variants.py:112-116 | canonical text followed by anything but white space is malformed |
| Cursor.ReadPayload | yamp/variants.py:117-121 | the payload's `c` and `v` read back as the cursors and the variant |
| ListCache.ListCache.constructor | yamp/cache.py:48-55 | an empty cache with an empty history |
| ListCache.ListCache.Get | yamp/cache.py:57-67 | returns the answer its history determines, deleting an expired entry on the way |
| ListCache.ListCache.Put | yamp/cache.py:69-86 | appends a put to the history; a non-positive lifetime drops the entry |
| ListCache.ListCache.InvalidateBackend | yamp/cache.py:88-90 | appends an invalidation; all of the backend's entries go and no other |
| ListCache.AnswerMeaning | yamp/cache.py:57-90 | the answer is `r` if and only if some put of `r` under the key was neither replaced nor invalidated since, is fresh, and is public or this principal's |
| ListCache.ReadsAreInvisible | yamp/cache.py:62-64 | dropping an expired entry while reading never changes a later answer |
| ListCache.LastPutStands | yamp/cache.py:69-90 | the last put is the one position that nothing replaced or invalidated |
| ListCache.AnswerInFull | yamp/cache.py:57-90 | the same with expiry and visibility written out in the fields of the result: lifetime, scope and owner |
| Breaker.CircuitBreaker.constructor | yamp/resilience.py:43-54 | a closed breaker with an empty history |
| Breaker.CircuitBreaker.State | yamp/resilience.py:56-62 | shows the closed form of the history: closed below the threshold, else open until the reset time since the last failure, else half-open |
| Breaker.CircuitBreaker.Allow | yamp/resilience.py:64-65 | admits exactly when the closed form is not open |
| Breaker.CircuitBreaker.RecordSuccess | yamp/resilience.py:67-69 | appends a success to the history |
| Breaker.CircuitBreaker.RecordFailure | yamp/resilience.py:71-77 | appends a failure at the time of the trip, from any state |
| Breaker.CircuitBreaker.Trip | yamp/resilience.py:79-82 | opens at the given time with the count at the threshold |
| Breaker.ReadsAreInvisible | yamp/resilience.py:56-62 | reading a breaker, however often, never changes what it shows later |
| Breaker.WaitingOnlyHalfOpens | yamp/resilience.py:56-62 | time alone only turns open into half-open |
| Breaker.HalfOpenAdmitsMany | yamp/resilience.py:56-65 | a half-open breaker that admits two calls in a row |
| Breaker.ObservedMeaning | yamp/resilience.py:42-82 | closed if and only if the failures at positions after the last success are none or fewer than the threshold; otherwise open if and only if less than the reset time has passed since the last failure |
| Breaker.SuccessCloses | yamp/resilience.py:67-77 | after a success the breaker shows closed at every time until as many failures as the threshold have followed |
| Framing.LineExact | yamp/transport/line.py:14-25 | a payload survives newline framing exactly when it has no newline |
| Framing.HeaderReads | yamp/transport/framed.py:22-32 | the header written for a length is found and read back as that length, up to the maximum |
| Framing.FramedExact | yamp/transport/framed.py:35-50 | a payload within the maximum survives Content-Length framing; a longer one raises |
| Framing.SseParts | yamp/transport/sse.py:22-51 | an event decodes to its lines, each without trailing carriage returns (section 9.2 of the WHATWG HTML Standard) |
| Framing.SseExact | yamp/transport/sse.py:22-58 | a payload survives SSE framing exactly when no line of it ends in a carriage return |
| Framing.SseDropsTrailingCr | yamp/transport/sse.py:35-51 | a payload that comes back without its carriage return |
| Framing.FramingExact | yamp/transport/sse.py:22-58 | for all three framings: one message survives, whatever follows it, if and only if the framing carries it |
| Framing.SseProgress | yamp/transport/sse.py:22-44 | decoding an event consumes something, never raises, and finds the end of an empty stream |
| Framing.Progress | yamp/transport/framed.py:36-46 | every decoder consumes something unless the stream has ended |
| Framing.StreamRoundTrip | yamp/relay.py:29-36 | decoding the concatenated encodings of any carried messages gives those messages and then a clean end |
| Framing.Pipe.ReadUntil | yamp/transport/line.py:15-21 | splits off everything up to the first separator, or empties the stream |
| Framing.Pipe.ReadExactly | yamp/transport/framed.py:42-46 | splits off the first n bytes, or empties the stream |
| Framing.LineReceive | yamp/transport/line.py:15-22 | implements the newline decoder |
| Framing.ParseContentLength | yamp/transport/framed.py:22-32 | the first line naming the content length decides; absent, unreadable, negative or oversized lengths raise |
| Framing.FramedReceive | yamp/transport/framed.py:36-46 | implements the Content-Length decoder |
| Framing.SseReceive | yamp/transport/sse.py:22-44 | the receiving loop implements the event decoder and ends on any finite stream |
| Framing.SseSend | yamp/transport/sse.py:46-51 | the sending loop writes the encoding |
| Framing.Send | yamp/transport/framed.py:48-50 | appends the encoding for the framing |
| Framing.OneMoreRelayed | yamp/relay.py:31-36 | one message read leaves the rest of the stream still to come |
| Framing.Pump | yamp/relay.py:29-36 | writes exactly the decoded messages in the other framing, and passes on the end of stream exactly when there was no framing error |
| Framing.RelaysDeliver | yamp/relay.py:17-36 | any number of relays in a row deliver messages that all framings carry, in order, then a clean end |
| FramingMeaning.LineMeaning | yamp/transport/line.py:14-22 | any stream is read up to its first newline; a last line without one is still a message |
| FramingMeaning.HeaderLineMeaning | yamp/transport/framed.py:22-26 | a header line declares a length exactly if the text before its first colon, without blanks, spells `Content-Length` in any mix of cases |
| FramingMeaning.IntegerMeaning | yamp/transport/framed.py:26 | the values `int` reads: digits with single underscores between them, after an optional sign |
| FramingMeaning.DeclaredMeaning | yamp/transport/framed.py:22-32 | the first line that declares a length decides; unreadable, negative and over 67108864 are refused |
| FramingMeaning.FrameMeaning | yamp/transport/framed.py:35-46 | any stream: no header end is end of stream, no usable length raises, a frame cut short yields the part that arrived |
| FramingMeaning.EventMeaning | yamp/transport/sse.py:22-44 | any event: the values of its data lines joined by newlines, comments and other fields skipped, ended by a blank line or the end of the stream |
| Bytes.JoinOfSplit | yamp/transport/sse.py:38-48 | joining what `split` returns gives the bytes back, and no part contains the separator |
| Bytes.ParseOfPrint | yamp/transport/framed.py:26-49 | `int` reads back the printed length |
| Json.DictMeaning | yamp/filters.py:73-92 | `dict(v or {})`: falsy values read as empty, objects as themselves, lists as pairs, and anything else raises |
| Json.PairsMeaning | yamp/filters.py:73-92 | `dict` of a list succeeds exactly if every item is like a pair, and then the last pair about a key gives its value |
| Content.Traverse | yamp/content.py:42-58 | the two loops append exactly the blocks of the specification, or raise where it does |
| Content.TraversePlace | yamp/content.py:49-57 | one loop over one array |
| Content.WriteThenTraverse | yamp/content.py:42-118 | writing at a block's path and traversing again gives the same blocks with only that payload replaced |
| Content.PlaceWrite | yamp/content.py:82-118 | the same for one array of a result |
| Content.SlotWrite | yamp/content.py:61-79 | the same for one element: text, image, audio or embedded resource |
| Content.ElementMakes | yamp/content.py:49-57 | the k-th block comes from the element found for it |
| Content.OtherPlaceKept | yamp/content.py:49-57 | a write to one array leaves the other's blocks alone |
| Content.ChildLaws | yamp/content.py:82-97 | storing and reading children: get after put, put after put, and independence |
| Content.WritesCommute | yamp/content.py:100-118 | writes at paths that part commute on any value, reachable or not |
| Content.BlockPathsPart | yamp/content.py:42-79 | two blocks of one message always lie at paths that part |
| Content.BlockWritesCommute | yamp/content.py:100-118 | writes to different blocks of a message commute |
| ContentMeaning.SlotMeaning | yamp/content.py:49-79 | an element makes a block that repeats its type, MIME type and URI and points at its text, data, blob or URI, unless it is a resource with nothing in it; broken elements raise |
| ContentMeaning.BlockMeaning | yamp/content.py:42-79 | every block describes an element of `content` or `contents`, and its path, followed from the message, leads to that element's payload |
| ContentMeaning.ElementMeaning | yamp/content.py:42-79 | every element that is not an empty resource is described by a block |
| ContentMeaning.BlocksInOrder | yamp/content.py:42-58 | blocks come in the order of their elements, those of `content` first |
| ContentMeaning.Traversal | yamp/content.py:42-58 | the traversal raises exactly if either place holds something neither a list nor empty, or a broken element |
| Filters.ChainOutcome | yamp/filters.py:95-110 | the loop is the batch fold of the verdicts |
| Filters.Run | yamp/filters.py:205-220 | the incremental loop returns the batch fold of the verdicts it collected, or raises while describing or copying the message |
| Filters.Fusion | yamp/filters.py:193-220 | each filter sees what the batch form makes of the earlier verdicts, a terminal verdict is last, and the refold equals the incremental result |
| Filters.ApplyOnePreserves | yamp/filters.py:73-92 | one verdict keeps id and method, and the name unless it copies parameters that are a list of pairs |
| Filters.ChainPreserves | yamp/filters.py:95-110 | any chain keeps id and method; it keeps the called name if and only if the parameters are no naming list of pairs or all verdicts allow |
| Filters.PoolDecisionAgrees | yamp/router.py:562-570 | the decision to pool a `tools/call`, made before the chain, is the one dispatch would make after it |
| Filters.LocalCallMeaning | yamp/router.py:562-570 | the pool takes exactly the calls of some handler's tool under its prefixed name |
| Filters.AnnotatingListParamsNames | yamp/filters.py:83-92 | a request the chain gives a name it did not have |
| Filters.ChainStep | yamp/filters.py:205-220 | what one filter in front does to the outcome, by its interest, what it returns or that it throws, and its failure policy |
| Filters.OutcomeSplit | yamp/filters.py:205-220 | a chain cut in two: the later part starts from what the earlier one forwards and does not matter if that blocks or raises |
| Filters.FailClosedBlocks | yamp/filters.py:59-65 | an interested fail-closed filter that throws on the message it is shown makes the outcome a -32001 denial under the request's id, not quarantined |
| Filters.FailOpenIsInvisible | yamp/filters.py:59-65 | inserting or removing a fail-open filter that throws on what it is shown changes no outcome |
| Filters.InterestMeaning | yamp/filters.py:119-145 | interest by dimension: nothing declared, a wildcard, or a declared method, direction, tool, MIME type or `type/*` family that the message has |
| Filters.ContextMeaning | yamp/filters.py:148-158 | what a message is described by: its method, direction, the tool of a `tools/call`, and exactly the MIME types of its blocks |
| Filters.ContextRaises | yamp/filters.py:148-158 | exactly when describing a message raises |
| Scanner.Scan | yamp/icap.py:97-116 | the loop over a working copy is the scan of the original's blocks |
| Scanner.ScanIsPointwise | yamp/icap.py:97-116 | a scan blocks at the first block denied or quarantined, raises at one whose text is no string, or forwards a message whose blocks are each rewritten by their own verdict, with the gathered provenance in its metadata |
| Scanner.ReachNext | yamp/icap.py:101-113 | after each verdict the earlier blocks are rewritten and the later ones still the original's |
| Scanner.WriteKeepsMeta | yamp/icap.py:73-77 | applying a mutation keeps the result's metadata |
| Scanner.ProvenanceKeepsBlocks | yamp/icap.py:80-86 | annotating touches no block |
| Scanner.AnnotatedAsJudged | yamp/icap.py:80-86 | annotating merges the provenance into the metadata, or raises if that cannot be copied |
| Scanner.FirstStop | yamp/icap.py:105-109 | the first block that is not passed |
| Scanner.NothingToScan | yamp/icap.py:97-116 | a message without a result passes unchanged |
| Scanner.ScanByVerdicts | yamp/icap.py:97-116 | by the verdicts alone: a scan blocks if and only if the first denied or quarantined block comes before any unreadable text, with `quarantined` exactly for a quarantine; what it forwards has only passed blocks, each with the bytes its verdict gave |
| Scanner.FirstStopIsBad | yamp/icap.py:105-109 | the scan ends at the first block denied, quarantined or unreadable |
| Scanner.GatheredLast | yamp/icap.py:110-116 | of all provenance given under one key the last block's is kept |
| Signing.AuditLog.constructor | yamp/signing.py:67-71 | an empty log is as built from no records |
| Signing.AuditLog.Append | yamp/signing.py:73-82 | adds the linked and signed entry, moves the head, and keeps an untampered log untampered |
| Signing.AuditLog.Verify | yamp/signing.py:84-95 | true if and only if the entries are exactly those `append` builds from their records |
| Signing.BuildStep | yamp/signing.py:87-94 | one turn of the loop decides whether one more entry is as built |
| Signing.LinkInputInjective | yamp/signing.py:49-51 | equal hashed inputs come from equal heads and records |
| Signing.LastLink | yamp/signing.py:49-51 | equal heads have equal last links, or the digest collides there |
| Signing.SameHeadSameRecords | yamp/signing.py:73-82 | equally long record sequences with one head are equal, or show a collision of the digest |
| Signing.TamperingShows | yamp/signing.py:64-95 | two verifying logs with one genesis, length and head agree in every record, link and signature, or show a collision |
| Signing.VerifiedEntries | yamp/signing.py:40-95 | in a log that verifies, every signature is the hexadecimal HMAC of the record's canonical text, every link the previous one's hash, and every hash that of the link and the record |
| Signing.SignatureBindsRecord | yamp/signing.py:40-95 | equal signatures in logs that verify under one secret are of equal records, or HMAC collides at exactly their two canonical texts |
| Aggregation.LabelItems | yamp/router.py:927-948 | one backend's items are labelled, filtered by name, and remembered under passthrough |
| Aggregation.LookUp | yamp/router.py:896-901 | which backends the cache answers for, and the reads this leaves in its history |
| Aggregation.StoredIsFetched | yamp/router.py:905-914 | everything a fan-out puts into the cache was replied by its backend |
| Aggregation.Store | yamp/router.py:912-913 | a fetched result is put exactly when the cache is in use for the query |
| Aggregation.Fetch | yamp/router.py:902-914 | the fetched results, the failed backends, whether it raises, and exactly the puts it makes |
| Aggregation.Compose | yamp/router.py:922-948 | the composed items in backend order and the new passthrough table |
| Aggregation.Collect | yamp/router.py:845-949 | the loops return the composed list, the unavailable backends and the cursors; the cache gains exactly one read per lookup and one put per uncached reply |
| Aggregation.Settle | yamp/router.py:983-1001 | manual renames or priority resolution over the whole list, or the collision error |
| Aggregation.Aggregate | yamp/router.py:951-1015 | the response is the specified one; a refused cursor touches neither cache nor table |
| Aggregation.Announced | yamp/resilience.py:23-33 | the partial-result metadata names each missing backend once, in order |
| Aggregation.Available | yamp/router.py:865-871 | fans out to exactly the members that are up, selected by keyword and named by the cursor |
| Aggregation.FetchedPart | yamp/router.py:902-914 | results and failures of a fan-out, cached or fetched, are those of all its replies |
| Aggregation.CollectedParts | yamp/router.py:915-949 | the parts put together are the specified collection, cursors included |
| Aggregation.RepliesSplit | yamp/router.py:896-901 | a reply is the cache's where it has one and the backend's otherwise |
| Aggregation.RememberedIsHistory | yamp/router.py:938-940 | the passthrough table is always that of everything listed so far |
| AggregateMeaning.TableMeaning | yamp/router.py:932-940 | a fan-out adds what it lists to the passthrough table for tools of several backends under that strategy, and nothing otherwise |
| Aggregation.ReadKeepsAnswers | yamp/cache.py:57-67 | reading the cache changes no answer of the same moment |
| Aggregation.SpecificBypassesCache | yamp/router.py:889-893 | a request with a filter, a cursor or a variant, or of a router with variants, is answered as without a cache |
| AggregateMeaning.GlobMeaning | yamp/routing.py:21-41 | the five kinds of name pattern |
| AggregateMeaning.CollectedMeaning | yamp/router.py:845-949 | the items are those of the members asked, in order, labelled and filtered; who is missing and who continues, by member and reply |
| AggregateMeaning.AnswerMeaning | yamp/router.py:951-1015 | the whole answer by members, replies and query alone: refusals, a failing backend, a manual clash, or the page with its cursor and its missing backends |
| AggregateMeaning.CacheMeaning | yamp/router.py:889-914 | a specific request is answered as without a cache; any other as if each member whose put stands, is fresh and visible had replied that |
| CacheAgreement.StepKeepsAgreement | yamp/router.py:454-476 | time, lookups, fetch-and-put, `list_changed` and surface changes all keep the cache in agreement with the backends |
| CacheAgreement.RunKeepsAgreement | yamp/router.py:454-476 | and so does any run of them |
| CacheAgreement.CachedAnswerIsFresh | yamp/router.py:889-949 | while they agree, a list request gets the same response with the cache as without |
| CacheAgreement.FetchesKeepAgreement | yamp/router.py:905-914 | what a request adds to the cache keeps agreement |
| CacheAgreement.StraddlingFetch | yamp/router.py:902-914 | a fetch that straddles the notification keeps agreement if and only if its result is not kept or did not change for this principal |
| CacheAgreement.StraddlingFetchGoesStale | yamp/router.py:902-914 | a run that ends with the cache serving the old list |
| CacheAgreement.RequestAgrees | yamp/router.py:889-949 | one request gets the uncached response and leaves the cache in agreement |
| CacheAgreement.Serve | yamp/router.py:454-476 | any run of list requests on one cache, interleaved with notified changes and lost backends, gets the responses of a router without a cache |
| Pagination.PageAt | yamp/router.py:951-1010 | the k-th request gets page k of every backend that has one, with the local tools, collisions resolved, and the cursor for the next page |
| Pagination.PageKCursor | yamp/router.py:1008-1009 | a response carries a cursor exactly if some backend has a further page |
| Pagination.RunFrom | yamp/router.py:858-888 | a run from page k on is pages k, k+1, and so on to the last |
| Pagination.WholeRun | yamp/router.py:845-1015 | in a run from a plain list to a response without cursor, response k is page k of every backend, labelled, filtered and in backend order, composed with the local tools and with collisions resolved; every page is covered |
| Pagination.EachBackendInFull | yamp/router.py:845-1015 | of all a run delivers, the items that lead to one backend are exactly its pages put together, in its order, each once |
| Pagination.RunEnds | yamp/router.py:915-921 | following the cursors always ends, unless manual renames clash on some page; the pages left at the backends decrease |
| Pagination.OthersNeverClash | yamp/router.py:983-1001 | only the manual strategy can refuse a page |
| Pagination.PlainPages | yamp/router.py:976-1001 | without local tools, under the prefix and passthrough strategies, a page is just the backends' items |
| Pagination.ContinuationNotCached | yamp/router.py:889-893 | a continuation is answered the same whatever a cache holds |
| Pagination.PagesLeftDecreases | yamp/router.py:915-921 | the measure behind it |
| Pagination.PagesAreContiguous | yamp/router.py:915-921 | no page index is skipped |
| Pagination.CursorBoundToVariant | yamp/router.py:962-974 | a minted cursor is refused if and only if the effective variant is not its own, whatever the backends or the cache hold |
| Demux.Backend.constructor | yamp/router.py:120-122 | a connection with nothing pending |
| Demux.Backend.Begin | yamp/router.py:168-171 | a request registers a fresh id |
| Demux.Backend.Deliver | yamp/router.py:126-137 | a message answers the request pending under its id, is discarded if that was given up, and otherwise goes to the sink |
| Demux.Backend.ReaderEnds | yamp/router.py:138-142 | every request still waiting fails and the table is empty |
| Demux.Backend.TimeOut | yamp/router.py:177-181 | a timeout settles a waiting future; its waiter still has to resume |
| Demux.Backend.CancelTask | yamp/router.py:176-183 | a cancelled task stops waiting and removes nothing |
| Demux.Backend.Resume | yamp/router.py:176-188 | a waiting task resumes once its future is settled, with its answer, or removing its entry after a failure or timeout |
| Demux.FollowsStep | yamp/router.py:124-188 | what each event does to the table of pending and of waiting requests |
| Demux.LeftBehind | yamp/router.py:176-183 | over any run, an entry remains that nobody waits for if and only if its task was cancelled while the entry was there and since then no message bore its id and the reader did not end |
| Demux.EntriesLeftBehind | yamp/router.py:176-183 | the same of every reachable state |
| Demux.CancelledRequestStays | yamp/router.py:176-183 | a run that leaves such an entry |
| Demux.AccountsStep | yamp/router.py:131-137 | one delivery keeps the accounts of who got which message |
| Demux.AnswersPairUp | yamp/router.py:124-142 | in every reachable state an answered request got exactly one message, bearing its id, and no message answers two |
| Demux.RequestIdsDistinct | yamp/router.py:168-169 | no id is issued twice |
| Demux.SinkInOrder | yamp/router.py:136-137 | an unmatched message reaches the sink once, at the place its order gives it |
| ServerRequests.Correlator.constructor | yamp/router.py:490-499 | nothing is outstanding at first |
| ServerRequests.Correlator.PoolCall | yamp/router.py:582 | a spawned pooled call is tracked |
| ServerRequests.Correlator.PoolDone | yamp/router.py:584-585 | its done callback forgets it |
| ServerRequests.Correlator.ServerMessage | yamp/router.py:490-499 | a backend's request gets a fresh client-facing id and is correlated; anything else passes unchanged |
| ServerRequests.Correlator.Consume | yamp/router.py:540-552 | a correlation is taken out once |
| ServerRequests.Correlator.ClientReply | yamp/router.py:548-558 | a reply goes to the backend that asked with its own id restored; an unknown id is dropped |
| ServerRequests.Correlator.ClientCancellation | yamp/router.py:526-546 | a cancellation cancels the pooled call it names, or goes to the one backend that asked with its own id restored, or is dropped |
| ServerRequests.Ask | yamp/router.py:490-495 | asking under a fresh id keeps the books |
| ServerRequests.Record | yamp/router.py:540-558 | a delivery keeps the books: nobody is answered twice |
| ServerRequests.NobodyAnsweredTwice | yamp/router.py:472-558 | in every reachable state each asked id was delivered at most once and to its asker, and minted ids are those outstanding plus those delivered |
| ServerRequests.ClientIdsDistinct | yamp/router.py:491-493 | client-facing ids are distinct |
| ServerRequests.ParamsMeaning | yamp/router.py:70-76 | parameters that are an object are read back as they were put; anything else reads as none |
| WorkerPool.DeadlineExpires | yamp/pool.py:31-46 | a deadline expires exactly when there is a budget and that much time has passed |
| WorkerPool.Pool.constructor | yamp/pool.py:76-77 | an empty pool |
| WorkerPool.Pool.Spawn | yamp/router.py:575-589 | tracks the call and its progress token, overwriting one already in use |
| WorkerPool.Pool.Acquire | yamp/router.py:598-603 | a free slot starts a queued call, registers its deadline and fixes its timeout |
| WorkerPool.Pool.Finish | yamp/router.py:600-611 | a handler that returned is no longer in flight |
| WorkerPool.Pool.TimeOut | yamp/router.py:602-611 | a handler may be stopped once its budget has passed since it started, and an error is sent instead |
| WorkerPool.Pool.Throw | yamp/router.py:600-611 | a handler that raised ends its call without a response |
| WorkerPool.Pool.Send | yamp/router.py:612 | one response leaves, from a call not cancelled |
| WorkerPool.Pool.Cancel | yamp/router.py:526-533 | a cancellation marks the pooled call it names unless that has ended |
| WorkerPool.Pool.Unwind | yamp/router.py:613-615 | a cancelled call ends and sends nothing |
| WorkerPool.Pool.Reap | yamp/router.py:584-589 | the done callback forgets the call and its token |
| WorkerPool.Pool.TouchProgress | yamp/router.py:617-621 | progress under a tracked token resets the recorded deadline of the call in flight that brought it |
| WorkerPool.DeadlinesAgree | yamp/router.py:599-621 | the recorded deadline of a running call is the enforced one if and only if no progress came under its token later than its start |
| WorkerPool.ProgressDoesNotSave | yamp/router.py:602-621 | a call that is timed out before its recorded deadline |
| WorkerPool.Pool.CancelAll | yamp/router.py:426-433 | every tracked call that has not ended is cancelled |
| WorkerPool.Pool.Drain | yamp/router.py:432-435 | cancelled calls unwind and are reaped in any order: exactly the tracked calls are reaped and no other is touched; with distinct ids and tokens all tables are then empty |
| WorkerPool.DrainStep | yamp/router.py:432-435 | every such step brings the drain nearer its end |
| WorkerPool.ReusedIdEscapesDrain | yamp/router.py:426-435 | a drain that leaves a handler running |
| WorkerPool.AgreeMove | yamp/router.py:591-615 | a step of one call keeps all tables in agreement |
| WorkerPool.SentGrows | yamp/router.py:612 | a response leaves each call at most once |
| WorkerPool.TimeoutMeaning | yamp/router.py:607-610 | a call that ran out of time is answered with an error under its own id |
| WorkerPool.AgreeReap | yamp/router.py:584-589 | reaping keeps the tables in agreement |
| WorkerPool.NothingLeft | yamp/router.py:420-435 | when no task is tracked, nothing is in flight, no token is tracked and no slot is held |
| WorkerPool.PoolIsBounded | yamp/router.py:575-621 | in every reachable state the taken slots are those of the calls that run or send, at most `cap`; responses go out at most once and never to a cancelled call; while live ids and tokens are distinct, in-flight ids are tracked tasks and every token names a live call |
| Tasks.ServerTasks.constructor | yamp/tasks.py:124-126 | an empty store |
| Tasks.ServerTasks.Create | yamp/tasks.py:128-133 | a fresh id in state working |
| Tasks.ServerTasks.Settle | yamp/tasks.py:141-159 | only a working task changes, and the result says whether it did |
| Tasks.IdsAreFresh | yamp/tasks.py:64-133 | no id is created twice in any run |
| Tasks.TerminalIsFinal | yamp/tasks.py:116-159 | a settled task keeps its status and payload over the rest of any run |
| Tasks.FirstSettlementWins | yamp/tasks.py:116-159 | whichever of complete, fail or cancel comes first decides |
| Tasks.LogStep | yamp/tasks.py:128-159 | what one event does to count, ids and every status |
| Tasks.TaskService.constructor | yamp/tasks.py:124-126 | nothing created and nothing shown |
| Tasks.TaskService.Originate | yamp/router.py:625-632 | creates a task and shows a working handle |
| Tasks.TaskService.RunEnds | yamp/router.py:634-649 | the end of an execution settles a task that is still working: cancelled, completed with its result, or failed with its error or a normalized one |
| Tasks.TaskService.RunDone | yamp/router.py:629-631 | the done callback drops the handle |
| Tasks.TaskService.Serve | yamp/router.py:651-664 | a cancellation settles first; every method shows the current status |
| Tasks.TaskService.Drain | yamp/router.py:426-435 | every execution is given up; those that had started are settled as cancelled |
| Tasks.RunOutcome | yamp/router.py:638-649 | an execution always ends in a terminal status |
| Tasks.WorkingThenOneOutcome | yamp/router.py:651-664 | in any run, what a client is shown of a task is working any number of times and then one terminal status, the one the store keeps |
| Tasks.LocalIdDoesNotSplit | yamp/tasks.py:64-68 | a local id never reads as a namespaced one |
| Tasks.OwnTaskStaysHere | yamp/router.py:1127-1137 | one of the server's own tasks is served from its store, and is unknown when the server keeps no tasks |
| Tasks.BackendTaskRoutesBack | yamp/router.py:1127-1140 | a namespaced backend task is never taken for a local one, and goes back to its backend exactly for known backends with routable ids |

## Left out

- Strings are sequences of Unicode scalar values. A lone surrogate, which Python
  strings can hold, is not modelled: `bind_cursor` raises on one, and an escape for one
  in JSON text reads as malformed here.
- JSON numbers are kept as their literal text, so binary rounding, `NaN` lifetimes,
  recursion limits and the digit limit of `int` are not modelled.
- Base64 text with more padding than needed counts as malformed; Python versions differ.
- Reading a list of pairs as a dictionary: an object of two keys as a pair counts as
  raising, and entries whose key is not a string are dropped, since no lookup finds them.
- A `mimeType` that is not a string makes describing a message raise; Python accepts
  some such values.
- Deep copies with one slot assigned are modelled on values (`Content.SetAt`), so
  aliasing between the copy and the original is not.
- `hmac.compare_digest` is equality; the error it raises for non-ASCII signatures is
  not modelled. SHA-256 and HMAC are arbitrary functions onto 32 bytes.
- `compose_variants`, capability disclosure and the search tool, list directives, trace
  hops, the renaming of task events and resource updates, schema validation, output
  limits, and the JSON-RPC envelope.
- Sends do not raise and are atomic; handlers do not swallow cancellation.
- Messages no request waits for always have a sink; with none installed the program
  drops them.
- Cache lookups and puts of one list request share one clock reading, and the set of
  available backends is read once per request.
- WorkerPool.Pool.Spawn: call ids and progress tokens are hashable; the program raises on
  others.
- WorkerPool.PoolIsBounded: what it says of in-flight ids and tokens needs live ids and
  tokens to be distinct, which the program expects of its clients and does not check.
- Python 3.11's `wait_for` may return a result that is ready and drop a cancellation that
  arrives at the same moment, so a call cancelled in that window is sent its response
  (`WorkerPool.Pool.Finish`, `Demux.Backend.Resume`); later versions do not.
- Routing.ListThenCall: the listing history is the one at the lookup, after the fan-out
  that warms the table; `Aggregation.RememberedIsHistory` says what a fan-out adds to it.
- Aggregation.Aggregate: without capability disclosure, list directives and trace hops.
- Pagination.WholeRun: backends stay available and answer from finite lists, and there is
  no cache; `Pagination.ContinuationNotCached` and `CacheAgreement.CachedAnswerIsFresh`
  connect the cached case.
- Pagination.EachBackendInFull: in addition, no local tools, the prefix strategy, and
  several backends whose labelled names split back (routable ids, non-empty names,
  hierarchical URIs). Local tools are repeated on every page, and the other strategies
  do not keep every tool or its prefix. A run exists for every such setting
  (`Pagination.RunEnds`).
- Breaker calls made inside `Backend.request`, and `ResilientRouter`, which only counts
  and records around the breaker proved here.
- The two directions of a relay are two independent pumps; the reader's buffer limit is
  not modelled.
- The scanner's verdict cache and the exchange with the scanning service: any verdict
  is allowed for any block.
- A reply without `result` counts as an empty list, as in the program.
- Transports beyond byte streams, HTTP, configuration, command lines, health pings,
  authorization metadata and status pages.
