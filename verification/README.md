# A verified model of the proxy's core

This project models the stateful core of a C HTTP proxy in Dafny and proves what it keeps
over whole runs. `dafny verify dfyconfig.toml` checks everything.

| files | what they model |
|---|---|
| `CacheIndex`, `CacheSpec`, `CacheRuns`, `CacheLaws`, `CacheExamples`, `CacheStore` | the response cache: heap nodes threaded through hash chains and a doubly linked list, the byte counter, three eviction policies, expiry, and the lookup that releases and retakes the lock |
| `HeaderTable`, `RequestPrinter`, `RequestParser`, `RequestRoundTrip`, `RequestForms` | the header table with tombstones, the request printer and parser, the round trip, and what each form of request parses to |
| `Http2Spec`, `Http2Runs`, `Http2History`, `Http2Conn` | HTTP/2 stream bookkeeping as a state machine over arbitrary callbacks and system-call results |
| `DomainTrie`, `Cidr`, `IpFilter`, `BasicAuth` | the filter lists, CIDR masks and basic authentication |
| `Relay`, `Gate`, `GateLaws`, `Server`, `ServerRuns`, `StalePort`, `ConnectionThread`, `ConnectionLaws` | the response buffer, cache replay, request gate and the connection threads that share cache and semaphore |
| `CStrings` | the C library string functions used |

The main results, in the system's own terms:

- The hash index answers every lookup as a backward scan of the list, after every
  interleaving (`CacheIndex.IndexAgreesInEveryRun`, kept by every method of
  `CacheStore.Cache`); several entries may share a URL, so the abstraction is a sequence.
- The byte counter is the sum of the live entries, modulo 2^64, in every run; LRU eviction
  removes the shortest sufficient prefix; an add is followed by exactly its data until
  something named in the statement intervenes; and a superseded response comes back exactly
  when an older entry outscores the newest.
- Parsing undoes printing, with the exact conditions on the port; the other forms of request
  parse to what their text says.
- `active_streams_count` is the number of waiting streams plus the surplus events, and what
  goes upstream is what was received.
- The trie and the masks agree with a linear scan and with integer prefix arithmetic.
- A hit replays the bytes cached from a response to the same request text, with the exact
  conditions under which these are the whole response, what the first client received and
  what the next one does; and it comes after the visit's own checks, with the exact
  exception.
- Every return path of a connection thread posts the semaphore once and frees nothing twice;
  what it leaves allocated, and exactly when, is stated (`ConnectionThread.Serve`).

How to read the model. Strings are sequences of bytes (characters 0..255). The heap
classes (`CacheStore`, `HeaderTable.Table`, `DomainTrie.Trie`, `Http2Conn.Connection`) have
the source's fields and are proved against value-level functions; the run-level lemmas are
about those functions. A lock section is one atomic step. Clock readings, what sockets and
TLS return, regular-expression and content-type verdicts are parameters. Memory the code
reads without having set it is a parameter too: the `port` of a new request object, a stale
`errno`, and the answer of the authenticator on a token it cannot decode within bounds
(`stray`). Inputs on which the parser reads outside its buffers give `Undefined`, and
nothing is claimed there.

Assumptions. `max_bytes` is at least 1. A printed header block is shorter than 2^31 bytes,
since its length is summed in an `int`. `sizeof(CacheModule)` is 88, as on a 64-bit
platform. Nothing is assumed of the cache limits: they are `size_t`, the tests for negative
values in `src/config.c` never fire, and a configured -1 means 2^64 - 1. `strtol` on a text
without digits leaves `errno` alone, as in glibc (POSIX allows EINVAL). The statements about
expiry take the clock not to stand before 1970 (`CacheRuns.AfterEpoch`).

Where code and documentation disagree the model follows the code:

- `src/proxy_parse.h` (lines 74 and 83) says the printed buffer is not NUL-terminated; the
  printer writes a NUL one byte after the computed length, so the caller must have room.
- `docs/PROJECT_EXPLANATION.md` (lines 73 and 109) derives the cache key from URL, method
  and Vary headers; the key is the whole request text.
- The comment at `src/http2.c:139` defines the counter as the number of waiting streams; it
  is that number plus the surplus events of `Http2Runs.Surplus`.
- The comment at `src/Main.c:210` says no byte of a blocked response is relayed; that holds
  exactly under the condition of `Relay.RefusedIsWithheld`.

## Model

| member | source | states |
|---|---|---|
| CacheStore.HashUrl | src/cache.c:22-28 | the hash loop in 64-bit wrapping arithmetic, on signed chars, gives the same bucket as the unbounded polynomial |
| CacheIndex.BucketOfLetter | src/cache.c:22-28 | the bucket of a one-letter text, computed from the source's constants |
| CacheStore.List.Remove | src/cache.c:30-36 | unlinks the node at list position k: the list becomes the old one without that position and stays well linked both ways; the other entries keep contents and order |
| CacheStore.List.Append | src/cache.c:38-44 | the list is the old one followed by the node |
| CacheStore.List.MoveToEnd | src/cache.c:46-49 | the node moves from position k to the end and nothing else moves |
| CacheStore.List.Stamp | src/cache.c:83-84 | a hit changes one entry's time and hit count and no other field |
| CacheStore.List.LeastUsed | src/cache.c:103-112 | the LFU scan finds the head-most entry of least access count over the whole list |
| CacheStore.List.EarliestExpiry | src/cache.c:113-123 | the TTL scan finds the head-most entry of least expiry time over the whole list |
| CacheStore.HashTable.Seek | src/cache.c:74-93 | the chain walk stops at the first node for the URL, with its predecessor, or at the end if there is none |
| CacheStore.HashTable.Predecessor | src/cache.c:133-137 | the walk to the node before the victim always finds it |
| CacheStore.HashTable.Unlink | src/cache.c:163-164 | one chain loses one position; every other chain, and the order within this one, is unchanged |
| CacheStore.HashTable.Prepend | src/cache.c:293-295 | one chain gains the node at its head; all others are unchanged |
| CacheStore.HashTable.Wipe | src/cache.c:189-205 | all chains become empty and the nodes freed are exactly those that were chained |
| CacheStore.HashTable.FreeChain | src/cache.c:190-203 | frees exactly the nodes of one chain, none twice and none freed with an earlier chain |
| CacheStore.Cache.constructor | src/cache.c:51-57 | an empty, well-formed cache under LRU with a zero counter |
| CacheStore.Cache.Locate | src/cache.c:70-75 | the chain walk finds the newest entry of the list for the URL, or nothing exactly when there is none |
| CacheStore.Cache.Touch | src/cache.c:83-88 | what a hit does to the list under each policy; both threadings stay in agreement |
| CacheStore.Cache.Lookup | src/cache.c:68-96 | the first critical section of FindCache: reply and new state are those of a backward scan of the list; well-formedness is kept |
| CacheStore.Cache.LatePurge | src/cache.c:78-80 | the second critical section on the expired path, run by a lookup that saw an expired entry |
| CacheStore.Cache.PickVictim | src/cache.c:99-123 | the victim is the head-most entry of least score under the current policy |
| CacheStore.Cache.Before | src/cache.c:129-138 | finds the victim's place in its chain |
| CacheStore.Cache.Detach | src/cache.c:125-138 | removing one node from list and chain keeps both in agreement and every other entry in place |
| CacheStore.Cache.Discard | src/cache.c:140-141 | ... and takes the entry's bytes off the counter in unsigned arithmetic |
| CacheStore.Cache.Evict | src/cache.c:98-153 | RemoveCache removes exactly the policy's victim |
| CacheStore.Cache.Purge | src/cache.c:155-185 | removes the newest entry for the URL, if any, and nothing else |
| CacheStore.Cache.Clear | src/cache.c:187-210 | the cache is empty, the counter zero, and the nodes freed are exactly the live ones |
| CacheStore.Cache.SetPolicy | src/cache.c:305-309 | changes the policy and nothing else |
| CacheStore.Cache.EvictLoop | src/cache.c:235-237 | the loop terminates, at its specification, with room made or the list empty |
| CacheStore.Cache.MakeRoom | src/cache.c:235-237 | the eviction loop leaves exactly what its recursive specification says |
| CacheStore.Cache.Link | src/cache.c:293-297 | a fresh node joins chain head and list tail; agreement is kept |
| CacheStore.Cache.Insert | src/cache.c:244-299 | the new entry is last in the list and its bytes are on the counter |
| CacheStore.Cache.Fill | src/cache.c:239-299 | the last test for room, and the insertion |
| CacheStore.Cache.FailToAdmit | src/cache.c:227-281 | a negative SIZE: what is evicted before the allocation fails |
| CacheStore.Cache.Add | src/cache.c:212-303 | AddCache on SIZE bytes of a longer text: result and new state are those of the specification, negative sizes included; policy and pending purges are unchanged |
| CacheIndex.SameNodes | src/cache.c:125-138 | a node is in the list exactly when it is in the chain of its URL's bucket |
| CacheIndex.ChainsDistinct | src/cache.c:293-295 | no chain holds a node twice |
| CacheIndex.FirstInChainIsLastInList | src/cache.c:68-93 | the first match in the chain is the last match in the list, and one exists exactly when the other does |
| CacheIndex.AgreeInsert | src/cache.c:293-297 | prepending to the chain and appending to the list keeps chain order the reverse of list order for every URL |
| CacheIndex.AgreeDelete | src/cache.c:125-138 | removing one node from both keeps the agreement |
| CacheIndex.AgreeRefresh | src/cache.c:86-88 | moving the newest entry of a URL to the list's end keeps the agreement though its chain does not change |
| CacheIndex.IndexAgreesInEveryRun | src/cache.c:30-49 | after every sequence of relinkings the hash index answers every lookup as a backward scan of the list |
| CacheSpec.Newest | src/cache.c:74-76 | the last list position holding the URL, or -1 exactly when none does |
| CacheSpec.Victim | src/cache.c:101-123 | of least score over the whole list, and strictly less than everything before it |
| CacheRuns.WithoutCounted | src/cache.c:140-141 | on a counter that is the sum of its entries, subtracting one entry's bytes neither wraps nor breaks the sum |
| CacheRuns.WithoutCongruent | src/cache.c:140-141 | and on any counter it keeps the sum modulo 2^64 |
| CacheRuns.EvictedCounted | src/cache.c:235-237 | the whole eviction loop keeps the counter the sum |
| CacheRuns.CounterIsSumInEveryRun | src/cache.c:140-299 | in every run, whatever the limits, CACHE_SIZE is the sum over the live entries modulo 2^64, and the sum itself exactly while the entries fit in the address space; an empty list means zero |
| CacheRuns.CounterNeverWraps | src/cache.c:140-299 | with cache limits configured non-negative, whatever the element limit, the counter never wraps in any run |
| CacheRuns.LruEvictsShortestPrefix | src/cache.c:235-237 | under LRU the eviction loop removes a list prefix, and the shortest that makes room |
| CacheRuns.EvictedMakesRoom | src/cache.c:235-242 | after the loop there is room, unless the element alone exceeds the limit; then the cache is empty |
| CacheLaws.AddDecides | src/cache.c:212-303 | while everything fits in the address space, whatever the limits: AddCache succeeds exactly when the text of the response nowhere says, in any case, Cache-Control: no-store or no-cache, and its bytes (SIZE, URL and 89) alone fit both limits; then the counter is within the limit and the last entry holds the SIZE bytes; a response that forbids caching or exceeds the element limit changes nothing, one too large for the whole cache is refused only after everything was evicted |
| CacheLaws.UncacheableIsForbidden | src/cache.c:214-216 | which responses are refused: one of the two texts stands somewhere before the first NUL, ignoring ASCII case |
| CacheLaws.NegativeSizeFails | src/cache.c:228-281 | a negative SIZE stores nothing and at most evicts |
| CacheLaws.LifetimeIsMaxAge | src/cache.c:218-291 | a response lives for the decimal number behind the first max-age= after the first Cache-Control:, if positive, else 3600 seconds |
| CacheLaws.LifetimeIsHour | src/cache.c:218-291 | and without them for 3600 seconds |
| CacheLaws.HitChangesOne | src/cache.c:83-90 | a hit notes time and use on the newest entry of its URL and changes no other; it moves it to the end under LRU, nothing otherwise |
| CacheLaws.VictimByPolicy | src/cache.c:98-123 | the victim is the head, the first of least uses, or the first to expire, by policy |
| CacheLaws.ClearEmpties | src/cache.c:187-210 | after a clear no URL is found and the counter is zero; policy and pending purges stay |
| CacheLaws.PolicyIsLastSet | src/cache.c:305-309 | only setting the policy changes it, and it changes nothing else |
| CacheLaws.CounterCountsBytes | src/cache.c:140-299 | in every run the counter is the bytes of all data and URLs and 89 for each entry, modulo 2^64 |
| CacheRuns.LruVictimIsLeastRecent | src/cache.c:46-101 | in every run that stays on LRU with a clock that never goes back the list is sorted by UPTIME and the victim is a least recently touched entry |
| CacheRuns.EvictionKeepsLookup | src/cache.c:98-153 | evictions that spare the entry a lookup returns do not change that lookup |
| CacheRuns.EvictionAddsNothing | src/cache.c:98-153 | a URL without an entry has none after evictions |
| CacheRuns.NeverResurfaces | src/cache.c:98-123 | under every policy: no add of any size under any limit brings a superseded response of a URL back, if and only if its newest entry scores at least as high as the older ones |
| CacheRuns.OutlivingNeverResurfaces | src/cache.c:98-123 | the sufficient half, for one eviction loop |
| CacheRuns.HigherScoreResurfaces | src/cache.c:98-123 | the necessary half: where an older entry scores higher, a limit at which the loop stops with that older entry current |
| CacheRuns.LruNeverResurfaces | src/cache.c:98-101 | under LRU the entry a lookup returns is never evicted while an older one for its URL remains |
| CacheExamples.LfuResurfaces | src/cache.c:103-112 | a run from the initial state under LFU after which a superseded response is served again, though the newer one has not expired |
| CacheRuns.StepKeeps | src/cache.c:68-303 | a critical section that neither purges, clears, evicts nor supersedes the entry keeps what a lookup of its URL returns |
| CacheRuns.RunKeeps | src/cache.c:68-303 | ... and so does every run of such sections |
| CacheRuns.AddThenLookup | src/cache.c:68-303 | after a successful add and any such run, a lookup returns exactly the SIZE bytes added until the expiry time and reports the entry expired later |
| CacheRuns.AddLeavesOthers | src/cache.c:227-303 | an add changes the lookup of another URL only by evicting the entry it returns |
| CacheRuns.NoExpiredHitInAnyRun | src/cache.c:75-81 | in every run a lookup hits exactly when the newest entry's expiry time has not passed |
| CacheRuns.StepKnown | src/cache.c:244-299 | only an add brings in a new pair of URL and data |
| CacheRuns.PurgeRemovesOnlyNewest | src/cache.c:155-185 | a purge removes one entry of its URL, the newest, if there is one, and leaves every other URL's count and lookup |
| CacheRuns.LatePurgeRemovesWhatWasSeen | src/cache.c:77-80 | if what ran in between left the entry alone, the late purge removes the expired entry its lookup saw and nothing else |
| CacheRuns.LatePurgeRemovesFresh | src/cache.c:77-80 | whatever ran in between: the late purge removes an entry not expired at its lookup's time if and only if repeating the lookup's test under the second lock would have hit |
| CacheExamples.LatePurgeCanRemoveFresh | src/cache.c:77-80 | a run from the initial state in which the late purge removes a freshly stored response and leaves the stale one |
| CacheExamples.LatePurgeCanRemoveFreshAt | src/cache.c:77-80 | the same run at the text 'Cache-Control:max-age=1' |
| HeaderTable.Table.Find | src/proxy_parse.c:74-89 | the scan finds a live slot with the key exactly when the live headers have one |
| HeaderTable.Table.Get | src/proxy_parse.c:74-89 | the value of the live header with the key, or NULL exactly when there is none |
| HeaderTable.Table.Remove | src/proxy_parse.c:92-103 | the live headers lose exactly that key, in order; -1 exactly when it was absent |
| HeaderTable.Table.Reserve | src/proxy_parse.c:47-54 | after the test there is a free slot beyond the next one, and the contents are unchanged |
| HeaderTable.Table.Set | src/proxy_parse.c:41-70 | the live headers are the others in order and then the new one; `used < length` and one slot per key are kept |
| HeaderTable.Table.constructor | src/proxy_parse.c:133-139 | an empty, valid table |
| HeaderTable.LiveTombstone | src/proxy_parse.c:92-103 | turning the only slot of a key into a tombstone removes just that header |
| HeaderTable.TableIsLastSets | src/proxy_parse.c:41-103 | after any sequence of set and remove calls the table is, in call order, exactly the set calls that no later call overrides |
| HeaderTable.KeysStayDistinct | src/proxy_parse.c:41-103 | after any sequence of calls the live keys are distinct |
| HeaderTable.LookupAfter | src/proxy_parse.c:41-103 | a call changes what get says of its own key and of no other |
| HeaderTable.GetReturnsLastSet | src/proxy_parse.c:41-103 | after any sequence of calls get returns the last value set and not removed since |
| RequestPrinter.HeadersLen | src/proxy_parse.c:142-165 | the computed length is the length of the printed header block |
| RequestPrinter.PrintSlot | src/proxy_parse.c:182-192 | one slot: a live header prints its line at the cursor, a tombstone nothing |
| RequestPrinter.PrintLines | src/proxy_parse.c:180-193 | the loop writes exactly the header lines and nothing elsewhere in the buffer |
| RequestPrinter.PrintHeaders | src/proxy_parse.c:167-197 | -1 and an untouched buffer exactly when the buffer is shorter than the computed length; else exactly that many bytes and one NUL, nothing else |
| RequestPrinter.PrintTail | src/Main.c:146-149 | the program's own call overruns its buffer by the NUL if and only if the header block fills what is left of it exactly |
| RequestPrinter.LineLen | src/proxy_parse.c:651-666 | the computed length is the length of the printed request line |
| RequestPrinter.PutHost | src/proxy_parse.c:688-696 | writes the host, and the port after a colon if there is one |
| RequestPrinter.PrintLine | src/proxy_parse.c:668-710 | -1 and an untouched buffer when too short; else exactly the request line, and its length |
| RequestPrinter.Unparse | src/proxy_parse.c:300-312 | succeeds exactly when the buffer holds the total length, and then writes the request text and one NUL |
| RequestParser.SkipChar | src/proxy_parse.c:394-411 | strtok_r's skipping of delimiters: the first index at or after the start that holds another character |
| RequestParser.UntilChar | src/proxy_parse.c:394-411 | strtok_r's end of token: the first index at or after the start that holds the delimiter |
| RequestParser.ReadOne | src/proxy_parse.c:580-596 | one turn of the header loop is one ParsedHeader_set or ends it; it always advances |
| RequestParser.ReadHeaders | src/proxy_parse.c:580-596 | the header loop on the table terminates and leaves the headers the value-level parse gives |
| RequestParser.ReadRequest | src/proxy_parse.c:352-645 | create and parse on the table agree with the value-level parse, errors and undefined cases included |
| RequestForms.OriginForm | src/proxy_parse.c:562-635 | a GET in origin form parses to the host and port its Host header names, plain or bracketed, protocol http, and the path, version and headers of the text |
| RequestForms.OriginNeedsHost | src/proxy_parse.c:636-641 | and is rejected without a Host header |
| RequestForms.AuthorityForm | src/proxy_parse.c:441-487 | a CONNECT parses to the host and port of its address, plain or bracketed, port 443 if it gives none, path /, no protocol |
| RequestForms.AbsoluteBracketed | src/proxy_parse.c:524-540 | an absolute address with a bracketed host parses to the host without brackets, its port and path |
| RequestForms.LayeredIsSkipped | src/proxy_parse.c:489-491 | a slash before http:// or https:// makes no difference |
| RequestForms.OtherVerbRejected | src/proxy_parse.c:402-409 | any method but GET and CONNECT is rejected |
| RequestForms.OtherVersionRejected | src/proxy_parse.c:431-438 | any version that does not begin with HTTP/ is rejected |
| RequestForms.NoPathRejected | src/proxy_parse.c:500-516 | an absolute address without a path or without a host is rejected |
| RequestForms.WrongSizeRejected | src/proxy_parse.c:366-369 | fewer than 4 or more than 65535 bytes are rejected |
| RequestForms.UnendedTextRejected | src/proxy_parse.c:376-381 | a text without the blank line is rejected |
| RequestForms.ColonlessRejected | src/proxy_parse.c:235-240 | headers that are not at their end and hold no colon are rejected |
| RequestForms.PortReadsZero | src/proxy_parse.c:546-549 | a decimal port reads as zero, without an overflow, exactly if it fits a long and is a multiple of 2^32 |
| RequestRoundTrip.ParsesPrintedHeaders | src/proxy_parse.c:228-255 | the header loop on a printed header block rebuilds the same list in the same order |
| RequestRoundTrip.ParsesPrintedAddress | src/proxy_parse.c:488-574 | a printed absolute address is taken apart into the same protocol, host, port and path |
| RequestRoundTrip.ParsesPrintedLine | src/proxy_parse.c:393-575 | a printed request line comes back with every field |
| RequestRoundTrip.ParseUndoesPrint | src/proxy_parse.c:300-645 | parsing a printed request gives back the request line and the header list; a request printed without a port comes back with whatever the new object's port field held |
| RequestRoundTrip.PortReturns | src/proxy_parse.c:277-294 | the round trip is exact if and only if the port was printed or the uninitialised port field was NULL |
| RequestRoundTrip.PrintedParses | src/proxy_parse.c:546-560 | a printed request parses if and only if its port is not one that strtol reads as zero, without overflow, while errno is left at EINVAL |
| RequestRoundTrip.TotalLenIsExact | src/proxy_parse.c:331-336 | the printed text is exactly as long as ParsedRequest_totalLen says |
| Http2Spec.WithStream | src/http2.c:186-234 | the looked-up stream exists afterwards |
| Http2Spec.SweptAt | src/http2.c:1038-1045 | a sweep's turn touches no other stream |
| Http2Conn.Assemble | src/http2.c:716-769 | the assembled request fills exactly the precomputed length, one byte short of the allocation |
| Http2Conn.Send | src/http2.c:771-786 | the write loop, for every schedule of partial writes, would-blocks and errors, ends where its specification says |
| Http2Conn.Connection.GetStream | src/http2.c:186-234 | grows the table with NULL places, creates the stream if missing, changes no other |
| Http2Conn.Connection.Callback | src/http2.c:262-444 | the callbacks update one stream and the counter as the state machine says |
| Http2History.StreamTellsItsHistory | src/http2.c:262-444 | in every run, for every stream, method, path and authority are the last values received for the three pseudo-headers since its header block began, NULL exactly if there was none, its body is the data since then, and it is complete exactly if a frame or chunk ended it since then, whatever came in between on other streams |
| Http2History.UpstreamRequestIsReceived | src/http2.c:716-769 | in every run the request a stream sends upstream is the HTTP/1.1 form of the method, path, authority and data received for it up to some moment |
| Http2History.ExchangeSucceeds | src/http2.c:619-790 | a stream whose connection is made, whose request is taken and whose upstream closes is answered, and the upstream has the assembled request |
| Http2History.FailuresStay | src/http2.c:619-957 | a failing system call leaves the stream as it is and makes the call fail |
| Http2Conn.Connection.SendRequest | src/http2.c:715-791 | assembles the request the first time and sends what is left of it |
| Http2Conn.Connection.ProcessStream | src/http2.c:611-980 | the state switch, with its fall-through, agrees with the state machine on every stream that has what its request is assembled from |
| Http2Conn.Connection.SweepAll | src/http2.c:1036-1047 | the guarded stream loop is one sweep of the state machine |
| Http2Runs.SendKeepsPrefix | src/http2.c:771-786 | the bytes accepted are always the prefix of the request of length upstream_request_sent; done exactly when all are |
| Http2Runs.SendingIsSound | src/http2.c:715-791 | a stream enters READING_RESPONSE only when the whole request has been accepted |
| Http2Runs.ProcessIsSound | src/http2.c:611-980 | one processing keeps the per-stream invariant, never moves the state back, and completes a response only when it returns 0 |
| Http2Runs.CounterInEveryRun | src/http2.c:363-444 | after every run active_streams_count is the number of waiting streams plus the number of surplus events, and equals the former exactly when there was none |
| Http2Runs.GuardSkipsNobody | src/http2.c:1036-1047 | while a stream waits the guard is open and the decrement cannot wrap |
| Http2Runs.DataRequestBumpsTwice | src/http2.c:388-441 | a surplus is real: a request that ends in a data frame is counted twice |
| Http2Runs.StateNeverGoesBack | src/http2.c:619-980 | over any run no stream's upstream state goes back |
| Http2Runs.StreamsInEveryRun | src/http2.c:611-980 | in every reachable state a complete response means DONE, accepted bytes are a prefix of the request, and reading means all were accepted |
| Http2Runs.RegularHeadersNeverForwarded | src/http2.c:310-360 | in every reachable state the request to the upstream holds no regular header: they are collected in a buffer it is not assembled from |
| Http2Runs.OrphansStayUnanswered | src/http2.c:262-307 | a stream reset by a new header block after DONE is never answered again, whatever happens |
| Http2Runs.SweepReadyExactly | src/http2.c:715-721 | after every run the next sweep follows no NULL pointer if and only if every waiting stream about to assemble its request has its method, path and authority |
| Http2Runs.TrailersStopTheSweep | src/http2.c:277-283 | a run of a request with trailers, whose second header block resets them, after which the sweep would |
| DomainTrie.PathIsSuffix | src/filter.c:79-90 | two paths in the reversed trie are equal exactly when the suffixes are equal ignoring ASCII case |
| DomainTrie.CoversIsPath | src/filter.c:299-322 | a listed domain covers the host exactly when the walk reaches the domain's path at a label boundary |
| DomainTrie.Trie.Step | src/filter.c:83-87 | follows or creates one edge; every other node and path stays |
| DomainTrie.Trie.Insert | src/filter.c:79-90 | the marked paths are those of the domains inserted so far, this one included |
| DomainTrie.Trie.Load | src/filter.c:132-146 | of the lines fgets returns, each that is neither blank nor a comment is inserted, trimmed, in order |
| DomainTrie.KeptIsCore | src/filter.c:138-142 | of a line what stands between its blanks is kept, unless it begins with # |
| DomainTrie.CoversByLetters | src/filter.c:83-83 | what a listed domain covers, letter by letter: upper and lower case are 32 apart |
| DomainTrie.Trie.Walk | src/filter.c:302-319 | stops at a position where a listed domain ends at a boundary, or there is no such position |
| DomainTrie.Trie.Lookup | src/filter.c:299-322 | blocked exactly when the host equals a listed domain or ends with a dot and one, ignoring ASCII case |
| DomainTrie.ListedIsUnordered | src/filter.c:79-90 | the verdict depends only on the set of listed domains up to ASCII case: order and duplicates do not matter |
| Cidr.MaskTest | src/filter.c:362-362 | words agree under a mask of ones above k zeros exactly when their quotients by 2^k agree |
| Cidr.MaskValue | src/filter.c:117-123 | the mask bytes read as one number are the prefix ones followed by zeros, for every width and prefix |
| Cidr.BytewiseTest | src/filter.c:367-371 | the byte-by-byte masked comparison is equality of the addresses divided by 2^(width-prefix), for every prefix |
| Cidr.NativeTest | src/filter.c:362-362 | the test on native words of a little-endian machine is the test on the bytes |
| IpFilter.ComplementMaskValue | src/filter.c:108-108 | the 64-bit complement cut to 32 bits is 2^32 - 2^(32-p), for p = 0 too |
| IpFilter.V4MaskBytes | src/filter.c:108-108 | its network-order bytes are the mask bytes of the prefix |
| IpFilter.BuildMask6 | src/filter.c:117-123 | the mask loops build the mask bytes of the prefix |
| IpFilter.MakeBlock | src/filter.c:93-130 | a parsed rule becomes its mask and masked address; prefixes out of range mean the longest |
| IpFilter.Matches | src/filter.c:362-371 | the comparison of one block is equality of the masked bytes |
| IpFilter.Scan | src/filter.c:359-375 | the scan finds a match exactly when some rule of the address's family contains it by integer prefix arithmetic |
| IpFilter.ContainsIsInBlock | src/filter.c:105-126 | within 0..32 or 0..128 the rule's own number counts the leading bits that must agree; outside all bytes must |
| IpFilter.IsBlocked | src/filter.c:338-404 | blocked exactly when enabled, some deny rule of the family holds the address by its own prefix number and no allow rule does |
| IpFilter.MasksAgree | src/auth.c:137-137 | the shifted-ones mask and the complement mask are the same word for every prefix 0..32 |
| IpFilter.AuthTest | src/auth.c:135-139 | the authenticator's masked comparison is equality of the leading p bits |
| IpFilter.AuthAgreesWithFilter | src/auth.c:118-140 | for a rule a.b.c.d/p authenticator and filter decide alike on an address if and only if p is in 0..32 or the address is not the rule's own |
| IpFilter.IpMatches | src/auth.c:118-140 | ip_matches on the texts: equal, or a slash, a prefix in range, and both addresses parse and share the leading bits |
| IpFilter.IsAllowed | src/auth.c:142-163 | allowed exactly when no deny rule holds the address and the allow list is empty or has a rule that does, by integer prefix arithmetic |
| BasicAuth.Store | src/auth.c:53-55 | one byte goes out unless the output is full |
| BasicAuth.DecodeLoop | src/auth.c:46-56 | the output is the decoded text, cut at the buffer's size |
| BasicAuth.Decode | src/auth.c:42-59 | for texts of every length, out of the text, its NUL and the memory behind: the output is the decoded text cut at the buffer's size, followed by a NUL if there is room; empty input leaves the buffer alone |
| BasicAuth.EncodePad | src/auth.c:46-46 | the number of pad characters of an encoded text follows from the length modulo 3 |
| BasicAuth.DecodeEncoded | src/auth.c:42-59 | what decoding an encoded text gives under either pad rule |
| BasicAuth.DecoderRecovers | src/auth.c:42-59 | decoding an encoding (section 4 of RFC 4648) gives the credentials back if and only if their length is not 1 modulo 3, or is 1 |
| BasicAuth.FourBytesAreNotRecovered | src/auth.c:53-55 | the shortest failing case: with two pad characters the first group loses a byte too |
| BasicAuth.Check | src/auth.c:165-189 | admits exactly when authentication is off or the decoded token is a listed credential, for every sound token, decoded texts longer than the buffer but with a NUL within it included |
| BasicAuth.TokenAfterBlanks | src/auth.c:176-176 | the token is what follows the scheme and any number of blanks |
| BasicAuth.OtherLetters | src/auth.c:23-40 | - and . read as +, a comma as /, and everything outside the alphabets as zero |
| BasicAuth.EncodedCredentialsFit | src/auth.c:178-180 | credentials of at most 255 bytes decode within the buffer, NUL included |
| BasicAuth.Present | src/auth.c:165-189 | presenting credentials admits exactly when what the decoder recovers is listed; for recoverable lengths, exactly when they are listed |
| Relay.Taken | src/Main.c:186-229 | the loop stops at the first chunk with a refused type or a failed send, and takes all before it |
| Relay.Grow | src/Main.c:189-199 | doubling once always makes room for the chunk and a NUL; the contents are kept |
| Relay.Append | src/Main.c:189-201 | the buffer holds its old contents and then the chunk, with room for a NUL |
| Relay.Receive | src/Main.c:174-229 | for max_bytes >= 1 and every sequence of chunks the buffer is the concatenation of all chunks taken, with room for a NUL |
| Relay.Handle | src/Main.c:174-292 | which bytes the client takes, how often the refusal page is sent and what is handed to AddCache, on each way out of the loop |
| Relay.CachedIsDelivered | src/Main.c:200-288 | a response under 2 GiB is cached byte for byte as its client received it if and only if every send took its whole chunk |
| Relay.FailedSendIsCached | src/Main.c:216-228 | a response whose only send fails is cached though the client received nothing |
| Relay.CachedIsStored | src/Main.c:288-288 | the cached bytes are all that was received if and only if that is shorter than 2 GiB: the length is narrowed to int |
| Relay.LongResponseIsCut | src/Main.c:288-288 | a response of 4 GiB and ten bytes is cached as its first ten bytes |
| Relay.CachedIsWhole | src/Main.c:186-234 | what is cached is the whole response if and only if it is shorter than 2 GiB, no send to the client failed before the last chunk and no part was lost to a failing recv |
| Relay.RecvErrorIsCached | src/Main.c:232-234 | a recv that fails after one chunk leaves that chunk cached, one that fails at once an empty response |
| Relay.RefusedIsWithheld | src/Main.c:203-212 | of a refused response no chunk is passed to the client if and only if the first chunk already shows the refused type in a complete header; the list may be reloaded between chunks |
| Relay.RefusedLateIsRelayed | src/Main.c:265-284 | a response refused only after the loop has gone out whole, is not cached, and the page follows once |
| Relay.AcceptedIsHanded | src/Main.c:186-288 | a response that nothing refuses and every send accepts is handed to AddCache whole |
| Relay.HeaderEndIsBlankLine | src/Main.c:203-205 | the header is complete at a blank line of either kind, wherever it stands |
| Relay.SplitHeaderIsRelayed | src/Main.c:203-212 | a header split over two chunks: its first chunk reaches the client before the refusal |
| Relay.FillChunk | src/Main.c:594-600 | the send buffer holds the next bytes of the entry, as many as fit |
| Relay.Replay | src/Main.c:589-612 | the loop passes to send the buffers of the stored bytes in order, whatever send returns |
| Relay.ReplayIsStored | src/Main.c:594-600 | these buffers concatenate to exactly the stored bytes |
| Relay.ReplayIsFull | src/Main.c:594-600 | and are full but for the last |
| Relay.ReplayedIsStored | src/Main.c:601-612 | the client takes exactly the stored bytes if and only if every send takes its whole buffer |
| Relay.PartialSendIsDropped | src/Main.c:601-612 | a send that takes nothing: the client gets the rest without it |
| Gate.Trace | src/Main.c:513-520 | afterwards there is a trace header and every other header has its value |
| GateLaws.VerdictSays | src/Main.c:425-583 | the verdict on every visit by the first rule that fails: raw protocol, parse, listed credentials, covering domain, matching pattern |
| GateLaws.PassedIsAllowed | src/Main.c:525-583 | a request passes exactly when it parses and authentication is off or its decoded credentials are listed, no listed domain covers its host, and no pattern matches its path |
| GateLaws.FetchedIsAllowed | src/Main.c:647-651 | what is fetched: an allowed GET of HTTP/1.1 or 1.0 to a known host |
| Gate.ParseStable | src/proxy_parse.c:352-645 | the parse depends on the text alone, up to the unset port, except that a stale EINVAL rejects an absolute address with port zero |
| Gate.SameTextParses | src/Main.c:508-523 | a visit with the text of one that was fetched parses if and only if errno is clean or its port is not zero |
| ServerRuns.PermitsAreConserved | src/Main.c:403-709 | in every run free permits and threads inside add up to the number of clients |
| ServerRuns.HitsPassTheChecks | src/Main.c:525-612 | in every run, with rules changing freely, the rules in force let through a visit whose lookup hits, by its credentials, host and path, if and only if it did not fail to parse by a stale errno with port zero |
| ServerRuns.LooksUpByTheRules | src/Main.c:525-585 | a visit looks into the cache exactly when it does not parse or the rules let it through |
| ServerRuns.HitIsFetched | src/Main.c:585-651 | in every run a hit's bytes are those cached from a response fetched for the same request text by a visit whose own checks passed; under 2 GiB they are all that was received, and what that client received if and only if every send took its whole chunk; they are the whole response if and only if that is under 2 GiB and neither a send before the last chunk nor a recv failed |
| ServerRuns.CacheRunInServer | src/Main.c:585-651 | whatever the threads do, the cache goes through a legal run of its critical sections |
| ServerRuns.CounterInServer | src/cache.c:140-299 | at every point of every server run, whatever the limits, the byte counter is the sum over the live entries modulo 2^64, and the sum while they fit in the address space |
| ServerRuns.StepPending | src/cache.c:77-80 | the pending late purges are exactly those of the threads between the two critical sections |
| StalePort.UncheckedHit | src/proxy_parse.c:548-557 | a run that shows the exception is real: port zero, fetched with a clean errno, found again with a stale one by a visit the rules do not let through |
| ConnectionThread.Find | src/cache.c:68-96 | both critical sections of FindCache by one thread are two actions of the machine |
| ConnectionThread.Reach | src/Main.c:118-179 | HandleRequest up to its receive loop: each of its three failures gives back the server's socket and keeps the buffer |
| ConnectionThread.Fetch | src/Main.c:651-657 | HandleRequest and AddCache on the actual cache are one action of the machine; the client gets what its socket took or a 500; HandleRequest's buffer stays allocated exactly when it fails before it receives |
| ConnectionThread.Checks | src/Main.c:525-583 | the three checks in their order on the actual trie and user list: the exit and answer of the verdict, one post and everything held given back on each return path, nothing when they pass |
| ConnectionThread.Admit | src/Main.c:425-583 | raw-protocol test, allocation, parse and checks on the actual objects: the exit of the value-level rules, one post on each of its five return paths and none when it goes on, and what is held afterwards |
| ConnectionThread.AfterFind | src/Main.c:586-690 | a hit replays the entry, of which the client takes what its sends take; a miss is fetched or refused, on the actual cache |
| ConnectionThread.Finish | src/Main.c:586-713 | the two return paths after the lookup, each with one post and all given back but what the strings and a failed HandleRequest keep |
| RequestParser.ParsedAllocates | src/proxy_parse.c:441-574 | every request that parses has protocol, host or port strings allocated, which ParsedRequest_destroy does not free |
| ConnectionThread.Serve | src/Main.c:385-716 | THREAD_ROUTINE on the actual cache, trie and semaphore: whichever of the eight ways it returns it has waited and posted once and closed or freed nothing it did not hold; left allocated are only the strings of a request, if and only if the parser got to allocate them, and HandleRequest's buffer, if and only if connecting, sending the request or allocating RESPONSE failed; the cache is where a run of this thread's actions takes it, and the answer is the specified one |
| ConnectionLaws.NothingAnswered | src/Main.c:413-486 | no bytes, TLS or HTTP/2 bytes, or no memory: nothing is answered, each by its return path, and nothing stays allocated |
| ConnectionLaws.UnparsedAnswered | src/Main.c:585-640 | a request that does not parse is replayed from the cache on a hit, else dropped if it asks for a relative path, else answered 400 |
| ConnectionLaws.RefusedAnswered | src/Main.c:525-583 | the first check that fails decides: 407 without listed credentials, 403 for the host, 403 for the path, each by its return path |
| ConnectionLaws.AllowedAnswered | src/Main.c:585-690 | an allowed request is replayed on a hit, else fetched, tunnelled or answered 500 |
| ConnectionLaws.LeftAllocated | src/Main.c:118-713 | what a call leaves allocated, in terms of the text, the rules and the cache |
| CStrings.FindCrlf | src/proxy_parse.c:383-384 | strstr for CRLF: the first place at or after the start, or none exactly when there is none |
| CStrings.FindFirst | src/proxy_parse.c:376-376 | strstr returns the first place where the needle stands |
| CStrings.AtoiReads | src/cache.c:223-223 | atoi reads every non-negative int in decimal, whatever non-digit follows |

## Left out

- Sockets, DNS, poll, OpenSSL, nghttp2 and quiche, certificates and the inotify threads: foreign calls, taken as arbitrary results or not modelled.
- `src/http3.c`, `src/config.c`, `src/logger.c`, `src/metrics.c`, `src/admin.c`: plumbing, flat tables and counters; they would only add easy members.
- The disk tier of the cache: an entry's data is a byte sequence wherever it lives. Allocation failure by chance is not modelled, but for that of REQUEST.
- The lifetime of the node `FindCache` returns after unlocking: the reply is a snapshot of the entry's fields.
- Overflow of the 32-bit `access_count` after 2^31 hits on one entry.
- Relaying upstream response bytes into HTTP/2 DATA frames (src/http2.c:793-957): depends on when nghttp2 reads its sources.
- Regex URL matching and content-type matching: the verdict is a parameter.
- The loop that reads a request until the blank line (src/Main.c:461-475): a visit is given the bytes received. A request that fills the buffer without a NUL is read past its end and excluded by `Gate.Defined`.
- Building the upstream request in `HandleRequest` (src/Main.c:118-148) and the CONNECT tunnel.
- `inet_pton`: a parameter for the authenticator; for the filter a rule holds parsed address bytes and the prefix number.
- `filter_enabled` in the trie itself: `Gate.DomainPasses` has it; the empty domain marks the root, which no lookup reports.
- Http2Conn.Connection.ProcessStream: requires method, path and authority when a request is to be assembled; without them the code follows a NULL pointer, and the runs stop there. When that is so is `Http2Runs.SweepReadyExactly`.
- BasicAuth.Decode: characters of 128 and above index the decoding table with a negative number; the model reads them as zero, and `Check` leaves the answer open there, as for an empty or unterminated token.
- CacheStore.Cache.Add: requires a SIZE other than -1, for which the code would copy SIZE_MAX bytes; `Server.Fits` keeps such responses (of 2^32 - 1 bytes modulo 2^32) out of the runs.
- RequestPrinter.Unparse: requires protocol and host, which the printer dereferences without a test; brackets of IPv6 hosts are not put back, so `RequestRoundTrip.CleanLine` excludes them.
- RequestPrinter.PrintHeaders: requires room for the NUL behind the length it is given; its caller breaks that exactly as `RequestPrinter.PrintTail` says.
- ConnectionThread.Serve: one uninterrupted call; interleavings are the subject of `ServerRuns`. The 501 branch cannot be reached since the parser accepts only GET and CONNECT. Metrics, among them the connection gauge that only the last return path decrements, are not modelled.
- DomainTrie: a node's 256 child pointers are a map from characters to nodes. Lines of a list longer than 511 bytes come from `fgets` in pieces, which the model takes as given.
