# PubAPI: models and proofs

PubAPI is a Go service for reconnaissance and account-keeping.  Most of it is network plumbing; the
parts modelled here are the ones that hold state, run concurrently, or have to invert one another.

| file | what it models |
|---|---|
| `RateLimiter.dfy` | the per-IP token buckets and the sweep that forgets idle ones |
| `Pool.dfy` | the launcher, semaphore, mutex and wait-group protocol that five functions write out, as a step relation |
| `Scan.dfy`, `PortSpec.dfy` | `ScanPorts` with `finalize`; `ParsePortSpec` and `TopPorts` |
| `Candidates.dfy`, `Probe.dfy`, `Takeover.dfy` | the deduplicate-and-cap loop; `ProbeHosts`; `DetectTakeovers` |
| `SubEnum.dfy`, `Enumerate.dfy` | the merge of findings; `SubdomainScan`, `resolveHosts`, `PassiveSubdomains` and `EnumerateSubdomains` |
| `Cache.dfy`, `Memo.dfy`, `Validate.dfy`, `Slices.dfy` | the TTL cache under interleaving, its use as a memo table, the alphabet its keys rely on, and the cached slice |
| `Bits.dfy`, `Codecs.dfy`, `Rfc4648.dfy`, `Transforms.dfy` | base64, base64url and base32 as streams of bits and as RFC 4648 tells them; hex, query escaping and `Transform` |
| `Favicon.dfy`, `Jwt.dfy` | the text `faviconHash` hashes; `DecodeJWT` |
| `Store.dfy`, `Accounts.dfy` | the tables; authentication, sessions, keys and every request that changes them |
| `Requests.dfy` | what each request does, and where every token, key, revocation, deletion and administrator of a run comes from |
| `AdminRaces.dfy` | deletions of users whose check and execution are interleaved with other requests |
| `RequestLogger.dfy` | the bounded request-log queue and its writer |
| `Sorting.dfy`, `Text.dfy`, `Wrappers.dfy` | sorts and multisets, Go string operations, `Option` and `Result` |

## How to read it

*Concurrency.*  `Pool` is data independent: a worker's critical section is a pair (worker, section),
and the shared variables are represented by the log of sections whose effect they hold.  A section
reads in one step and writes in another, so a lost update could happen in the model if the mutex did
not exclude it.  `Exec` runs any schedule, cancellations included; `Scan`, `Probe`, `Takeover` and
`Enumerate` instantiate it with what each worker appends.  The network is an arbitrary function of
the item.  `Cache` and `RequestLogger` are step machines of their own.

*State.*  What the program updates in place is a class (`IpRateLimiter`, `Cache`, `Merger`,
`Tables`, `Server`, `RequestLogger`, Go slices) whose methods are tied to functions on values by
their contracts; the theorems about runs are about these functions.

*Results that are not plain yeses.*  Some properties hold only under a condition, and the condition
is proved exact:

- Forgetting idle clients is unobservable (`EvictionUnobservable`), and the rate bound holds
  (`RateBoundIff`), if and only if `burst <= 180 * rps`; `ForgettingShows` gives the run that tells
  the difference.
- A `Get` of the cache is exact for the instant it read the map (`GetExact`).  It returns what an
  atomic `Get` would at some instant between its pieces if and only if it hits or the key is dead at
  some such instant; in terms of `Set`s, unless the entry it read expires before the comparison and
  it and every later one is overwritten before it expires or outlives the comparison
  (`GetLinearizes`, `LiveIff`).  `SpuriousMiss` is a run with a key that is live throughout and missed.
- Decoding followed by encoding gives a text back if and only if it has no line breaks and the
  unused bits of its last digit are zero (`EncodeDecodeIff`); "Zh==" is a text with an unused bit set
  (`NotCanonical`).
- A specification such as "," parses to no ports under every cap, because the cap is looked at only
  after a non-blank part (`SpecMeansUnion`); the function's comment does not mention this.
- Some administrator survives every run of atomic requests (`AdminSurvives`).  If the check of a
  deletion and its execution are separate steps, interleaved at will with each other and with every
  other request, administrators last through all runs from empty tables with at most k deletions
  pending at a time if and only if k <= 1 (`AdminsLastIff`); `DuelReached` is the run for k = 2.
- `DecodeJWT` trims the end of the token, so a signature comes back unchanged exactly if it has no
  trailing white space (`CompactRoundTrip`, `TrailingSpaceLost`).
- When a context is cancelled, lookups that are under way may fail.  A takeover that is filed as
  potential is really one exactly if the failure hid neither that the name resolves nor the
  fingerprint (`TakeoverUnderCancel`, `FalsePotential`); confirmed takeovers are always real.

A `char` stands for one byte of a Go string.  Times and tokens of the rate limiter are reals.

## Model

| member | source | states |
|---|---|---|
| RateLimiter.IpRateLimiter.Get | internal/middleware/ratelimit.go:38-50 | a known address gets its own limiter and an unknown one a full bucket; either way it is marked seen now, and no other address changes |
| RateLimiter.IpRateLimiter.Admit | internal/middleware/ratelimit.go:69-80 | a request is one step of the limiter specification, denied ones refreshing lastSeen but taking no token |
| RateLimiter.IpRateLimiter.Cleanup | internal/middleware/ratelimit.go:54-66 | the loop leaves exactly the addresses seen at most three minutes ago, unchanged |
| RateLimiter.IdleRefilled | internal/middleware/ratelimit.go:60 | if burst <= 180 rps, a bucket idle long enough to be dropped has refilled |
| RateLimiter.RunSimulated | internal/middleware/ratelimit.go:38-81 | in every run of requests and sweeps the evicting limiter decides as the one that never forgets, and a simulation relation links their states |
| RateLimiter.EvictionUnobservable | internal/middleware/ratelimit.go:52-66 | for rps > 0: all runs are decided alike with and without eviction if and only if burst <= 180 rps |
| RateLimiter.ForgettingShows | internal/middleware/ratelimit.go:52-66 | beyond that bound, two bursts around a sweep are a run in which eviction admits more than no eviction, and more than burst plus refill |
| RateLimiter.Conservation | internal/middleware/ratelimit.go:69-80 | admitted requests plus tokens left never exceed burst plus refill |
| RateLimiter.RateBound | internal/middleware/ratelimit.go:68-81 | if burst <= 180 rps: in every run with sweeps, any address and any window of length d, at most burst + rps * d requests are admitted |
| RateLimiter.KeepAdmitsIff | internal/middleware/ratelimit.go:69-80 | a limiter that never forgets admits a request if and only if, in every window that ends with it, the admitted requests of its address stay within burst and refill |
| RateLimiter.AdmitsIff | internal/middleware/ratelimit.go:38-81 | if burst <= 180 rps: so does the evicting limiter, after any run of requests and sweeps |
| RateLimiter.RateBoundIff | internal/middleware/ratelimit.go:52-81 | for rps > 0: that bound holds for all runs, addresses and windows if and only if burst <= 180 rps |
| RateLimiter.SweepKeepsRecent | internal/middleware/ratelimit.go:52-66 | right after a sweep the map holds exactly the addresses that asked within the last 180 seconds, each with lastSeen that recent |
| Pool.EffectiveConcurrency | internal/service/scan.go:46-48 | a positive request is used as it is, anything else becomes the given positive default |
| Pool.InvStep | internal/service/scan.go:49-74 | every step of launcher, worker or canceller keeps the pool invariant (slots, wait group, mutex, log) |
| Pool.StoreLog | internal/service/scan.go:67-69 | the write of a critical section adds exactly its own effect: nothing another worker did is lost |
| Pool.PoolSafety | internal/service/scan.go:49-74 | after every schedule at most `capacity` probes are in flight and at most one worker is in a critical section |
| Pool.LogIsProgress | internal/service/takeover.go:91-143 | after every schedule the shared variables hold a permutation of exactly the sections the workers have completed |
| Pool.AtReturn | internal/service/scan.go:54-74 | at return no worker is alive, no slot or mutex is held, and the shared variables hold the complete work of exactly a prefix of the items: of all if never cancelled, and of no more than were launched or committed to when the context was done |
| Pool.ResultsArePrefix | internal/service/scan.go:52-74 | the appended results are a permutation of the probes of exactly that prefix |
| Pool.LauncherStops | internal/service/scan.go:54-62 | once a watched context is done no worker is started but the one the launcher is committed to |
| Pool.NoDeadlock | internal/service/scan.go:54-74 | until the launcher returns some step other than a cancellation is possible, also with a full semaphore and in the wait on the cancel path |
| Pool.MeasureDecreases | internal/service/takeover.go:91-143 | every step of every actor decreases a natural-number measure |
| Pool.EverySchedulePasses | internal/service/takeover.go:91-143 | no schedule is longer than the initial measure: the pool always finishes |
| Pool.CanAlwaysReturn | internal/service/takeover.go:91-143 | every reachable state has a continuation by the pool's own steps in which the launcher returns |
| Scan.Finalize | internal/service/scan.go:76-91 | the report is the sorted results, their number and the number of open ones |
| Scan.ScanReportsPrefix | internal/service/scan.go:44-91 | whenever cancelled, the report is a sorted permutation of the probes of a prefix of the ports; Scanned is its length and OpenCount its open entries |
| Scan.ScanNothing | internal/service/scan.go:54-59 | a scan whose context is done before the first step reports nothing |
| Scan.ScanInFlight | internal/service/scan.go:46-49 | at most `concurrency` probes are in flight, 100 if that is not positive |
| Scan.ScanErasesSchedule | internal/service/scan.go:44-91 | with ascending ports every schedule gives the report of probing a prefix one port after the other, all ports if not cancelled |
| Scan.ScanUnderCancel | internal/service/scan.go:54-73 | with connections cut off by a cancellation: every port reported open is open, and every worker that was through in time reported right |
| PortSpec.ParsePortSpec | internal/service/scan.go:148-186 | the loop returns the first error met, or the strictly ascending enumeration of the set of named ports |
| PortSpec.SortedPorts | internal/service/scan.go:180-185 | the members of a set in strictly ascending order, whatever order the map is walked in |
| PortSpec.TopPorts | internal/service/scan.go:189-196 | the common ports in strictly ascending order |
| PortSpec.CollectMeans | internal/service/scan.go:153-179 | the cap tested after every part agrees with the cap on the final union, because the set only grows |
| PortSpec.SpecMeansUnion | internal/service/scan.go:148-186 | parsing succeeds if and only if the specification is not blank, every non-blank part is valid and the union fits the cap (looked at if there is a part); the result is the union |
| PortSpec.ReadPartMeans | internal/service/scan.go:159-175 | a part is valid if and only if it is one number or two around its first '-', from 1 to 65535, the lower first; other parts are reported as ranges or ports |
| PortSpec.SameParts | internal/service/scan.go:148-186 | permuting, repeating or blank-padding the parts changes neither success nor the result |
| PortSpec.ReadRendered | internal/service/scan.go:155-175 | a port or range written in decimal reads back as itself |
| PortSpec.RenderRoundTrip | internal/service/scan.go:148-186 | any rendering of a non-empty list of ports as numbers and ranges parses back to these ports if and only if they fit the cap |
| Candidates.DedupAndCap | internal/service/probe.go:50-65 | the loop keeps the first `cap` distinct non-blank normalised inputs |
| Candidates.OccurrencesMean | internal/service/takeover.go:68-84 | what is kept is distinct, exactly the non-blank inputs, in order of first occurrence |
| Probe.FinishProbe | internal/service/probe.go:87-94 | results sorted by input, their number, and the number alive |
| Probe.ProbeReportsAll | internal/service/probe.go:45-95 | every target is probed once and reported once with strictly ascending inputs; the targets are the first 100 distinct inputs, or all if fewer, and the counts are theirs |
| Probe.ProbesInFlight | internal/service/probe.go:46-48 | at most `concurrency` probes are in flight, 20 if that is not positive |
| Probe.ProbeErasesSchedule | internal/service/probe.go:49-94 | any two schedules give the same answer: deduplication makes the sort keys distinct |
| Takeover.MatchTakeoverService | internal/service/takeover.go:160-169 | the first signature one of whose patterns occurs in the CNAME, or nothing |
| Takeover.ContainsIff | internal/service/takeover.go:163 | a substring is found wherever it occurs, and only then |
| Takeover.FirstMatchMeans | internal/service/takeover.go:160-169 | the signature returned matches and none before it does |
| Takeover.VerdictMeans | internal/service/takeover.go:105-129 | which names are filed, which of the three statuses and which evidence each gets, a fingerprint deciding before resolution |
| Takeover.CheckedCoversFiled | internal/service/takeover.go:114-138 | in every reachable state Checked is at least the number of entries in the two lists |
| Takeover.FinalizeTakeover | internal/service/takeover.go:146-158 | both lists sorted by name, and findings for their two lengths or the single note that there are none |
| Takeover.TakeoverAtReturn | internal/service/takeover.go:91-143 | at return counter and lists are those of judging a prefix of the candidates one by one, permuted |
| Takeover.TakeoverReports | internal/service/takeover.go:62-144 | the lists hold exactly the vulnerable and the potential names of the prefix, strictly ascending and disjoint; Checked is their number plus that of the names that only point to a service, that is, the number of names with a verdict |
| Takeover.TakeoverNothing | internal/service/takeover.go:91-98 | a run whose context is done before the first step reports nothing |
| Takeover.TakeoverFindings | internal/service/takeover.go:149-157 | a high finding for the confirmed, then a medium one for the potential takeovers, or the note that there are none |
| Takeover.TakeoverInFlight | internal/service/takeover.go:64-66 | at most `concurrency` candidates are looked at at a time, 50 if that is not positive |
| Takeover.TakeoverCandidates | internal/service/takeover.go:71-78 | the candidates are the inputs, trimmed and lower-cased, that are not blank |
| Takeover.VerdictUnderLoss | internal/service/takeover.go:105-129 | a page cut short or a failed lookup never makes or hides a verdict, never invents a confirmed takeover, and makes a false potential one exactly if it hid the fingerprint or that the name resolves |
| Takeover.TakeoverUnderCancel | internal/service/takeover.go:91-143 | a cancelled run with such losses: Checked is exact for a prefix, confirmed takeovers are real, each potential entry is right if and only if its loss did not mislead, and workers through in time judged right |
| Takeover.FalsePotential | internal/service/takeover.go:119-126 | a concrete confirmed takeover that a loss turns into a potential one |
| Takeover.TakeoverInputs | internal/service/takeover.go:58-84 | the candidates judged are distinct and the first 400 in order of first occurrence, or all if fewer |
| SubEnum.ContainsStr | internal/service/subenum.go:208-215 | membership |
| SubEnum.Merger.Add | internal/service/subenum.go:45-64 | one call of `add` changes the entry of its name only, adding the source and the addresses it did not have |
| SubEnum.Merger.Finish | internal/service/subenum.go:94-100 | the entries of the map, each with sorted addresses and sources, sorted by name |
| SubEnum.MergeAnswers | internal/service/subenum.go:43-103 | for any sequence of calls: names strictly ascending, each with the sorted duplicate-free unions of its addresses and sources, resolved exactly if some call said so |
| SubEnum.MergeConfluence | internal/service/subenum.go:43-103 | two sequences with the same calls give equal answers: neither order nor repetition matters |
| Enumerate.CountUsableWords | internal/service/subenum.go:217-226 | the number of words that are neither blank nor comments |
| Enumerate.TriedMeans | internal/service/recon.go:126-144 | a name is tried if and only if it is a word, trimmed and lower-cased, neither blank nor a comment, before a dot and the domain |
| Enumerate.NothingLookedUp | internal/service/recon.go:131-137 | neither pool looks anything up if its context is done before the first step |
| Enumerate.LookupsInFlight | internal/service/subenum.go:177-181 | at most `concurrency` lookups of each kind are in flight, 50 if that is not positive |
| Enumerate.CountsWhatIsTried | internal/service/subenum.go:69-73 | BruteTested is the number of names SubdomainScan tries |
| Enumerate.BruteFinds | internal/service/recon.go:116-157 | SubdomainScan returns the answers of a prefix that have addresses, permuted into ascending order of name |
| Enumerate.PassiveFinds | internal/service/subenum.go:176-206 | resolveHosts returns one answer for every name of a prefix, resolved or not, permuted |
| Enumerate.CallsAreDue | internal/service/subenum.go:66-92 | every run makes only calls of `add` that its mode and lookups call for, or for a passive name that failed to resolve; every uncancelled run makes exactly those called for |
| Enumerate.EnumerationErasesSchedule | internal/service/subenum.go:37-104 | two uncancelled runs give equal answers, whatever the schedules of both pools and the interleaving of the merge |
| Enumerate.EnumerationMeans | internal/service/subenum.go:37-104 | the answer spelled out for the modes "", "both", "brute" and "passive": which names, addresses and sources, and that resolved means having an address |
| Enumerate.CancelledEnumeration | internal/service/subenum.go:37-104 | a cancelled run, whose fetch and lookups may fail for that reason, reports only names, addresses and sources that the full run reports, names ascending, and resolved still means having an address |
| Enumerate.PassiveNames | internal/service/subenum.go:143-166 | the strictly ascending list of exactly the names that `consider` accepts |
| Enumerate.ConsiderMeans | internal/service/subenum.go:145-154 | a raw entry contributes exactly the name it is, trimmed and lower-cased, or is after "*.", if that is the domain or below it and has no blank or tab |
| Enumerate.RawNamesMean | internal/service/subenum.go:155-160 | the raw entries are the lines of the subject names and the common names |
| Enumerate.OnlyOwnNames | internal/service/subenum.go:144-154 | every accepted name is the domain or ends in a dot and the domain, and has no blank or tab |
| Cache.Cache.Get | internal/cache/cache.go:40-54 | without interference: the value if present and not after its expiry, counted as a hit, else a miss |
| Cache.Cache.Set | internal/cache/cache.go:57-61 | the entry of the key is replaced with an expiry of now + ttl, nothing else changes |
| Cache.Cache.Sweep | internal/cache/cache.go:77-86 | the loop deletes exactly the entries whose expiry lies before `now` |
| Cache.GetExact | internal/cache/cache.go:40-54 | for every interleaving, a Get returns the value of the latest Set of its key at the instant it read the map, if unexpired when compared with the clock, and otherwise nothing |
| Cache.GetMeans | internal/cache/cache.go:40-62 | a Get hits with v if and only if the last Set of its key before the read has value v and expires no earlier than the comparison |
| Cache.SweepLeaves | internal/cache/cache.go:77-86 | right after a sweep the map has the latest entry of every key that had not expired when the janitor looked, and nothing else |
| Cache.LiveIff | internal/cache/cache.go:40-62 | an atomic Get would hit at every instant between two events if and only if every entry the key has in between outlives the later event or is overwritten before it expires |
| Cache.GetLinearizes | internal/cache/cache.go:40-54 | for every interleaving: a Get returns what an atomic one would at some instant between its pieces if and only if it hits or the key is dead at some such instant, with both sides also in terms of the Sets |
| Cache.UndisturbedGet | internal/cache/cache.go:40-54 | without a Set of the key between its pieces, a Get returns what an atomic one would at the comparison |
| Cache.SpuriousMiss | internal/cache/cache.go:41-49 | a run in which the key is live at every instant between the pieces, the Get misses, and so no atomic Get agrees with it |
| Cache.Cache.Stats | internal/cache/cache.go:64-68 | both counters and the number of entries, expired ones included |
| Cache.JanitorInvisible | internal/cache/cache.go:70-88 | runs that differ only in janitor steps give every Get the same result and the same counters |
| Cache.CountersExact | internal/cache/cache.go:44-53 | in every state hits and misses are the numbers of Gets counted so far as each |
| Cache.CountersAddUp | internal/cache/cache.go:64-68 | once no Get is pending, hits + misses is the number of Gets |
| Memo.WaybackLimit | internal/service/wayback.go:24-26 | the limit used is the requested one if that is between 1 and 5000, and otherwise 1000 |
| Memo.KeyInjective | internal/service/recon.go:178-181 | lookups of any two kinds with validated arguments share a key only if they are the same lookup |
| Memo.HitAnswersQuery | internal/service/cache.go:32-51 | in every interleaving a hit passes the type assertion and is the answer an earlier fetch stored for that very query, at most 60 s, 10 min, 6 h, 1 h or 24 h ago by its kind |
| Validate.ValidatedAlphabet | internal/service/validate.go:33-43 | a validated domain consists of letters, digits, hyphens and dots, so it has no colon, and has 1 to 253 characters |
| Validate.AcceptsDomain | internal/service/validate.go:33-43 | labels and a top-level domain of up to 253 characters are accepted, one last dot dropped |
| Slices.Append | internal/handlers/recon.go:135 | Go's append: in place only if there is room, otherwise into a fresh array |
| Slices.Filled | internal/service/subenum.go:162-170 | the cached list has length equal to capacity |
| Slices.ExtendFull | internal/handlers/recon.go:133-136 | appending the word list to a full slice never writes to the cached array |
| Bits.RegroupRoundTrip | internal/service/util.go:121-138 | cutting bytes into groups of 1 to 8 bits and back gives the bytes, for every number of bytes |
| Bits.CanonicalIff | internal/service/util.go:121-138 | cutting groups into bytes and back gives the groups if and only if the dropped bits are zero |
| Codecs.DecodeEncode | internal/service/util.go:121-138 | decoding undoes encoding for base64, base64url and base32, every byte string, with and without padding |
| Codecs.EncodeInjective | internal/service/util.go:121-138 | different bytes have different encodings |
| Codecs.DecodableIff | internal/service/util.go:125-138 | a text decodes if and only if, its line breaks apart, it is a possible number of digits followed by their padding |
| Codecs.EncodeDecodeIff | internal/service/util.go:121-138 | re-encoding a decoded text gives it back if and only if it has no line breaks and zero unused bits |
| Codecs.NotCanonical | internal/service/util.go:125-126 | "Zh==" decodes and is no encoding |
| Rfc4648.DigitIs | internal/service/util.go:123-131 | the base64 and base64url characters of the values 0 to 63 |
| Rfc4648.Digit32Is | internal/service/util.go:133-138 | the base32 characters of the values 0 to 31 |
| Rfc4648.GroupsAre | internal/service/util.go:121-138 | three bytes make four values and five make eight by the formulas of the RFC, a short last group as if zeros followed |
| Rfc4648.EncodeIs | internal/service/util.go:121-138 | the text of any bytes: the characters of those values, and '=' up to a whole quantum if padded |
| Rfc4648.BytesAre | internal/service/util.go:125-138 | four values make three bytes and eight make five, unused bits dropped |
| Rfc4648.DecodeIs | internal/service/util.go:125-138 | a text of digits and their padding decodes to the bytes of its values |
| Transforms.SchemesAre | internal/service/util.go:120-152 | the five scheme names, letter case ignored, and no other |
| Transforms.HexIs | internal/service/util.go:139-142 | two small hex digits for every byte, the upper half first |
| Transforms.QueryEscapeIs | internal/service/util.go:145-148 | unreserved characters as they are, a space as '+', every other byte as '%' and two capital hex digits |
| Transforms.TransformWrites | internal/service/util.go:114-148 | for every scheme name and text, the encoding is the RFC 4648, hex or escaped text above |
| Transforms.UnescapeReads | internal/service/util.go:149-150 | unescaping reads a text token by token, escapes with digits of either case |
| Transforms.HexRoundTrip | internal/service/util.go:139-144 | hex decoding undoes hex encoding |
| Transforms.HexCanonical | internal/service/util.go:139-144 | a text that decodes is, in lower case, the encoding of what it decodes to |
| Transforms.HexDecodableIff | internal/service/util.go:143-144 | a text is hex if and only if its length is even and it has only hex digits |
| Transforms.UnescapableIff | internal/service/util.go:149-150 | a text is unescaped if and only if every '%' is followed by two hex digits |
| Transforms.EscapeRoundTrip | internal/service/util.go:145-150 | query unescaping undoes escaping for every byte string, and the escaped text has only unreserved characters, '+' and '%' |
| Transforms.TransformRoundTrip | internal/service/util.go:114-161 | for all five schemes and every text: encoding succeeds exactly under a known scheme, and decoding its result gives the text |
| Transforms.TransformErrors | internal/service/util.go:115-161 | exactly when each error is given, a decoding error for exactly the texts that are not digits and padding, hex or well escaped, none of which is an encoding |
| Favicon.FaviconText | internal/service/probe.go:178-188 | the loop builds the base64 text cut into lines, each ended by a line feed |
| Favicon.FaviconLines | internal/service/probe.go:181-188 | n characters make ceil(n / 76) lines, all but the last of exactly 76 and the last not empty |
| Favicon.FaviconRoundTrip | internal/service/probe.go:178-190 | deleting the line feeds gives the base64 text, and `Transform` decodes the chunked text to the icon |
| Jwt.RawRejectsPads | internal/service/util.go:202-205 | the unpadded decoder rejects every segment with a pad, so the fallback is reached |
| Jwt.DecodersAgree | internal/service/util.go:202-209 | where both decoders accept a segment they give the same bytes |
| Jwt.SegmentEither | internal/service/util.go:201-209 | a segment decodes to its bytes whether written with padding or without |
| Jwt.CompactRoundTrip | internal/service/util.go:174-199 | for all header and payload bytes, padded or not, with or without "Bearer ", and any dot-free signature: exactly these bytes reach the JSON parser and the signature comes back without trailing space |
| Jwt.CompactAnswer | internal/service/util.go:181-198 | for a compact token: the header's JSON as header, the payload's as payload, the signature, and the header's algorithm or ""; a header that is not JSON is reported before a payload that is not |
| Jwt.JwtSegments | internal/service/util.go:177-180 | the wrong number of segments is reported if and only if there are not two dots, with their number |
| Jwt.JwtErrors | internal/service/util.go:181-194 | for three segments: which error each failing segment gives, and which segment each part of an answer comes from |
| Jwt.BlanksIgnored | internal/service/util.go:175 | white space before a token does not matter |
| Jwt.TrailingSpaceLost | internal/service/util.go:175-192 | a signature that ends in a space comes back without it |
| Jwt.AcceptedIff | internal/service/util.go:174-215 | a token is accepted if and only if its body is three dot-free segments, the first two being JSON in base64url |
| Store.Tables.CreateUser | internal/store/users.go:22-35 | a new row under an id never given out before, or no change if the e-mail is taken |
| Store.Tables.GetUserByEmail | internal/store/users.go:38-41 | the row with this e-mail, or none |
| Store.Tables.GetUserByID | internal/store/users.go:44-47 | the row with this id, or none |
| Store.Tables.DeleteUser | internal/store/users.go:95-104 | the user and all its keys are gone, all else stays; or not found |
| Store.Tables.ListUsers | internal/store/users.go:64-82 | every user once, newest first, with the number of its unrevoked keys |
| Store.Tables.CountAdmins | internal/store/users.go:107-111 | the number of users with role admin |
| Store.Tables.CreateAPIKey | internal/store/apikeys.go:21-30 | a new unrevoked key under a new id, refused without a live owner or with a taken hash |
| Store.Tables.ResolveAPIKey | internal/store/apikeys.go:41-55 | the unrevoked key with this hash and its owner, or none |
| Store.Tables.ListAPIKeysByUser | internal/store/apikeys.go:63-82 | the user's keys with all their columns, newest first, each once |
| Store.Tables.RevokeAPIKey | internal/store/apikeys.go:85-106 | only the named key is marked revoked, and with an owner given only if it is that owner's |
| Store.InsertUserKeeps | internal/store/store.go:42-49 | the table invariants survive, the id is larger than any given out, and failure changes nothing |
| Store.InsertKeyKeeps | internal/store/store.go:51-60 | the table invariants survive, foreign key and unique hash included |
| Store.RemoveUserKeeps | internal/store/store.go:51-60 | the table invariants survive a deletion: exactly the user's keys go with it |
| Store.MarkRevokedKeeps | internal/store/apikeys.go:85-106 | exactly one key stops being live |
| Accounts.Ttl | internal/auth/auth.go:48-50 | the life of a session is the configured one if positive and otherwise an hour |
| Accounts.SessionIff | internal/auth/auth.go:178-196 | a token stands for u if and only if it was issued for u, has not expired, and u exists now |
| Accounts.RequireAdmin | internal/middleware/auth.go:57-71 | exactly the signed-in users who are administrators in the table now pass, and signed-in others are forbidden |
| Accounts.ContextKeeps | internal/middleware/auth.go:73-78 | the user id written to the request context reads back as itself |
| Accounts.HandleKeeps | internal/handlers/auth.go:37-92 | every request keeps the tables and the tokens sound, gives out no id twice, changes no user row, no owner and no hash of a key, and undoes no revocation |
| Accounts.RunKeeps | internal/store/store.go:41-61 | so does every run of requests |
| Accounts.UserPrincipalIff | internal/auth/auth.go:151-173 | a request is "user:u" if and only if its X-API-Key is no live key, its bearer credential is an issued, unexpired token of u, and u exists |
| Accounts.KeyPrincipalIff | internal/auth/auth.go:135-173 | a request is "key:k" if and only if X-API-Key is the text of the live key k, or X-API-Key is no live key and the bearer credential is |
| Accounts.BearerReads | internal/auth/auth.go:157-159 | the credential is what follows "Bearer " |
| Requests.LoginMeans | internal/handlers/auth.go:79-92 | a session is given if and only if a user has this e-mail and password; its token stands for that user, and otherwise the reply is 401 and nothing changes |
| Requests.RegisterMeans | internal/handlers/auth.go:37-71 | which refusal, in source order, or a new client under a new id, signed in, and nothing else changed |
| Requests.KeyNameMeans | internal/handlers/keys.go:24-30 | the trimmed name cut to 60 characters, or "default" |
| Requests.CreateKeyMeans | internal/handlers/keys.go:21-46 | a signed-in user gets "pk_" and hex digits, stored by hash under a new id as its own; nothing else changes |
| Requests.RevokeKeyMeans | internal/handlers/keys.go:59-74 | exactly the named key of the signed-in user is revoked, or which refusal |
| Requests.AdminRevokeKeyMeans | internal/handlers/admin.go:88-103 | exactly the named key is revoked for a signed-in administrator, or which refusal |
| Requests.AdminDeleteUserMeans | internal/handlers/admin.go:51-70 | exactly the named other user goes, with its keys, for a signed-in administrator, or which refusal |
| Requests.CreateAdminMeans | internal/store/users.go:22-35 | a new administrator under a new id, or nothing |
| Requests.TokensEarned | internal/auth/auth.go:80-113 | over any run: every token was there, or answered a registration of its user or a login with its user's password |
| Requests.DeletionsAuthorised | internal/handlers/admin.go:51-70 | over any run: a user goes only by the request of another who is an administrator at that moment |
| Requests.AdminsAppointed | internal/handlers/auth.go:65 | over any run: nobody becomes an administrator but by being created as one |
| Requests.WithdrawalsAuthorised | internal/store/apikeys.go:85-106 | over any run: a key stops working only by the request of its owner or of an administrator |
| Requests.KeysMinted | internal/store/apikeys.go:21-30 | over any run: every key was there or was minted by a request of its owner |
| Accounts.DeletedUserLockedOut | internal/store/users.go:93-104 | after a deletion no state of any later run authenticates the user or any of its keys, nor resolves a session of it |
| Accounts.RevokedKeyLockedOut | internal/store/apikeys.go:85-106 | after a revocation no state of any later run authenticates the key |
| Accounts.KeyWorksUntilRevoked | internal/auth/auth.go:125-173 | a minted key is accepted as itself in exactly those later states in which it is neither revoked nor gone with its owner |
| Accounts.SessionLasts | internal/auth/auth.go:80-113 | a token stands for its user in exactly those later states in which it has not expired and the user exists |
| Accounts.StaysUser | internal/handlers/admin.go:51-70 | a request never removes the administrator who makes it, nor anybody an administrator did not name |
| Accounts.AdminSurvives | internal/handlers/admin.go:51-70 | any run from a state with an administrator ends in one with an administrator |
| AdminRaces.SplitIsAtomic | internal/handlers/admin.go:51-70 | a check followed at once by its execution is the atomic deletion |
| AdminRaces.OneAtATime | internal/middleware/auth.go:57-71 | in every run with at most one deletion between check and execution, an administrator remains once there is one |
| AdminRaces.DuelReached | internal/handlers/admin.go:57-61 | from empty tables, two administrators are created, sign in, both pass the check and delete each other, and none is left |
| AdminRaces.AdminsLastIff | internal/handlers/admin.go:51-70 | over all interleaved runs with at most k deletions pending at a time, administrators last if and only if k <= 1 |
| Accounts.Server.Issue | internal/auth/auth.go:80-95 | the token is recorded with the user's id as subject and its expiry |
| Accounts.Server.Register | internal/handlers/auth.go:37-71 | the handler is the register step: which refusal, which new row, which token |
| Accounts.Server.Login | internal/handlers/auth.go:79-92 | the handler is the login step |
| Accounts.Server.CreateKey | internal/handlers/keys.go:21-46 | the handler is the create-key step |
| Accounts.Server.RevokeKey | internal/handlers/keys.go:59-74 | the handler is the revoke step, for the caller's own keys only |
| Accounts.Server.AdminRevokeKey | internal/handlers/admin.go:88-103 | the handler is the revoke step for any key |
| Accounts.Server.AdminDeleteUser | internal/handlers/admin.go:51-70 | the handler is the delete step: bad id, own account, unknown user, or the deletion |
| RequestLogger.RequestLogger.Record | internal/middleware/logging.go:36-60 | an entry, "anon" without a principal, is sent if the buffer has room and dropped otherwise |
| RequestLogger.RequestLogger.Receive | internal/middleware/logging.go:27-28 | the writer takes the oldest entry |
| RequestLogger.RequestLogger.InsertLog | internal/store/logs.go:18-24 | a new row with the next id, or nothing on failure |
| RequestLogger.Reached | internal/middleware/logging.go:20-60 | in every reachable state the kept entries are, in order, those done with, the one in the writer and the buffer |
| RequestLogger.Conservation | internal/middleware/logging.go:20-60 | completed = stored + failed + in writer + buffered + dropped, and the buffer never exceeds 2048 |
| RequestLogger.RowsInOrder | internal/middleware/logging.go:27-33 | stored rows are, in order of completion, the entries that were kept and inserted, with increasing ids |
| RequestLogger.DroppedOnlyWhenFull | internal/middleware/logging.go:56-59 | an entry is dropped if and only if the buffer is full, which takes 2048 earlier requests |
| RequestLogger.BurstKept | internal/middleware/logging.go:22-60 | up to 2048 requests nothing is dropped, however slow the writer |

## Left out

- The network: DNS, HTTP, WHOIS, TLS and socket calls, banners and page scraping are arbitrary functions of their input.
- What the network really says is a function of the name; a worker may see less of it after a cancellation, but a name that changes its addresses during a run is not modelled.
- ProbeHosts under a cancelled context: its results are those of an arbitrary probe, so failures are among them, but nothing is said about how they compare with an undisturbed run.
- `strings.ToLower` on non-ASCII text: a parameter wherever it is applied to names; `Transform` needs only ASCII case.
- `rate.Limiter`: floating-point rounding, a rate of zero or less, and a gap between `get` and `Allow` in which a stalled request holds an evicted bucket.
- The ticker of the sweep and of the janitor: sweeps may happen at any time, so every period is covered.
- The 64-bit wrap-around of the cache's hit and miss counters.
- `SetCacheEnabled` switched while lookups run; the switch is a parameter of the typed read only.
- The fetching halves of LookupDNS, LookupWhois, WaybackURLs and LookupIPInfo, and the goroutines that fill a DNS record field by field.
- The standard-library codecs: modelled from RFC 4648 and RFC 3986, so a library decoder that accepts still more malformed texts is not; what is decoded besides an error is dropped.
- The sort library: modelled by its contract, a sorted permutation, equal keys in any order.
- Growth of a Go slice: the capacity after a copy is one of the possible ones.
- The table of takeover signatures is a parameter; finding texts are reduced to severity and count; the elapsed time of a scan is dropped.
- JSON parsing, murmur3, bcrypt, SHA-256 and HMAC are uninterpreted; a session token verifies if it was issued and has not expired.
- SessionLasts: assumes that signing is injective on claims, because two tokens with one text would be one token.
- AdminSurvives: each request is one atomic step; AdminRaces.AdminsLastIff says how far it holds when deletions are not.
- Concurrent requests between the statements of the other handlers, database failures other than constraint violations, timestamps and last_used_at.
- Enumerate.CountsWhatIsTried: assumes that lower-casing a word keeps it usable or unusable, which is a property of the library.
- The CLI and bootstrap checks before an administrator is created, the e-mail pattern, and the API-authentication switch.
- Grading tables, hash identification, address classes, routing, response envelopes, configuration and the dashboard: finite case tables and wiring that would only add easy members.
- ListLogs and the aggregate statistics: SQL text.
