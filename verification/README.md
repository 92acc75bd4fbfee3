# Verified model of the stratum bridge

The bridge connects stratum miners to a node. It gives every connection a slice of the 64-bit nonce space, hands out
jobs made from block templates, takes submitted nonces back, counts shares per worker, and talks to each miner over one
socket that several goroutines write to. This project models those parts in Dafny and proves what they keep over whole
runs and interleavings.

| modules | what they model |
|---|---|
| `GoInts`, `Digits`, `Bytes`, `Sets`, `Rounding` | Go's wrapping integers and `%`, printing and parsing, byte order and Base16 (section 8 of RFC 4648), `big.Float` rounding |
| `Nonces`, `WorkersListeners`, `NonceRuns` | extranonce allocator, client registry, composed nonces, runs of connects, disconnects and submits |
| `HeaderStream`, `JobEncodings`, `CompactBits`, `Difficulty` | the byte stream under the header hash, the two job encodings, compact bits, difficulty and target |
| `JobRing`, `MiningStates`, `Sessions`, `SessionRuns`, `SessionOutcomes` | the 32-slot job table against an unbounded log, the handlers of a connection, whole lives of a connection, and what its handlers bring about |
| `StatsTables`, `StatsRuns`, `StatsRows`, `ShareHandlers`, `SubmitRuns` | the re-keyed table of worker statistics, share counting under every interleaving, in total and row by row, the submit path, and submits in the context of the session and the allocator |
| `WriteLocks`, `WriteLockRuns`, `Framing` | the try-lock write protocol in small steps, and the line reader at the other end |

How the pieces fit: methods follow the code step by step and are proved equal to a specification function; the theorems
are about those functions and about machines whose steps they are. `SubmitRuns.ClientsSearchApart` runs through the
allocator, the printer, the session, the composer and the parser at once; `Framing.WireReadBack` runs through the lock,
the socket and the reader.

## Where the code falls short of the obvious property

Each of these is a lemma with a concrete witness, next to the lemma that says exactly when the property does hold.

- A submitted nonce too long to be composed is taken as it stands, so two clients can hit the same nonce
  (`Nonces.LongNoncesCollide`). Another client can reach an accepted nonce by composing if and only if that nonce is
  neither composed nor starts in its own client's slice (`Nonces.ForeignNonce`).
- The extranonce wraps. Two clients can reach the same composed nonce if and only if their ordinals are congruent modulo
  256^s, and then every string stands for the same nonce from both (`NonceRuns.WrappedClientsCollide`).
- Client ids wrap too. After 2^32 connects the next client takes the id of the first one if that is still there
  (`NonceRuns.IdCanBeTaken`). The registry stays exact if and only if no connect is given an id that is still registered
  (`NonceRuns.RegistryExactUnlessTaken`).
- A worker without a device name can push its own counted row out of the statistics table
  (`StatsRuns.NamelessWorkerLosesShare`), or count a share in a row that was pushed out before
  (`StatsRuns.LateShareIsLost`). At rest the table equals the overall counters if and only if no step of the run
  overwrote a row that had counted something or counted in a row no longer on file (`StatsRuns.QuietTotalsExact`).
- Job ids that were never issued find a job too (`JobRing.NeverIssuedIdsAlias`); an issued id finds its own job if and
  only if it is among the last 32 (`JobRing.WindowExact`).
- A failed `mining.set_difficulty` is never repeated, and jobs follow all the same (`SessionRuns.JobsWithoutDelivery`,
  on a run from the connect on). Every announced job follows a delivered difficulty if and only if the step that
  issued the first template delivered its difficulty or no second template was fetched
  (`SessionRuns.JobsFollowArrival`).
- Hashes that are not hex are dropped, so two different headers can have one stream
  (`HeaderStream.MalformedHashesCollide`). A header that shares the stream of a well-formed block is that block if and
  only if it is well-formed itself (`HeaderStream.SharedStreamIsSameBlock`).
- A read that ends inside a line breaks the line in two (`Framing.SplitReadBreaksLine`). Delivery is exact if and only if
  no read that more data follows ends inside a line (`Framing.DeliveryExact`).
- A reply that misses its deadline makes the listener go on with the next read, so the rest of the lines of that read are
  never handled (`Framing.TimeoutLosesLine`). The callback sees all lines read if and only if none is rejected before the
  last of its read and the loop does not end with lines still to come (`Framing.HeardExact`).

The comment at `src/poolstratum/share_handler.go:179-180` speaks of nonces shorter than 16 digits less the extranonce; the
code also composes nonces of exactly that length, and the model follows the code.

## Model

| member | source | states |
|---|---|---|
| `GoInts.GoRem` | src/prom/mining_state.go:48 | Go's `%`: congruent to the dividend, of its sign, and smaller than the divisor in size |
| `Digits.ParseUintMeaning` | src/poolstratum/share_handler.go:192 | `ParseUint` accepts exactly the non-empty digit strings with a value below 2^64 and returns that value |
| `Digits.ParseIntMeaning` | src/poolstratum/share_handler.go:115 | `ParseInt` accepts exactly an optional sign and decimal digits within 64 bits and returns the number with that sign |
| `Digits.PrintPaddedValue` | src/poolstratum/workers_listener.go:69 | `%0*x` of a number that fits has exactly the given width and reads back as the number |
| `Digits.ParsePrintedInt` | src/chainnode/node.go:263 | every 64-bit int printed with `%d` is read back by `ParseInt` as itself |
| `Nonces.ClampSize` | src/poolstratum/stratum_server.go:83-86 | a configured extranonce size of up to 3 bytes is kept, a larger one becomes 3 |
| `Nonces.StripMeaning` | src/poolstratum/share_handler.go:134 | stripping takes exactly the first "0x" out of a text, wherever it stands, and leaves a text without one alone |
| `Nonces.PrefixIgnored` | src/poolstratum/share_handler.go:134 | a hex nonce stands for the same number with "0x" in front and without |
| `Nonces.ExtranonceRange` | src/poolstratum/workers_listener.go:38 | the largest extranonce is one less than 16^(2s) |
| `Nonces.ExtranonceStringShape` | src/poolstratum/workers_listener.go:68-70 | every extranonce the allocator can hand out prints as exactly 2s hex digits that read back as it |
| `Nonces.ShortNonce` | src/poolstratum/share_handler.go:134-203 | a submit whose text without its first "0x" is a hex nonce of at most 16-2s digits composes to 16 digits, parses to e*16^(16-2s)+v in 64 bits, and dividing gives e and v back |
| `Nonces.LongNonce` | src/poolstratum/share_handler.go:183-185 | a text of more than 16-2s digits without its first "0x" is parsed as it stands, whatever the extranonce |
| `Nonces.AcceptedNonce` | src/poolstratum/share_handler.go:134-203 | exactly which submitted texts are accepted: without their first "0x" they are hex, and of at most 16-2s digits or below 2^64 |
| `Nonces.InsideSlice` | src/poolstratum/share_handler.go:181-203 | an accepted nonce lies in the slice of its extranonce if and only if it was composed or starts there anyway |
| `Nonces.SliceIsReached` | src/poolstratum/share_handler.go:181-203 | every 64-bit nonce is composed from its remaining digits with the extranonce in whose slice it starts |
| `Nonces.ForeignNonce` | src/poolstratum/share_handler.go:183-185 | some other extranonce reaches an accepted nonce by composing if and only if it is neither composed nor starts in its own slice |
| `Nonces.LongNoncesCollide` | src/poolstratum/share_handler.go:183-185 | sixteen zeros from clients with different extranonces stand for the same nonce |
| `WorkersListeners.WorkersListener.constructor` | src/poolstratum/workers_listener.go:33-45 | a new listener is the empty registry for the clamped size, with the largest extranonce of that size |
| `WorkersListeners.WorkersListener.OnConnect` | src/poolstratum/workers_listener.go:47-76 | the registry takes one connect step; the client gets the next id and the printed extranonce, or keeps its own with size 0 |
| `WorkersListeners.WorkersListener.OnDisconnect` | src/poolstratum/workers_listener.go:78-86 | exactly the entry under the client's id goes |
| `WorkersListeners.WorkersListener.NewBlockAvailable` | src/poolstratum/workers_listener.go:88-131 | a job sender is started once for a client if and only if it calls itself a kaspa miner and is still there; their non-empty wallets, and no others, are collected in that order |
| `NonceRuns.AllocatorClosedForm` | src/poolstratum/workers_listener.go:47-70 | over every run the n-th connect got id n+1 (wrapped) and extranonce n mod 256^s, and every accepted nonce is what its client's extranonce makes of it |
| `NonceRuns.NonceNamesClient` | src/poolstratum/share_handler.go:181-203 | the top digits of an accepted nonce that is composed, or starts in its client's slice anyway, are the ordinal of that client mod 256^s |
| `NonceRuns.NoncesDisjoint` | src/poolstratum/workers_listener.go:55-70 | over every run, clients whose ordinals are not congruent modulo 256^s never have the same nonce accepted, when both nonces are composed or start in their client's slice anyway |
| `NonceRuns.NearbyNoncesDisjoint` | src/poolstratum/workers_listener.go:55-70 | in particular those of clients fewer than 256^s connects apart |
| `NonceRuns.WrappedClientsCollide` | src/poolstratum/workers_listener.go:55-70 | over every run, two clients can reach the same composed nonce if and only if their ordinals are congruent modulo 256^s, and exactly then every string stands for the same nonce from both |
| `NonceRuns.RegistryIsExact` | src/poolstratum/workers_listener.go:51-86 | up to 2^32 connects, the registry is exactly the live clients, each under its own id |
| `NonceRuns.RegistryExactUnlessTaken` | src/poolstratum/workers_listener.go:51-86 | over every run of any length, the registry stays exact if and only if no connect is given an id that is still registered |
| `NonceRuns.FirstIdTaken` | src/poolstratum/workers_listener.go:51 | after any run with 2^32 connects in which the first client stays, the next connect takes its id |
| `NonceRuns.IdCanBeTaken` | src/poolstratum/workers_listener.go:51 | the run in which 2^32 clients connect and stay is one |
| `Bytes.LittleRoundTrip` | src/prom/hasher.go:190-200 | what is written little-endian in w bytes reads back modulo 256^w |
| `Bytes.HexDecodeValue` | src/prom/hasher.go:202-205 | decoding an even number of hex digits keeps the number they write and yields half as many bytes |
| `Bytes.PrintedWord` | src/prom/hasher.go:142 | `%016x` of a word is the Base16 text of its bytes, most significant first |
| `Bytes.HexDecodeInjective` | src/prom/hasher.go:202-205 | two even-length hex texts decode alike if and only if they differ at most in letter case |
| `HeaderStream.WriteHashes` | src/prom/hasher.go:66-68 | the hash absorbs the decoded hashes of a level in order, after what it had |
| `HeaderStream.WriteParents` | src/prom/hasher.go:64-69 | the hash absorbs every level with its length in front, in order |
| `HeaderStream.PadBlueWork` | src/prom/hasher.go:95-103 | the loop puts one "0" in front of an odd-length blue work and leaves an even one |
| `HeaderStream.PadToEvenMeaning` | src/prom/hasher.go:95-103 | padding keeps the number a hex text writes, and an even-length text altogether |
| `HeaderStream.SerializeBlockHeader` | src/prom/hasher.go:57-112 | the digest is the hash of the whole specified stream |
| `HeaderStream.StreamDecodes` | src/prom/hasher.go:57-107 | an independent reader gets the content of every well-formed header back from its stream, with nothing left over |
| `HeaderStream.StreamFields` | src/prom/hasher.go:57-107 | what is read back is every field's own number: each hash and the blue work as written in hex, version mod 2^16, bits and scores, and zeros for timestamp and nonce |
| `HeaderStream.ContentAgrees` | src/prom/hasher.go:57-107 | the decoded contents agree if and only if the headers agree but for timestamp, nonce, version mod 2^16, letter case and one leading zero of an odd-length blue work |
| `HeaderStream.ContentDeterminesStream` | src/prom/hasher.go:57-107 | headers with the same content have the same stream, well-formed or not |
| `HeaderStream.StreamIdentifiesBlock` | src/prom/hasher.go:57-107 | two well-formed headers have the same stream if and only if they are the same block in that sense |
| `HeaderStream.SharedStreamIsSameBlock` | src/prom/hasher.go:202-205 | a header that shares the stream of a well-formed block is that block if and only if its own hash texts and blue work are well-formed |
| `HeaderStream.MalformedHashesCollide` | src/prom/hasher.go:202-205 | a hash that is not hex gives the same stream as an empty one |
| `JobEncodings.GenerateJobHeader` | src/prom/hasher.go:114-130 | the result is the four little-endian words of the header, although each is printed and parsed on the way |
| `JobEncodings.ReparsedWord` | src/prom/hasher.go:122-128 | printing a word in hex and parsing it into 64 bits is the identity |
| `JobEncodings.GenerateLargeJobParams` | src/prom/hasher.go:132-150 | the result is the four big-endian words and the byte-reversed timestamp, 16 digits each |
| `JobEncodings.WordsInvert` | src/prom/hasher.go:114-120 | laying the four words out as bytes gives the header's 32 bytes |
| `JobEncodings.TimestampText` | src/prom/hasher.go:135-142 | the last 16 digits decode to the timestamp in little-endian order |
| `JobEncodings.LargeFormDecodes` | src/prom/hasher.go:132-150 | the large form is 80 hex digits; 64 decode to the header bytes and 16 to the little-endian timestamp |
| `JobEncodings.FormsAgree` | src/prom/hasher.go:114-150 | both forms of a job carry the same 32 bytes |
| `CompactBits.TargetFormula` | src/prom/hasher.go:154-170 | for bits e*2^24+m with m below 2^24 the target is floor(m*256^e/256^3) and below 256^e |
| `CompactBits.TargetStrictlyIncreasing` | src/prom/hasher.go:154-170 | on normalised bits a larger encoding is a strictly larger target |
| `Rounding.RoundError` | src/prom/hasher.go:43 | the rounding error is at most half a unit in the last place, hence at most x*2^-p |
| `Rounding.RoundNearest` | src/prom/hasher.go:43 | no number of p bits is nearer to x than its rounding |
| `Rounding.RoundTiesToEven` | src/prom/hasher.go:43 | when another p-bit number is as near, the significand chosen is even |
| `Rounding.RoundIsFloat` | src/prom/hasher.go:43 | the result of rounding has p bits |
| `Rounding.RoundMonotone` | src/prom/hasher.go:43 | rounding never reverses an order |
| `Difficulty.MaxTargetIsPowerOfTwo` | src/prom/hasher.go:18 | the literal with 224 one bits is stored as exactly 2^224 |
| `Difficulty.TruncationLosesNothing` | src/prom/hasher.go:42-47 | up to difficulty 2^172 the rounded quotient is already an integer of at least 2^52 |
| `Difficulty.TargetAccuracy` | src/prom/hasher.go:42-47 | target times difficulty misses 2^224 by at most 2^171 |
| `Difficulty.TargetAntitone` | src/prom/hasher.go:42-47 | a larger difficulty never gives a larger target |
| `Difficulty.LittleNearQuotient` | src/prom/hasher.go:172-188 | through all three roundings the result stays within the stated fraction of 2^224/t |
| `Difficulty.DifficultyRoundTrip` | src/prom/hasher.go:42-47 | difficulty to target and back misses by less than 2^-51 of the difficulty |
| `Difficulty.WholeDifficultyRecovered` | src/prom/hasher.go:172-188 | every whole difficulty up to 2^50 comes back exactly after rounding to the nearest integer |
| `Difficulty.MinHashIsPowerOfTwo` | src/prom/hasher.go:19 | the constant is exactly 2^32 |
| `Difficulty.HashValueRoundedOnce` | src/prom/hasher.go:49-55 | for a float64 difficulty the hash value is 2^32*d/1000000000 rounded to 53 bits a single time |
| `Difficulty.DiffFields` | src/prom/hasher.go:36-40 | a share difficulty holds the number it was made from, its target, and that hash value |
| `Difficulty.HashValueMonotone` | src/prom/hasher.go:49-55 | a larger difficulty never has a smaller hash value |
| `JobRing.TableIsLookup` | src/prom/mining_state.go:37-51 | for every int and any number of jobs, wrapped counter included, the table answers as the unbounded log does: the newest job whose id is congruent under Go's `%` 32, or none |
| `JobRing.LookupFormula` | src/prom/mining_state.go:46-51 | the job found for any int, as a closed formula in the number of jobs |
| `JobRing.WindowExact` | src/prom/mining_state.go:37-51 | an issued id finds its own job if and only if it is among the last 32 |
| `JobRing.FoundIsRecent` | src/prom/mining_state.go:46-51 | whatever id is asked for, the job found is one of the last 32 |
| `JobRing.NeverIssuedIdsAlias` | src/prom/mining_state.go:46-51 | 0, -32 and ids beyond the counter find existing jobs; -1 finds none |
| `JobRing.TableKeys` | src/prom/mining_state.go:41 | exactly which slots are occupied |
| `JobRing.TableSize` | src/prom/mining_state.go:12-51 | the table holds min(n, 32) jobs after n additions |
| `JobRing.EchoedIdFindsJob` | src/poolstratum/share_handler.go:110-121 | the printed id of any of the last 32 jobs, sent back, finds that job |
| `MiningStates.MiningState.constructor` | src/prom/mining_state.go:25-31 | a new state has no jobs and no difficulty |
| `MiningStates.MiningState.AddJob` | src/prom/mining_state.go:37-44 | the job is appended to the log, the table stays the table of the log, and the id is that of its position |
| `MiningStates.MiningState.GetJob` | src/prom/mining_state.go:46-51 | the answer is the lookup in the unbounded log |
| `Sessions.WorkerContext.constructor` | src/gostratum/stratum_listener.go:95-103 | a new connection has empty names, no wallet, no extranonce and a fresh mining state |
| `Sessions.WorkerContext.HandleSubscribe` | src/gostratum/worker_handle.go:16-79 | only a delivered reply changes anything, and then each string parameter replaces its own field |
| `Sessions.WorkerContext.HandleAuthorize` | src/gostratum/worker_handle.go:81-136 | a malformed authorize changes nothing; otherwise wallet and names are set even when the reply then fails, and the extranonce is announced only after a delivered reply |
| `Sessions.ParamsSay` | src/chainnode/node.go:263-269 | what a miner decodes from the parameters of a job, in either form, is the digest and the timestamp of its template |
| `Sessions.WorkerContext.GetNotifyParams` | src/chainnode/node.go:210-271 | the whole new state in every branch, when a job is returned, that it is the newest job in the connection's form, and that its parameters decode to the digest and timestamp of the template just fetched |
| `Sessions.WorkerContext.IssueJob` | src/chainnode/node.go:237-261 | the template is logged first; the first time the settings are made and the difficulty is attempted |
| `Sessions.WorkerContext.FormatJob` | src/chainnode/node.go:263-269 | the parameters are in the form the miner was recognised for |
| `Sessions.WorkerContext.SendNewJob` | src/poolstratum/workers_listener.go:104-126 | a job that is returned is announced, and nothing else is |
| `SessionRuns.LogIsFetched` | src/chainnode/node.go:225-245 | the jobs of a connection are exactly the templates fetched for it, in order |
| `SessionRuns.RunKeeps` | src/chainnode/node.go:215-271 | every reachable connection: jobs imply settings, the settings are the server's, the difficulty is attempted at most once and before any job, every announced job is a logged one |
| `SessionRuns.DifficultyOnceAndFirst` | src/chainnode/node.go:246-261 | over every run `mining.set_difficulty` is attempted at most once and every `mining.notify` comes after it |
| `SessionRuns.WalletMeansAuthorized` | src/gostratum/worker_handle.go:97-104 | a wallet is on file if and only if the last well-formed authorize came under app name "kaspa" |
| `SessionRuns.JobsNeedAuthorize` | src/chainnode/node.go:216-224 | no job exists without an earlier authorize under app name "kaspa" |
| `SessionRuns.SubmitIsSafe` | src/poolstratum/share_handler.go:120-125 | any id that is found names one of the last 32 templates fetched, with the difficulty set |
| `SessionRuns.AnnouncedJobIsFound` | src/chainnode/node.go:263-271 | the id text of every announced job parses back to its id, its parameters decode to the digest and timestamp of its template, and while recent it is found |
| `SessionRuns.ArrivalRecorded` | src/chainnode/node.go:246-261 | over every run, the difficulty has reached the miner if and only if it was issued and the one step that issued it delivered it |
| `SessionRuns.JobsFollowArrival` | src/chainnode/node.go:246-261 | over every run, each announced job follows a delivered difficulty if and only if the step that issued the first template found the client there and the socket willing, or no second template was fetched |
| `SessionRuns.JobsWithoutDelivery` | src/chainnode/node.go:246-261 | a run of subscribe, authorize and two templates in which the difficulty fails and job 2 is delivered all the same |
| `SessionOutcomes.SubscribeFields` | src/gostratum/worker_handle.go:48-77 | a delivered subscribe sets app name, version, company and device type from parameters 0 to 3 and nothing else |
| `SessionOutcomes.NamesFromAuthorize` | src/gostratum/worker_handle.go:81-104 | over every run, miner and device name are the first two parameters of the last well-formed authorize |
| `SessionOutcomes.SendersExactly` | src/gostratum/stratum_listener.go:115-126 | a job sender is started exactly when a block arrives or an authorize succeeds while the client is there under app name "kaspa" |
| `SessionOutcomes.FetchedIsServed` | src/chainnode/node.go:225-271 | a fetched template is logged and, unless the first difficulty failed just then, announced under the next id with its own digest and timestamp |
| `SessionOutcomes.AuthorizedMinerIsServed` | src/gostratum/stratum_listener.go:115-126 | in every run, a kaspa client that is there and authorizes is sent the template that the next job sender fetches |
| `SessionOutcomes.FormByMinerName` | src/chainnode/node.go:248 | over every run, jobs take the big form if and only if "BzMiner" occurs in the miner name at the first template |
| `SessionOutcomes.MessagesAreProper` | src/gostratum/default_client.go:58-64 | over every run, only the connection's own extranonce with its length, and the server's difficulty, are ever sent |
| `SessionOutcomes.AuthorizeAnnouncesExtranonce` | src/gostratum/worker_handle.go:107-112 | a delivered authorize announces a non-empty extranonce, and no other does |
| `SessionOutcomes.GoingAwayExactly` | src/chainnode/node.go:216-235 | over every run, a connection is going away if and only if the miner hung up, had no wallet in time, or had one the node could not decode |
| `SessionOutcomes.NothingAfterwards` | src/gostratum/worker_context.go:80-83 | over every run, nothing is delivered to a connection that is going away |
| `StatsTables.GetCreate` | src/poolstratum/share_handler.go:64-96 | the table stays valid (no row under two names, each under its own), rows are never removed, the returned row exists |
| `StatsTables.GetCreateFiles` | src/poolstratum/share_handler.go:64-96 | which row is returned and where it is filed: under the device name, where it stays; else moved there from the address; else a new one under the address; other names, rows and all old counts stay, and the row carries the app |
| `StatsTables.NamedWorkerIsFiled` | src/poolstratum/share_handler.go:68-88 | two lookups in a row by a named worker return one row, which is then filed under its name |
| `StatsTables.NameKeepsRow` | src/poolstratum/share_handler.go:71-80 | a name on file keeps its row through a lookup if and only if the lookup is not from an address spelled like it, by a worker not on file |
| `StatsTables.FiledPlusLost` | src/poolstratum/share_handler.go:64-96 | what is on file and what dropped out make up everything ever counted |
| `StatsTables.GetCreateSums` | src/poolstratum/share_handler.go:64-96 | a lookup counts nothing and loses exactly the row it overwrites |
| `StatsTables.GetCreateConserves` | src/poolstratum/share_handler.go:71-88 | the totals on file change by exactly the overwritten row |
| `StatsTables.NamedKeepsFiled` | src/poolstratum/share_handler.go:68-82 | lookups by workers with a name push no row out |
| `StatsRuns.StepValid` | src/poolstratum/share_handler.go:204-250 | every step of every handler keeps the table and the row references valid |
| `StatsRuns.RunBalanced` | src/poolstratum/share_handler.go:246-250 | under every interleaving the rows are ahead of the overall counters by exactly what handlers have counted in a row but not yet overall |
| `StatsRuns.CountsConserved` | src/poolstratum/share_handler.go:64-96 | at any moment of any run, on file plus dropped equals overall plus in hand, for all four counters |
| `StatsRuns.QuietTotals` | src/poolstratum/share_handler.go:64-96 | at rest the totals on file plus those of dropped rows are the overall counters, so they never exceed them |
| `StatsRuns.StepLoses` | src/poolstratum/share_handler.go:71-88 | one step loses counts exactly when it overwrites a row that has counted something or counts in a row that is not on file, and nothing lost comes back |
| `StatsRuns.QuietTotalsExact` | src/poolstratum/share_handler.go:64-96 | at rest the totals on file equal overall if and only if no step of the run was one of these |
| `StatsRuns.NamedWorkersBalance` | src/poolstratum/share_handler.go:68-88 | when all device names are non-empty, at any moment each total on file is its overall counter plus what running handlers have in hand |
| `StatsRuns.NamedWorkersConserve` | src/poolstratum/share_handler.go:68-88 | so at rest each total on file equals its overall counter |
| `StatsRuns.OverallAtAnyMoment` | src/poolstratum/share_handler.go:233-337 | at any moment each overall counter is the number of handlers that counted in it, and blocks, stale and invalid together exceed shares by at most the handlers still running |
| `StatsRuns.OverallIsExact` | src/poolstratum/share_handler.go:233-337 | at rest each overall counter is the number of finished submits it stands for, and blocks, stale and invalid together never exceed shares |
| `StatsRuns.UninterruptedHandler` | src/poolstratum/share_handler.go:204-337 | in any run, a handler that is not interrupted has exactly the effect of the handler method |
| `StatsRuns.NamelessWorkerLosesShare` | src/poolstratum/share_handler.go:71-80 | a nameless worker's four lookups leave an overall share that no row on file shows |
| `StatsRuns.LateShareIsLost` | src/poolstratum/share_handler.go:204-250 | the same lookups before the share is counted lose nothing themselves, and then the share goes to a row no longer on file |
| `StatsRows.SubmitCountsInOwnRow` | src/poolstratum/share_handler.go:204-337 | a named worker's uninterrupted submit counts verdict and share in one row, its own if it is on file, and no other row changes a count |
| `StatsRows.RowsAreExact` | src/poolstratum/share_handler.go:204-337 | at any moment of any run, every row counts exactly the verdicts and shares of the handlers that looked it up for them |
| `StatsRows.NamedRowStays` | src/poolstratum/share_handler.go:68-81 | over every run, a row once filed under a device name is the one later lookups with that name return from any address, as long as no lookup takes the name away |
| `ShareHandlers.UnderstoodWork` | src/poolstratum/share_handler.go:105-203 | a submit that is understood is for a job in the log with a nonce of 64 bits |
| `ShareHandlers.UnderstoodExactly` | src/poolstratum/share_handler.go:105-203 | exactly when a submit is understood, as which job and nonce, and when it is refused for which reason |
| `ShareHandlers.WorkStats.constructor` | src/poolstratum/share_handler.go:83-86 | a new row counts nothing and carries the given name |
| `ShareHandlers.ShareHandler.constructor` | src/poolstratum/share_handler.go:48-54 | a new handler has an empty table and zero overall counters |
| `ShareHandlers.ShareHandler.GetCreateStats` | src/poolstratum/share_handler.go:64-96 | on heap objects, the re-keyed map changes as the table does, the object returned is the row looked up, and no object is filed twice |
| `ShareHandlers.ShareHandler.RefileRow` | src/poolstratum/share_handler.go:73-81 | the row under the address is renamed and filed under the device name, and nothing else moves |
| `ShareHandlers.ShareHandler.CreateRow` | src/poolstratum/share_handler.go:82-92 | a fresh zero row is filed under the address |
| `ShareHandlers.ShareHandler.LabelRow` | src/poolstratum/share_handler.go:93 | only the label of that row changes |
| `ShareHandlers.ShareHandler.ValidateSubmit` | src/poolstratum/share_handler.go:105-136 | the job and the nonce text without its first "0x", or the refusal, that the meaning of the submit prescribes |
| `ShareHandlers.ShareHandler.ReadSubmit` | src/poolstratum/share_handler.go:174-203 | the result is the submit's meaning: refusal, or job and composed nonce |
| `ShareHandlers.ShareHandler.CountVerdict` | src/poolstratum/share_handler.go:296-337 | the verdict's counter goes up by one in the row looked up again and overall |
| `ShareHandlers.ShareHandler.CountSubmit` | src/poolstratum/share_handler.go:204-250 | the verdict, if any, and then the share are counted in the rows found and overall |
| `ShareHandlers.ShareHandler.TempKaspHandleSubmit` | src/poolstratum/share_handler.go:173-280 | a refused submit changes nothing, an unconvertible template only looks the row up, any other has exactly the effect of an uninterrupted handler |
| `SubmitRuns.ExtranonceStays` | src/poolstratum/workers_listener.go:69 | over every run a connection keeps the extranonce it was given |
| `SubmitRuns.WorkIsSafe` | src/poolstratum/share_handler.go:120-125 | over every run an accepted submit works on one of the last 32 templates fetched for its connection, reads a difficulty that is set, and follows an authorize |
| `SubmitRuns.ClientsSearchApart` | src/poolstratum/share_handler.go:173-203 | in any run of the listener, two clients whose ordinals are not congruent modulo 256^s never have work accepted for the same nonce when both nonces are composed or start in their client's slice anyway, whatever happened on their connections |
| `SubmitRuns.HonestSubmitUnderstood` | src/poolstratum/share_handler.go:105-203 | in any run of the listener, echoing the id of a recently announced job with a short hex nonce in either spelling is understood as work on that job's template at that nonce in the client's slice |
| `WriteLocks.Connection.constructor` | src/gostratum/stratum_listener.go:95-103 | the lock starts free |
| `WriteLocks.Connection.Write` | src/gostratum/worker_context.go:95-107 | blocked exactly when the lock is held; otherwise the lock is released on every path and the wire gets what the socket took |
| `WriteLocks.Connection.WriteWithBackoff` | src/gostratum/worker_context.go:109-126 | at most three attempts; the own bytes are the whole frame on success and none when it gives up or the deadline fails |
| `WriteLockRuns.ExclusiveStep` | src/gostratum/worker_context.go:95-107 | every step keeps the lock at 1 exactly when one caller is in the critical section |
| `WriteLockRuns.RunKeeps` | src/gostratum/worker_context.go:95-126 | over every interleaving of any number of callers: exclusion, each caller's record of attempts, and the make-up of the wire |
| `WriteLockRuns.MutualExclusion` | src/gostratum/worker_context.go:95-107 | the lock is 1 exactly when one caller is inside, and never two are |
| `WriteLockRuns.WireIsFrames` | src/gostratum/worker_context.go:95-107 | the wire is a row of segments, one per caller that reached the socket, each its whole frame unless its write is open or reported an error |
| `WriteLockRuns.HeldIsBlocked` | src/gostratum/worker_context.go:95-107 | over every interleaving, a caller's attempts recorded as held are those at which somebody else was in the critical section |
| `WriteLockRuns.GaveUpMeansBlocked` | src/gostratum/worker_context.go:109-126 | a caller that returned gave up if and only if somebody else was inside at all three of its attempts |
| `WriteLockRuns.AttemptSucceeds` | src/gostratum/worker_context.go:95-107 | in any run that leaves the lock free, an attempt that is not interrupted and meets no error puts the whole frame on the wire, returns "sent" and frees the lock |
| `WriteLockRuns.FreeLockIsTaken` | src/gostratum/worker_context.go:68-126 | so a new call on a free lock and a connection that is up gets its whole frame through |
| `WriteLockRuns.BlockedCallerRetries` | src/gostratum/worker_context.go:114-116 | and so does a caller blocked fewer than three times that wakes up to a free lock |
| `WriteLockRuns.TurnedAwayExactly` | src/gostratum/worker_context.go:69-71 | over every interleaving, a call is turned away if and only if the connection was going away when it was made |
| `WriteLockRuns.CallerOutcome` | src/gostratum/worker_context.go:68-126 | a caller that returned got what the sequential loop gives for its attempts, put exactly those bytes on the wire, tried at most three times and is outside the critical section |
| `WriteLockRuns.SentMeansWritten` | src/gostratum/worker_context.go:109-126 | write errors aside, a caller's bytes on the wire are its whole frame if it was told so and none otherwise |
| `WriteLockRuns.CleanWireIsWholeFrames` | src/gostratum/worker_context.go:95-126 | without open or failed writes the wire is a sequence of whole frames of callers that were told so |
| `WriteLockRuns.CleanWireOwners` | src/gostratum/worker_context.go:95-126 | and the owners of those frames are exactly the callers that were told so, each with one frame |
| `Framing.FillBuffer` | src/gostratum/stratum_client.go:52-53 | the buffer is the data followed by the zeros that were there |
| `Framing.ScanLines` | src/gostratum/stratum_client.go:58-64 | whatever the callback answers to each call, it sees the lines in order up to the first it rejects, whose answer is returned |
| `Framing.ReadFromConnection` | src/gostratum/stratum_client.go:46-65 | what the callback sees and how the read ends, for data, timeouts and errors |
| `Framing.HandedUpTo` | src/gostratum/stratum_client.go:60-62 | a rejected line is the last one handed over, and its answer is the outcome |
| `Framing.ReturnDropped` | src/gostratum/stratum_client.go:58-60 | one carriage return at the end of a line is dropped |
| `Framing.ListenToClient` | src/gostratum/stratum_client.go:16-42 | the read loop goes on after timeouts and stops at any other failure |
| `Framing.HeardInOrder` | src/gostratum/stratum_client.go:16-65 | whatever the callback answers, the lines heard are lines read, each at its own place and in increasing order: none made up, repeated or moved |
| `Framing.HeardExact` | src/gostratum/stratum_client.go:28-41 | the callback sees all lines read if and only if none is rejected before the last of its read and the loop does not end, at an error, with lines still to come |
| `Framing.HeardIsPrefix` | src/gostratum/stratum_client.go:28-41 | the lines heard are the first so many lines read if and only if no rest of a read is passed over before later lines are heard, and none is when the callback reports no passed deadline |
| `Framing.HeardStopsAtError` | src/gostratum/stratum_client.go:53-56 | nothing is heard after a read that fails |
| `Framing.HeardStopsAtFailure` | src/gostratum/stratum_client.go:37-40 | nothing is heard after a line whose answer is an error other than a passed deadline |
| `Framing.TimeoutLosesLine` | src/gostratum/stratum_client.go:28-30 | with a passed deadline on the first of three lines in two reads, the callback sees the first and the third |
| `Framing.HeardAll` | src/gostratum/stratum_client.go:16-65 | without failures and rejections it sees all of them |
| `Framing.LineCount` | src/gostratum/stratum_client.go:58-60 | there is one line per newline, and one more for data that ends inside a line |
| `Framing.LinesConcat` | src/gostratum/stratum_client.go:58-60 | lines of two pieces are the lines of the whole when the first does not end inside a line |
| `Framing.DeliveryExact` | src/gostratum/stratum_client.go:46-65 | the lines of all reads are the lines of the whole stream without NULs if and only if no read that more data follows ends inside a line |
| `Framing.SplitReadBreaksLine` | src/gostratum/stratum_client.go:52-60 | a line cut by a read arrives as two |
| `Framing.FramesArrive` | src/gostratum/worker_context.go:76 | newline-terminated frames without newline, NUL or final carriage return are the lines of their concatenation, one for one |
| `Framing.FramesReadBack` | src/gostratum/stratum_client.go:46-65 | such frames arrive one for one in order if and only if no read that more data follows ends inside one |
| `Framing.WireReadBack` | src/gostratum/worker_context.go:68-126 | over every interleaving without failed or unfinished writes, the payloads on the wire are those of exactly the callers told "sent", each once, and a peer sees exactly these in wire order if and only if no read of it that more data follows ends inside a line |

## Left out

- Concurrency of handlers on one connection: for the session properties every handler is one atomic step. `AddJob` is one
  step although the counter is incremented outside the lock (`src/prom/mining_state.go:38-40`). Share counting and the
  write protocol are modelled in small steps.
- Proof of work, `RPCBlockToDomainBlock`, `SubmitBlock` and `GetBlockTemplate`: their outcomes are parameters. BLAKE2b is an
  arbitrary function from streams to 32 bytes; its constructor and `binary.Write` cannot fail on these arguments.
- `SharesDiff`, `LastShare`, `StartTime` and the wrap of the 64-bit counters: counters are unbounded naturals.
- Which of several workers behind one shared address a row should belong to: the code hands the row under the address to whoever looks it up first. Which row every count goes to is modelled.
- Strings are sequences of characters that stand for bytes; `%0*s` counts runes, but a nonce outside ASCII fails to parse
  either way. Zero padding of strings is that of Go 1.18 and 1.19.
- JSON: events start as typed parameters, with one case for every other type, and encoding never fails.
- The RabbitMQ record at the end of a handler, metrics, logging, balances and the stats console.
- The write inside `Reply` and `Send` as a session handler sees it: whether the socket takes a message is a parameter there; `WriteLocks` models the write itself.
- `Disconnect` exactly once: its flag check is not atomic; it is one step here, and closing the socket is not modelled.
- Contexts, timers and sleeps: only the order of events they allow. A cancelled context ends a connection's reads early.
- `CleanWallet` on anything but the one address it is called with, which is taken to be valid.
- The host part of a connection's address (`src/gostratum/stratum_listener.go:90-94`): addresses are given without their port. `NewBlockAvailable` without a pool API does nothing.
- The Aleo node client, `checkStales` and the subscribe reply's text.
- NonceRuns.RegistryIsExact: holds up to 2^32 connects, because ids are 32-bit and wrap; RegistryExactUnlessTaken gives the exact condition for runs of any length.
- JobRing.WindowExact: assumes fewer than 2^63 jobs on one connection, as do the other closed formulas; TableIsLookup has no such bound.
- Difficulty.TargetAccuracy: stated for difficulties up to 2^172, far above the configured 64-bit integers; beyond that truncation can lose bits. Overflow and subnormal results of `BigDiffToLittle` are not modelled.
- WriteLocks.Connection.WriteWithBackoff: what other callers do between attempts is given as parameters; every interleaving is covered by WriteLockRuns.
