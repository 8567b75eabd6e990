# The stores and codecs of `web/lib`, modelled and proved in Dafny

The web layer keeps its state in small stores under `.data/`: an audit log whose records are chained
by a keyed hash, allowlists of networks, approval requests, replayed responses, lockouts, limits,
emergency grants, legal holds. Most of what these promise is a property of whole runs ("never",
"at most", "until"), which no single function shows. This project models the stores and proves those
properties for every run. `dafny verify dfyconfig.toml` verifies everything.

How the model is laid out:

- Every store that updates itself is a class with the fields of the source. Each method is proved
  equal to a step function on the abstract state (`Apply`, `Lazy`, `Serve`, `Next`, `Swept`, ...). The
  run theorems are lemmas about sequences of those steps; most relate the bounded store to a log of
  everything that ever happened.
- Code between two awaits is one step. The worker pool and the coalescing flush are transition
  systems in which any lane or writer may move next; other exported functions are one step each.
- Clocks, fresh ids and tokens, the keyed hash, the token hash, SHA-256 and string collation are
  parameters. No hash is assumed injective: where collisions matter, a lemma assumes that the values
  hashed in the logs at hand do not collide.
- Times are integers: milliseconds, seconds, or numbers of days and months.

| files | subject |
|---|---|
| `AuditChain.dfy`, `AuditFiles.dfy`, `AuditRuns.dfy`, `AuditTamper.dfy`, `AuditView.dfy` | the hash-chained audit log: appends, rotation, age sweep, restart, verification, tampering |
| `IpParse.dfy`, `IpPrint.dfy`, `IpRoundTrip.dfy`, `IpNetwork.dfy`, `IpLanguage.dfy`, `IpGrammar.dfy`, `IpCase.dfy`, `IpForm.dfy`, `IpMatch.dfy`, `IpCaller.dfy`, `IpMapped.dfy`, `IpCanonical.dfy` | addresses and networks: parser and its language, digits and their case, printer and its form, matcher and the spellings of callers, mapped addresses, canonical lists |
| `WorkerPool.dfy`, `QuotaFlush.dfy` | concurrent lanes over one counter; one writer for many flushes |
| `DualControl.dfy`, `DualControlRuns.dfy`, `DualControlLedger.dfy`, `DualControlAnswers.dfy`, `DualControlExact.dfy` | maker and checker approvals: safety, and exactly when each call succeeds |
| `Idempotency.dfy`, `IdempotencyRuns.dfy`, `IdempotencyPast.dfy` | replay of stored responses |
| `Lockout.dfy`, `LockoutRuns.dfy` | brute-force lockout |
| `EpochCounters.dfy`, `RateLimit.dfy`, `MonthlyQuota.dfy` | rate limit, monthly quota |
| `BreakGlass.dfy`, `BreakGlassRuns.dfy` | emergency grants |
| `DataDir.dfy`, `LegalHoldRuns.dfy`, `HeldAudit.dfy`, `Retention.dfy` | holds against retention sweeps and erasure |
| `KeyUsage.dfy`, `KeyUsageRuns.dfy` | pruned request counters against the full request log |
| `ActivityExport.dfy`, `CsvReader.dfy`, `CsvRoundTrip.dfy` | CSV that reads back |
| `CanonicalJson.dfy`, `StableJson.dfy` | canonical JSON and its text |
| `Prelude.dfy`, `Sorting.dfy`, `Distinct.dfy`, `Text.dfy`, `Numerals.dfy`, `Division.dfy` | options and results, sorting and filtering, repetitions, strings, numerals, division |

Where the code does not do what its own words say, the model follows the code, and a lemma shows it:

- The header of `rateLimitStore.ts` speaks of a sliding window. The window is fixed: the limit holds
  for 60 consecutive seconds if and only if they start on a window edge (`RateLimit.LimitHoldsIff`).
  From every other second on twice the limit can pass (`RateLimit.TwiceTheLimit`), and never more
  (`RateLimit.RollingBound`).
- `idempotencyStore.ts` calls its 24 hours a sliding window. Replaying does not extend them
  (`IdempotencyPast.WindowDoesNotSlide`; `IdempotencyRuns.AnsweredIff` says exactly when a request is
  answered from the store).
- `ipMatch.ts` says that IPv4-mapped IPv6 addresses collapse to IPv4. Exactly those spelled "::ffff:"
  and a dotted quad do (`IpMapped.MappedCollapsesIff`); "0:0:0:0:0:ffff:1.2.3.4" and every hexadecimal
  spelling are judged as IPv6. An allowlist entry spelled "::ffff:" and a dotted quad does not let its
  own address in (`IpMatch.OwnEntryMatches`).
- Section 2.2 of RFC 4291 lets "::" stand for one group or more. The parser lets it stand for none
  (`IpLanguage.EmptyElision`).
- The audit chain does not notice everything. `AuditTamper.EditIff` and `AuditTamper.DropDetectedIff`
  say exactly which edits and drops go unnoticed: cutting off records at either end of the chain does,
  and so does turning the first chained record into an unchained one. An honest age sweep leaves an
  acceptable log exactly when the survivors are neighbours (`AuditRuns.SweepVerifiesIff`), which a
  clock that steps back can prevent (`AuditRuns.ClockStepBackBreaks`).
- A legal hold is meant to suspend deletion. A rotation of the audit log asks for no hold: it loses the
  lines of an older rolled file (`HeldAudit.RotationLoses`), also held ones (`HeldAudit.HeldLineLost`),
  and apart from that held lines stay (`HeldAudit.HeldLinesStay`).
- `retentionStore.ts` says that settings above 3650 days are treated as for ever. They are treated as
  3650 days (`Retention.KeptForeverIff`).
- A lockout is meant to last for its cooldown. A locked address records no further failure, so it is
  among the first to be evicted from a full table, and that ends its lock
  (`LockoutRuns.EvictedWhileLocked`; `LockoutRuns.RefusedExactlyDuringCooldown` says exactly when an
  address is refused).
- `privacyStore.ts` describes `removed` as the files actually unlinked. It is the whole plan, and that is
  the same if and only if every planned file existed (`Retention.RemovedIsGoneIff`); in an empty
  directory it is not (`Retention.AbsentFilesReported`).
- The formula guard of the CSV export is not reversible: `CsvRoundTrip.GuardCollides` says exactly which
  texts come out alike.

## Model

| member | source | states |
|---|---|---|
| AuditChain.VerifyEvents | web/lib/auditStore.ts:278-333 | The loop reports clean exactly for a legacy prefix followed by records whose hash is right and whose previous hash is that of the record before; otherwise it reports the first record for which this fails, and why. |
| AuditFiles.AuditLog.RecordAuditEvent | web/lib/auditStore.ts:199-260 | Appends one record that links to the last chained hash, and remembers its hash. |
| AuditFiles.AuditLog.FindLastChainedHash | web/lib/auditStore.ts:101-120 | The remembered hash, or that of the last chained record in the primary file, or the genesis value. |
| AuditFiles.AuditLog.MaybeRotate | web/lib/auditStore.ts:163-182 | When the file is large and has more than 50,000 lines, all but its newest 25,000 replace the rolled file; otherwise nothing changes. |
| AuditFiles.AuditLog.SweepAuditFiles | web/lib/retentionStore.ts:225-261 | Removes from both files the records with a time before the cutoff, keeps unreadable lines, and counts what went. |
| AuditFiles.AuditLog.VerifyChain | web/lib/auditStore.ts:278-368 | Verifies the readable lines of the rolled file followed by those of the primary one. |
| AuditRuns.NextLink | web/lib/auditStore.ts:101-120 | The next append links to the last surviving record, also after the cache was lost, and to 64 zeros when nothing survives and nothing is remembered; it carries the keyed hash of that link and its own content. |
| AuditRuns.RunAccepts | web/lib/auditStore.ts:163-333 | After every run of appends, rotations, age sweeps and restarts, from any earlier records followed by a chain, with fewer than 25,000 unreadable lines anywhere, the log verifies and its chain is the end of the old chain followed by what was appended. Only up to the last sweep must the clock not run backwards. |
| AuditRuns.LegacyStart | web/lib/auditStore.ts:163-333 | A new installation is such a start, and so is any log without chained records and with fewer than 25,000 unreadable lines. |
| AuditRuns.UnreadableTailBreaks | web/lib/auditStore.ts:101-182 | When a rotation keeps nothing but unreadable lines and the process restarts, the next append does not link to the chain, and the log no longer verifies. |
| AuditRuns.RotationLosesIff | web/lib/auditStore.ts:163-182 | A rotation drops lines if and only if it takes place while an older rolled file exists; what stays is the newest part. |
| AuditRuns.RotationSplits | web/lib/auditStore.ts:163-182 | From 11,000,000 bytes and 50,001 lines on, the newest 25,000 lines stay and all others are the new rolled file. |
| AuditRuns.SweepVerifiesIff | web/lib/retentionStore.ts:225-261 | For arbitrary times, earlier records and unreadable lines: a swept log verifies if and only if the surviving records of its chain are neighbours. |
| AuditRuns.ClockStepBackBreaks | web/lib/retentionStore.ts:225-261 | Three appends with a clock stepping back, then a sweep: the honest log no longer verifies. |
| AuditTamper.LastHashDetermines | web/lib/auditStore.ts:84-99 | Of two accepted logs with the same last hash, the chain of one is the end of the chain of the other. |
| AuditTamper.SameLastHashSameLog | web/lib/auditStore.ts:84-99 | Accepted logs with equally many chained records and the same last hash have the same chained records; records from before the chain are not covered by it. |
| AuditTamper.EditReported | web/lib/auditStore.ts:278-333 | Any edit of an interior chained record is reported: without its hash fields as `missing_hash`, with another link as `prev_hash_mismatch`, with the old link and a wrong hash as `hash_mismatch`, and correctly rehashed as `prev_hash_mismatch` at its successor. |
| AuditTamper.ReasonsMean | web/lib/auditStore.ts:295-333 | What each of the three reasons says of the record that is reported; they tell all breaks apart. |
| AuditTamper.EditFirstIff | web/lib/auditStore.ts:278-333 | Exactly which edits of the first chained record go unnoticed. |
| AuditTamper.EditIff | web/lib/auditStore.ts:278-333 | For an edit of any one record of an accepted log: it goes unnoticed if and only if it takes the hash away from a record up to the first chained one, or puts in a record with a correct hash that fits between its neighbours. |
| AuditTamper.ChainedEditIff | web/lib/auditStore.ts:278-333 | Without a collision, of the chained records only the last can be replaced unnoticed, by a record with a correct hash and link, and only the first can be stripped. |
| AuditTamper.DropDetectedIff | web/lib/auditStore.ts:278-333 | Dropping any stretch of records is noticed, at the gap and as `prev_hash_mismatch`, if and only if chained records remain on both sides. |
| AuditView.SweepsAgree | web/lib/retentionStore.ts:225-261 | The sweep of the chained log and the sweep of the two audit files in the data directory are one operation. |
| AuditView.RotationsAgree | web/lib/auditStore.ts:163-182 | So are the two rotations. |
| IpParse.ParseV4 | web/lib/ipMatch.ts:21-32 | The octet loop computes the value of a dotted quad and refuses exactly the texts that are none. |
| IpParse.ParseV6 | web/lib/ipMatch.ts:34-70 | The group loops compute the value of the eight groups, with at most one "::" and a dotted tail. |
| IpLanguage.AcceptedLanguage | web/lib/ipMatch.ts:34-70 | A text is read as `v` if and only if it writes `v` as eight hexadecimal groups, with one "::" for a stretch of zero groups or none, the last two groups perhaps as a dotted quad. |
| IpLanguage.EmptyElision | web/lib/ipMatch.ts:34-70 | "::" may stand for no group, anywhere, also in "1:2:3:4:5:6:7::8": the text is read as with a single colon. |
| IpGrammar.V4Language | web/lib/ipMatch.ts:21-32 | A text is read as IPv4 if and only if it is four numbers of one to three decimal digits, none above 255, with dots between them; its value is theirs in base 256. |
| IpGrammar.GroupIff | web/lib/ipMatch.ts:63-68 | A group is one to four of the characters 0-9, a-f and A-F. |
| IpGrammar.FoldEight | web/lib/ipMatch.ts:63-69 | Each of the eight groups is worth sixteen bits, the first one most significant. |
| IpGrammar.EntryLanguage | web/lib/ipMatch.ts:72-99 | An entry is accepted if and only if it is an address of the family its colons tell, alone or with a slash and one to three digits that are at most 32 or 128; it denotes the masked address. |
| IpCase.DigitsMean | web/lib/ipMatch.ts:66-67 | The sixteen digits of either case have the values 0 to 15, and nothing else is a digit. |
| IpCase.LeadingDigit | web/lib/ipMatch.ts:66-67 | Digits are read in positional notation. |
| IpCase.V6OfLower | web/lib/ipMatch.ts:34-70 | Every text is read as the same address, or refused, whatever the case of A to F. |
| IpCase.CidrOfLower | web/lib/ipMatch.ts:72-99 | So is every allowlist entry. |
| IpCase.MatchesOfLower | web/lib/ipMatch.ts:111-143 | And every caller is judged alike. |
| IpParse.ParseCidr | web/lib/ipMatch.ts:72-99 | Family, masked value and prefix length of an entry, or nothing. |
| IpNetwork.AddressInRange | web/lib/ipMatch.ts:21-70 | Every accepted address is below 2^32 or 2^128. |
| IpNetwork.ParsedIsValid | web/lib/ipMatch.ts:72-99 | Parsing yields only masked networks in range. |
| IpNetwork.MaskIsRounding | web/lib/ipMatch.ts:101-108 | Masking rounds down to a multiple of the block size. |
| IpNetwork.MasksCompose | web/lib/ipMatch.ts:101-108 | Two masks in a row are the shorter one. |
| IpNetwork.MaskTestIsMembership | web/lib/ipMatch.ts:124-143 | The mask test holds exactly for the addresses in the interval of the network. |
| IpNetwork.NestedOrDisjoint | web/lib/ipMatch.ts:72-108 | Two networks of one family are nested or share no address. |
| IpNetwork.NetworkDetermined | web/lib/ipMatch.ts:72-108 | A network is determined by its set of addresses. |
| IpMatch.IpMatchesAny | web/lib/ipMatch.ts:124-143 | The loop answers whether the normalized caller passes the mask test of some entry of its family. |
| IpMatch.MatchingIsMembership | web/lib/ipMatch.ts:124-143 | A caller is let in if and only if it lies in the interval of an entry of its family. |
| IpMatch.MappedAnswersAsV4 | web/lib/ipMatch.ts:111-143 | "::ffff:", in either case, in front of a dotted quad never changes the answer. |
| IpCaller.WrappingIsIgnored | web/lib/ipMatch.ts:111-122 | "[a]", "a%zone" and "[a%zone]" are judged as "a". |
| IpCaller.MappedDottedIff | web/lib/ipMatch.ts:119-120 | Collapsed to IPv4 are exactly the texts "::ffff:", in either case, with four numbers of one to three digits and dots behind it. |
| IpMapped.MappedValue | web/lib/ipMatch.ts:34-70 | "::ffff:" and a dotted quad is the IPv6 address ::ffff:0:0 plus the value of the quad. |
| IpMapped.MappedCollapsesIff | web/lib/ipMatch.ts:111-143 | A caller that is an IPv4-mapped address, in whatever spelling, is judged as the IPv4 address it maps if and only if it is spelled "::ffff:" and a dotted quad; otherwise as the IPv6 address. |
| IpMapped.LetInByV4Iff | web/lib/ipMatch.ts:111-143 | Some list of IPv4 networks lets such a caller in if and only if it is so spelled. |
| IpMatch.OwnEntryMatches | web/lib/ipMatch.ts:72-143 | An address lets itself in if and only if it is not written as "::ffff:" and a dotted quad. |
| IpPrint.FindZeroRun | web/lib/ipMatch.ts:199-222 | The scan finds the leftmost longest run of zero groups (sections 4.2.2 and 4.2.3 of RFC 5952 shorten it only from two groups on). |
| IpPrint.CidrToString | web/lib/ipMatch.ts:187-229 | The loops print the address in the compressed text form, followed by the prefix length. |
| IpForm.V6Form | web/lib/ipMatch.ts:196-228 | The printed IPv6 address is its eight groups in lower case without leading zeros, with "::" for the leftmost longest run of zero groups if two stand together, and without "::" otherwise (section 4 of RFC 5952). |
| IpForm.V4Form | web/lib/ipMatch.ts:188-195 | The printed IPv4 address is four decimal numbers without leading zeros. |
| IpForm.CidrForm | web/lib/ipMatch.ts:187-229 | The prefix length follows behind a slash, without leading zeros, also when it is full. |
| IpRoundTrip.GroupsOfCompressed | web/lib/ipMatch.ts:34-70 | Compressing any run of two or more zero groups can be undone: the parser gets the eight groups back. |
| IpRoundTrip.AddressRoundTrip | web/lib/ipMatch.ts:187-229 | Every address of either family is read back from its text, in its family. |
| IpRoundTrip.CidrRoundTrip | web/lib/ipMatch.ts:72-229 | Every masked network in range is read back from its text. |
| IpRoundTrip.PrintingIsInjective | web/lib/ipMatch.ts:187-229 | Different networks print differently. |
| IpCanonical.CanonicalizeCidrList | web/lib/ipMatch.ts:150-185 | Yields the distinct canonical texts in order of first occurrence, or stops at the first entry that is no string, unreadable, or the 65th distinct one. |
| IpCanonical.AcceptedIff | web/lib/ipMatch.ts:150-185 | A list is accepted if and only if all its entries are texts, each blank or readable, and denote at most 64 networks. |
| IpCanonical.StoredNetworks | web/lib/ipMatch.ts:150-185 | The stored list denotes exactly the networks of the submitted one, each once. |
| IpCanonical.CanonicalIdempotent | web/lib/ipMatch.ts:150-185 | A canonical list is its own canonical form. |
| IpCanonical.CanonicalNetworksDiffer | web/lib/ipMatch.ts:150-185 | No two stored entries denote the same addresses. |
| IpCanonical.CanonicalKeepsNetworks | web/lib/ipMatch.ts:150-185 | Every submitted network is in the stored list. |
| Distinct.FirstOccurrencesOrder | web/lib/ipMatch.ts:150-185 | Stored entries stand in the order in which they first occur. |
| WorkerPool.MapConcurrent | web/lib/batch.ts:85-103 | Whatever lane moves next, the pool ends and returns the sequential map in input order. |
| WorkerPool.EveryInterleaving | web/lib/batch.ts:85-103 | Under every interleaving there are never more than `concurrency` calls in flight (one, if that is below one), each index is handed out once and in order, no schedule is longer than items plus lanes, and exactly those of that length end the pool, with the right output. |
| WorkerPool.BoundIsReached | web/lib/batch.ts:85-103 | Some schedule has `concurrency` calls in flight, or all of them when there are fewer items. |
| WorkerPool.StepCounts | web/lib/batch.ts:85-103 | Every step of any lane brings the end one step nearer. |
| QuotaFlush.QuotaFile.Mutate | web/lib/monthlyQuotaStore.ts:64-86 | A mutation with its call of `flush` joins the running body or starts one. |
| QuotaFlush.QuotaFile.Advance | web/lib/monthlyQuotaStore.ts:64-86 | One awaited operation of the body ends, well or badly. |
| QuotaFlush.EveryInterleaving | web/lib/monthlyQuotaStore.ts:64-86 | At every moment of a run: at most one writer, the disk holds a past cache, a promise has resolved only if its mutation is on disk; at every later moment the disk holds the same or a newer cache. |
| QuotaFlush.IdleMeansSaved | web/lib/monthlyQuotaStore.ts:64-86 | With no flush running and no failure, disk and cache agree and nobody waits. |
| QuotaFlush.FlushEnds | web/lib/monthlyQuotaStore.ts:64-86 | From every reachable state at most eight successful operations resolve every caller. |
| DualControl.SweepComposes | web/lib/dualControlStore.ts:144-164 | Expiring early and again later is expiring later. |
| DualControl.ExpireSweep | web/lib/dualControlStore.ts:144-164 | The loop expires exactly the pending and approved rows whose time is up and returns these, in order. |
| DualControlLedger.ExpiredAreDue | web/lib/dualControlStore.ts:144-164 | The rows returned are the pending ones past their 30 minutes and the approved ones past the 10 of their token, in order, marked as expired. |
| DualControl.ApprovalStore.RequestApproval | web/lib/dualControlStore.ts:183-242 | New rows and reply of a request, with every refusal and the reuse of a pending row. |
| DualControl.ApprovalStore.ApproveRequest | web/lib/dualControlStore.ts:258-288 | New rows and reply of an approval; the approver is never the requester. |
| DualControl.ApprovalStore.CancelRequest | web/lib/dualControlStore.ts:295-309 | New rows and reply of a cancellation. |
| DualControl.ApprovalStore.ConsumeApproval | web/lib/dualControlStore.ts:335-382 | New rows and reply of a consume call, refusals in their order. |
| DualControlRuns.ApprovalSafety | web/lib/dualControlStore.ts:183-382 | Every successful consume follows the caller's own request for that action and target and a grant by someone else, within 30 minutes of the request and less than 10 minutes before; none is consumed twice. |
| DualControlRuns.ReachableRows | web/lib/dualControlStore.ts:335-382 | A row has a token hash if and only if it is approved, one row at most is pending per action, target and requester, and `not_approved` is never answered. |
| DualControlRuns.FinalIsForever | web/lib/dualControlStore.ts:258-382 | Consumed, cancelled and expired rows never change again. |
| DualControlRuns.LazyRefinesEager | web/lib/dualControlStore.ts:205-382 | Calls that throw their swept rows away reply as if every sweep were stored. |
| DualControlExact.ConsumeIff | web/lib/dualControlStore.ts:335-382 | After every run, without colliding token hashes: a consume succeeds if and only if its caller requested exactly this action and target, that request was granted with this token less than 10 minutes before both clocks of the call, and it was neither redeemed nor cancelled since; then that row is consumed. |
| DualControlExact.ConsumeRefusals | web/lib/dualControlStore.ts:335-376 | Which refusal it gets otherwise. |
| DualControlExact.ApproveIff | web/lib/dualControlStore.ts:258-288 | An approval mints its token if and only if someone else made the request less than 30 minutes before and nothing happened to it since; the row, the 10 minutes of the token and each refusal are stated. |
| DualControlExact.CancelIff | web/lib/dualControlStore.ts:295-309 | A cancel succeeds if and only if the request still waits or its grant is still good; the row and both refusals are stated. |
| DualControlExact.RequestIff | web/lib/dualControlStore.ts:181-242 | A request is accepted if and only if its action is two words with a dot, its target has 1 to 200 and its trimmed reason 1 to 500 characters, and the requester is named; it gets the row that still waits for the same approval, or else a new one of 30 minutes. |
| DualControlExact.ListTells | web/lib/dualControlStore.ts:384-394 | A listing has one row for every request ever made, with the status that its last event has by then. |
| DualControlExact.GetTells | web/lib/dualControlStore.ts:395-400 | Reading one request gives that row, and nothing if and only if it was never made. |
| Idempotency.IdempotencyStore.Lookup | web/lib/idempotencyStore.ts:117-133 | Miss, hit or conflict on the collected store. |
| Idempotency.IdempotencyStore.Store | web/lib/idempotencyStore.ts:135-143 | Collects, replaces the record of the pair and appends the new one. |
| Idempotency.IdempotencyStore.WithIdempotency | web/lib/idempotency.ts:46-169 | Outcome and new store of one request: header refused, replayed, in conflict, or handled and stored when 2xx. |
| IdempotencyRuns.GcIsSuffix | web/lib/idempotencyStore.ts:90-97 | On every reachable store a collection keeps a suffix: the unexpired among the newest 2000. |
| IdempotencyRuns.SurvivesIff | web/lib/idempotencyStore.ts:90-97 | A record survives if and only if it is unexpired and fewer than 2000 are newer. |
| IdempotencyRuns.AnsweredIff | web/lib/idempotency.ts:86-169 | A request is answered from the store if and only if its record is unexpired and among the newest 2000; replay and conflict depend on the fingerprint alone. |
| IdempotencyPast.AcceptedIff | web/lib/idempotencyStore.ts:99-106 | Requests with a body that is JSON or empty and a header of 1 to 255 letters, digits and "._:-/+=", once trimmed, take part, and no others. |
| IdempotencyPast.OthersPass | web/lib/idempotency.ts:46-86 | What the others get: refused for the body, passed to the handler, or refused for the header with its reason. |
| IdempotencyPast.SuccessIsRemembered | web/lib/idempotency.ts:134-166 | An answer of the handler is kept, with its key, header, fingerprint and 24 hours, if and only if its status is 200 to 299. |
| IdempotencyPast.AnswerIsTold | web/lib/idempotency.ts:86-169 | From an empty store, for every run: a request gets the last successful answer that its key got under its header, or a conflict, if that is less than 24 hours old and fewer than 2000 others came after it; otherwise its handler runs. |
| IdempotencyPast.ReplayWindow | web/lib/idempotency.ts:86-169 | Once a handler answered 200 to 299 under an accepted header: for 24 hours and until 2000 newer such answers, every same request gets that very answer, every different one a conflict, and no handler runs. |
| IdempotencyPast.FailureIsRetried | web/lib/idempotency.ts:134-166 | After an answer outside 200 to 299 the next request of its key and header reaches the handler. |
| IdempotencyPast.WindowDoesNotSlide | web/lib/idempotency.ts:86-169 | A run: a response is stored, requests follow within its 24 hours, replays of it among them; the first request of its pair after the 24 hours reaches the handler. |
| IdempotencyRuns.StoreBounds | web/lib/idempotencyStore.ts:90-143 | One record per pair and at most 2001 records, in every run. |
| IdempotencyRuns.FingerprintTextInjective | web/lib/idempotencyStore.ts:108-110 | The hashed text determines method, route and body. |
| IdempotencyPast.FingerprintIs | web/lib/idempotencyStore.ts:108-110 | What is hashed is the method in capitals, the route and the body, each on a line. |
| IdempotencyRuns.KeysAreIndependent | web/lib/idempotency.ts:86-169 | However long the run: while the unexpired records of both stores stay within the cap, a key gets the same answers from any two stores that hold the same records of its own, with or without the requests of others. |
| IdempotencyRuns.AloneOrNot | web/lib/idempotency.ts:86-169 | From an empty store, while the unexpired records stay within the cap, a key gets the answers it would get alone. |
| Lockout.ValidateConfig | web/lib/authLockoutStore.ts:91-98 | Settings end up in range; those in range are kept. |
| LockoutRuns.ConfigIs | web/lib/authLockoutStore.ts:49-98 | Absent settings become 10, 300 and 900, others the nearest value in range. |
| Lockout.LockoutStore.RecordAuthFailure | web/lib/authLockoutStore.ts:148-190 | One failure: prune, count, lock at the threshold, evict when full. |
| Lockout.LockoutStore.DecideLockout | web/lib/authLockoutStore.ts:134-146 | Free, or locked with the end of the lock and the seconds to wait. |
| LockoutRuns.StoreRefinesLog | web/lib/authLockoutStore.ts:125-221 | What is stored for an address is its failure history since the last lock or reset, cut to the window, always below the threshold; it is locked by exactly the failure that completes one. |
| LockoutRuns.StatsAre | web/lib/authLockoutStore.ts:168-221 | Total, first and last failure of an address are those of all its failures, whatever resets and locks come in between. |
| LockoutRuns.RefusedExactlyDuringCooldown | web/lib/authLockoutStore.ts:134-221 | In every run: an address is refused if and only if the cooldown after its last lock runs and neither a reset nor an eviction came since; the advised wait ends exactly when it is over. |
| LockoutRuns.OffIsFree | web/lib/authLockoutStore.ts:134-151 | Switched off, or without an address, nothing is recorded and nobody is refused. |
| LockoutRuns.HistorySinceEviction | web/lib/authLockoutStore.ts:148-221 | In every run the table holds for each address what its own calls since its last eviction make of it. |
| LockoutRuns.EvictedWhileLocked | web/lib/authLockoutStore.ts:148-190 | A locked address is evicted, and free at once, when 10,000 others fail after it. |
| LockoutRuns.ApplyValid | web/lib/authLockoutStore.ts:148-221 | No call ever makes the table hold more than 10,000 addresses. |
| LockoutRuns.AddressesAreIndependent | web/lib/authLockoutStore.ts:148-221 | An address that is never evicted has the state of its complete history; while at most 10,000 addresses have failed, none is. |
| LockoutRuns.RefusedByOwnHistory | web/lib/authLockoutStore.ts:134-221 | Such an address is refused exactly during the cooldowns of its complete history. |
| LockoutRuns.VictimIsOldest | web/lib/authLockoutStore.ts:148-190 | The evicted address is the first one whose last failure is oldest; all others are untouched. |
| RateLimit.RateLimitStore.Consume | web/lib/rateLimitStore.ts:122-161 | Decision and new counters of one call. |
| RateLimit.RateLimitStore.SetLimitForKey | web/lib/rateLimitStore.ts:92-107 | Refused and unchanged, or the limit of the key is set or taken away; answers the limit in force. |
| RateLimit.AdmittedIff | web/lib/rateLimitStore.ts:122-161 | Over every run: admitted if and only if fewer were admitted in the window before than the last limit set for the key. |
| RateLimit.DecisionIs | web/lib/rateLimitStore.ts:92-161 | Every field of every answer, from the calls alone: the limit is the last accepted one of 1 to 100,000, the default if none or taken away; used and remaining count the calls of the key that found fewer than its limit before them in the 60 seconds of the window. |
| RateLimit.ConfigureIs | web/lib/rateLimitStore.ts:92-107 | Exactly the limits from 1 to 100,000 are accepted; a refused one changes nothing, an accepted one that key only. |
| RateLimit.AlignedBound | web/lib/rateLimitStore.ts:92-161 | At most the limit per aligned window, or the largest one when it is changed. |
| RateLimit.RollingBound | web/lib/rateLimitStore.ts:92-161 | At most twice that in any 60 seconds. |
| RateLimit.LimitHoldsIff | web/lib/rateLimitStore.ts:122-161 | The limit itself holds for 60 consecutive seconds, in every run, if and only if they start on a window edge. |
| RateLimit.TwiceTheLimit | web/lib/rateLimitStore.ts:122-161 | From every other second on, a run reaches exactly twice the limit within 60 seconds. |
| RateLimit.RetryLandsOnEdge | web/lib/rateLimitStore.ts:122-161 | The advised wait is 1 to 60 seconds and ends on the window edge, where the call is admitted. |
| MonthlyQuota.QuotaStore.Reserve | web/lib/monthlyQuotaStore.ts:148-197 | Decision and new counters of one call. |
| MonthlyQuota.QuotaStore.SetQuotaForKey | web/lib/monthlyQuotaStore.ts:118-133 | Refused and unchanged, or the quota of the key is set or taken away; answers the quota in force. |
| MonthlyQuota.UsageIsAdmitted | web/lib/monthlyQuotaStore.ts:135-197 | Usage is the number of calls admitted this month; the next is admitted if and only if the last quota set for the key is 0 or not used up. |
| MonthlyQuota.DecisionIs | web/lib/monthlyQuotaStore.ts:118-197 | Every field of every answer, and the usage shown, from the calls alone. |
| MonthlyQuota.ConfigureIs | web/lib/monthlyQuotaStore.ts:118-133 | Exactly the quotas from 0 to 100,000,000 are accepted; a refused one changes nothing, an accepted one that key only. |
| MonthlyQuota.MonthlyBound | web/lib/monthlyQuotaStore.ts:118-197 | Never more admissions in a month than the largest quota the key had. |
| BreakGlass.BreakGlassStore.Issue | web/lib/breakGlassStore.ts:128-189 | Refusal, or the new grant, what it supersedes, and the history. |
| BreakGlass.BreakGlassStore.Revoke | web/lib/breakGlassStore.ts:195-213 | Revokes a valid grant and files it. |
| BreakGlassRuns.ActiveIff | web/lib/breakGlassStore.ts:128-251 | A grant is active if and only if it is the last one issued, no revocation came since and its time, an hour at most, is not up; its uses are those since. |
| BreakGlassRuns.HistoryIsNewestFirst | web/lib/breakGlassStore.ts:128-213 | Active grant and history are the newest grants ever issued, as issued but for uses and revocation, newest first, fifty past ones at most, none twice. |
| BreakGlassRuns.IssueIs | web/lib/breakGlassStore.ts:128-189 | A grant is refused if and only if its trimmed reason has not 10 to 500 characters or its seconds, 1800 by default, are not 60 to 3600; otherwise it ends that many seconds from now. |
| BreakGlassRuns.StoreIsLedger | web/lib/breakGlassStore.ts:128-251 | In every run, on any clock, the store is the newest part of the ledger of all grants, with every use and every revocation by hand or by a newer grant marked in it. |
| BreakGlassRuns.UseKeepsExpiry | web/lib/breakGlassStore.ts:237-251 | Use changes neither expiry nor revocation nor history. |
| DataDir.DedupeScopes | web/lib/legalHoldStore.ts:146-152 | The known scopes among those asked for, each once, in order. |
| DataDir.DataDirectory.OpenHold | web/lib/legalHoldStore.ts:121-144 | Refusal, or one more hold behind the others. |
| LegalHoldRuns.OpenedIs | web/lib/legalHoldStore.ts:121-152 | Refused without a matter of 1 to 200 characters or without a known scope; otherwise the new hold says what was asked for, its reason cut at 1000 characters. |
| DataDir.DataDirectory.ReleaseHold | web/lib/legalHoldStore.ts:160-175 | Refusal, or the first hold of that id, released. |
| LegalHoldRuns.ReleasedIs | web/lib/legalHoldStore.ts:160-175 | Refused for a reason below four characters, an unknown id, or a first hold of that id that is released; otherwise it is marked with time, actor and reason and nothing else changes. |
| DataDir.ClampDays | web/lib/retentionStore.ts:46-55 | Whole days between 0 and 3650; below the cap, the input rounded towards zero. |
| Retention.PolicyIsSet | web/lib/retentionStore.ts:95-115 | Given fields are replaced, cut to whole days from 0 to 3650; the others stay. |
| Retention.KeptForeverIff | web/lib/retentionStore.ts:46-55 | Runs are kept for ever if and only if the setting is not a number or is below 1; a setting above the cap means 3650 days. |
| DataDir.DataDirectory.SweepAuditFiles | web/lib/retentionStore.ts:225-261 | Both audit files filtered by the cutoff, and the number of lines removed. |
| DataDir.DataDirectory.RunRetentionSweep | web/lib/retentionStore.ts:138-189 | The three guarded sweeps, their counts, the holds that made one skip, and the persisted policy. |
| Retention.BlockingIs | web/lib/legalHoldStore.ts:179-188 | The holds that stop an action are exactly the unreleased ones that name one of its scopes. |
| Retention.SweepBlockedIff | web/lib/retentionStore.ts:149-158 | Runs are skipped for an unreleased hold on runs or user data, audit files for one on the audit, deliveries for one on deliveries, and for no other. |
| Retention.ReportIsExact | web/lib/retentionStore.ts:160-189 | The counts reported and stored are the numbers of records that went; the settings and the holds stay. |
| DataDir.DescribeErase | web/lib/privacyStore.ts:140-159 | The loop splits the registered files into those that go and those that stay, in order. |
| DataDir.DataDirectory.EraseAll | web/lib/privacyStore.ts:128-196 | Refused with the blocking holds and nothing changed, or every planned file is gone, the whole plan is reported as removed, and the bytes are those of the planned files that existed. |
| LegalHoldRuns.HoldsAreKept | web/lib/legalHoldStore.ts:121-175 | In every run no hold is deleted or altered except by its one release. |
| LegalHoldRuns.ReleasedOnce | web/lib/legalHoldStore.ts:160-175 | A released hold is never released again, whatever happens in between. |
| LegalHoldRuns.HoldSafety | web/lib/retentionStore.ts:138-189 | In every run of opening, releasing, policy changes, sweeps, erasures, appended records and audit rotations: no record of a file protected by an unreleased hold is removed; for the two audit files, if nothing is rotated. |
| HeldAudit.RotationLoses | web/lib/auditStore.ts:163-182 | A rotation loses exactly the lines of an older rolled file, and nothing when there are none. |
| HeldAudit.HeldLinesStay | web/lib/auditStore.ts:163-182 | Under an open audit hold no line of the two audit files is removed, in every run in which no rotation replaces an older rolled file. |
| HeldAudit.HeldLineLost | web/lib/auditStore.ts:163-182 | Whatever hold is opened, a run from an empty directory comes to a rotation that removes an audit line under it. |
| LegalHoldRuns.ProtectionIsExact | web/lib/privacyStore.ts:163-181 | For every hold that can be opened and every other file, a run from an empty directory loses a record of that file while the hold is open. |
| Retention.SweepExact | web/lib/retentionStore.ts:138-292 | For every file: a sweep removes exactly the records older than the days set for its group, unless an unreleased hold names a scope of the group, and no file appears or disappears. |
| Retention.SweepsCompose | web/lib/retentionStore.ts:138-292 | An earlier sweep never changes what a later one leaves. |
| Retention.SweepIdempotent | web/lib/retentionStore.ts:138-189 | Sweeping again at once removes nothing and counts nothing. |
| Retention.PlanPartitions | web/lib/privacyStore.ts:140-159 | Every registered file is in exactly one of the two lists: the customer's own go, the two audit files with the audit flag, the others with the compliance flag. |
| Retention.PlanCounts | web/lib/privacyStore.ts:140-159 | No file is listed twice, and together the lists have as many as are registered. |
| Retention.EraseExact | web/lib/privacyStore.ts:172-196 | A registered file is gone if and only if the plan names it and no unreleased hold is on runs, user data or, with their flags, the audit or deliveries; nothing is erased in part. |
| Retention.RemovedIsGoneIff | web/lib/privacyStore.ts:172-196 | The files reported as removed are those that disappear if and only if every planned file existed. |
| Retention.AbsentFilesReported | web/lib/privacyStore.ts:128-196 | In an empty directory `runs.json` is reported as removed. |
| Retention.BytesAreConserved | web/lib/privacyStore.ts:128-196 | The registered files take as many bytes before as after, plus the bytes reported as freed. |
| Retention.FreedIs | web/lib/privacyStore.ts:172-196 | The bytes reported as freed are the sizes of the planned files that existed. |
| Retention.WipedPolicyKeepsEverything | web/lib/retentionStore.ts:61-89 | Wiping the compliance files also wipes the policy: sweeps then remove nothing. |
| KeyUsage.KeyUsageStore.RecordRequest | web/lib/keyUsageStore.ts:95-132 | One more request in its day's bucket, route and status class; buckets pruned. |
| KeyUsage.SummariseUsage | web/lib/keyUsageStore.ts:174-251 | The loops compute the points, window totals and routes of the requested days. |
| KeyUsageRuns.RunNewest | web/lib/keyUsageStore.ts:84-132 | After every run the store holds buckets of the unpruned index, and lacks one only if it keeps 35 newer ones. |
| KeyUsageRuns.DayIsKeptIff | web/lib/keyUsageStore.ts:84-132 | For any order of dates: the counters of a day with requests are complete if and only if fewer than 35 later days had requests; otherwise they are gone altogether. |
| KeyUsageRuns.PruningIsInvisible | web/lib/keyUsageStore.ts:84-251 | With no request dated after today, every summary equals that of a store that never prunes, ties in the route order included. |
| KeyUsageRuns.SummaryCounts | web/lib/keyUsageStore.ts:174-251 | Day points, route totals and window totals are the numbers of matching requests ever made, below 400, from 400 to 499 and from 500 on; days, routes and the three outcomes each add up to the window, which is the days asked for, cut to 1 to 35. |
| KeyUsageRuns.StoredCounters | web/lib/keyUsageStore.ts:51-132 | The four stored counters of a day and route are the numbers of its requests below 300, 400, 500 and from 500 on, for as long as the day is kept. |
| KeyUsageRuns.KeysAreIndependent | web/lib/keyUsageStore.ts:95-132 | A key's usage depends on its own requests only. |
| ActivityExport.ActivityEventsToCSV | web/lib/activityExport.ts:38-55 | The loop prints header and lines of the sorted events. |
| CsvRoundTrip.ReadsBack | web/lib/activityExport.ts:21-55 | A reader written after section 2 of RFC 4180 gets back the header and the seven fields of every event, guarded by a quote in front of "=", "+", "-", "@", tab or carriage return, for arbitrary field contents. |
| CsvRoundTrip.ExportIsSortedPermutation | web/lib/activityExport.ts:30-36 | The records are the events, each once, by descending time and then ascending id, under any collation. |
| CsvRoundTrip.NoFormula | web/lib/activityExport.ts:21-28 | No field that is read back starts a formula; it is the original, or the original behind one quote where that would start one. |
| CsvRoundTrip.CellIs | web/lib/activityExport.ts:21-28 | A cell is quoted if and only if it has a quote, a comma or a line break. |
| CsvRoundTrip.DoubledIs | web/lib/activityExport.ts:21-28 | Inside the quotes every quote is doubled and nothing else changes. |
| CsvRoundTrip.GuardCollides | web/lib/activityExport.ts:21-28 | Two texts are guarded to the same field if and only if they are equal or one is the other with a quote put before a formula. |
| CanonicalJson.SortKeysIdempotent | web/lib/evidencePack.ts:61-71 | Sorting the keys twice is sorting them once. |
| CanonicalJson.CanonicalIsOrdered | web/lib/evidencePack.ts:61-71 | In the canonical form the keys of every object ascend by the first character that differs, at every depth. |
| CanonicalJson.KeepsBindings | web/lib/evidencePack.ts:61-71 | Every key keeps its binding at every depth, and none is added. |
| CanonicalJson.CanonicalIff | web/lib/evidencePack.ts:61-71 | Two values have the same canonical form if and only if they differ only by key order, at any depth. |
| StableJson.PrintingIsInjective | web/lib/evidencePack.ts:57-59 | Indented JSON text, with its escapes, is printed alike for equal values only. |
| StableJson.EscapesAre | web/lib/evidencePack.ts:57-59 | Quotes, backslashes and control characters are escaped as section 7 of RFC 8259 has it, and nothing else is. |
| StableJson.ControlsAre | web/lib/evidencePack.ts:57-59 | A control character without a short escape is written with the four digits of its code. |
| StableJson.LayoutIs | web/lib/evidencePack.ts:57-59 | Elements and members stand on lines of their own, two spaces further in; empty lists and objects on one. |
| StableJson.StableTextIff | web/lib/evidencePack.ts:57-71 | Two values get the same text if and only if they differ only by key order, at any depth. |

## Left out

Weaker than the code or its promise, by member:

- AuditFiles.AuditLog.RecordAuditEvent: assumes that the append to the file succeeds; the code remembers the new hash before it writes.
- AuditFiles.AuditLog.MaybeRotate: is atomic with respect to appends.
- AuditRuns.RunAccepts: takes the hashed content of a record as one value, so its JSON text and key order are not modelled; 25,000 unreadable lines or more are not covered, since `UnreadableTailBreaks` shows that the promise then fails.
- AuditTamper.EditReported: names the place of edits of one interior record; combined edits are covered only through `LastHashDetermines` and `SameLastHashSameLog`.
- AuditTamper.SameLastHashSameLog: says nothing about records from before the chain, which carry no hash.
- IpCanonical.CanonicalizeCidrList: takes a list; the error for an argument that is not an array is left out.
- WorkerPool.MapConcurrent: workers resolve; a rejecting worker is left out.
- QuotaFlush.EveryInterleaving: starts with a loaded cache; two first reads that overlap are left out.
- DualControl.ApprovalStore.RequestApproval: each call is one step, so overlapping read-modify-write of the file and the 250 ms read cache are left out.
- DualControlRuns.ApprovalSafety: request ids are fresh.
- Idempotency.IdempotencyStore.WithIdempotency: one request at a time; response headers other than the status and body, and the audit record, are left out.
- Lockout.LockoutStore.RecordAuthFailure: addresses that collide with property names of JavaScript objects are left out.
- Lockout.ValidateConfig: settings that are not whole numbers are left out.
- DualControlExact.ConsumeIff: assumes that no two grants drew tokens with the same hash.
- RateLimit.RateLimitStore.Consume: the in-memory counters only; what reaches the file is left out.
- RateLimit.ConfigureIs: limits that are not whole numbers are left out, as are quotas.
- DataDir.DataDirectory.EraseAll: the hold check and the deletions are one step.
- LegalHoldRuns.HoldSafety: other stores only append records; what they overwrite or cap themselves is not part of these runs.
- KeyUsage.KeyUsageStore.RecordRequest: route names that look like array indices, which JavaScript reorders, are left out.
- CanonicalJson.CanonicalIff: object keys that look like array indices, which JavaScript reorders, are left out; keys are compared as sequences of characters.
- StableJson.StableTextIff: numbers are taken as the tokens that JSON writes; values that JSON drops, such as `undefined`, and lone surrogates are left out.
- CsvRoundTrip.ReadsBack: missing fields count as empty texts, as the code treats them.

Not modelled at all:

- Reading, writing and recovering the JSON files, except for the disk of the quota flush.
- `listRequests` filters and order, `listHolds`, `listLockouts`, `queryAudit`, audit streaming: they select and order rows that the modelled operations write.
- `maybeAutoSweep`: a throttle around the sweep.
- `collectExport`, `exportFilename`, `activityFilename`, `activityEventsToJSON`, `parseTickers`, `rowsToCSV`, `describeRemaining`: formatting.
- Random ids, the internals of SHA-256, HMAC and `hashToken`: parameters.
- Single-branch policies (`runAcl.ts`, `residencyStore.ts`, `corsPolicy.ts`, `dryRunCore.ts`, `freezeStore.ts`) and everything of the user interface, routing and charts.
- `regimeClassify.ts`: floating-point statistics.
