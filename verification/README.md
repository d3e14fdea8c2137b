# Maskura gateway: verified models

Dafny models of the gateway's protocols, decoders and typed transforms, with proofs about every input, every
run or every reachable state. `dafny verify dfyconfig.toml` checks the whole project.

What is modelled, and in which modules:

- **Durable multipart uploads** (`Multipart*`): uploads, part attempts, two-level byte quotas and the leased
  completion protocol as a state machine. Accounting is proved step by step; safety is proved over whole runs
  by simulation of a reference automaton over each upload's history, so that the lease check and the final
  compare-and-set of different workers may interleave in any way. `commit_part` follows the transactional order
  of the SQL repository, including its unique index over current rows.
- **Record decoders** (`Record*`, `OutputValidator`): the incremental line and CSV decoders against a one-shot
  splitter, the splitter against a description of lines and CSV records by their bytes, and the output validator.
- **aws-chunked payloads** (`AwsChunked*`): the decoder against a byte machine, and the byte machine against a
  description of well-formed streams ("Transferring Payload in Multiple Chunks" of AWS Signature Version 4).
- **Plugin pipeline and compile cache** (`Pipeline*`, `Registry*`): record-at-a-time execution against
  stage-by-stage execution, fuel and output budgets, the validity of the output, and the pinned weighted cache.
- **Typed binary transform** (`BinaryIr`, `SchemaValidation`, `Envelope*`, `Paths`, `Claims`, `PlanHash`,
  `Decimal`, `Avro*`): schema rewriting in step with value rewriting, claims, the framed hash preimage, decimals
  and Avro round trips.
- **Encrypted read spool** (`ReadSpool`, `SpoolQuota`): re-framing, the disk bound, reading back, and the quota
  counter shared by concurrent spools over their lives.
- `Common`, `Streams`, `Sequences` and `BigEndian` hold shared vocabulary.

Objects that the gateway updates in place are classes whose methods are tied to functions of their old state;
the theorems are about those functions. UTF-8 validity, the CSV library, hashes, HMAC, ciphers, UUIDs, the
big-integer parser on text that is not plain digits, calendar text and WebAssembly filters are functions passed
in as parameters. Clocks, nonces, upload ids and component weights are parameters too. Machine integers are
unbounded except where a check or saturation of the gateway is written out.

Results where the code does less than one might expect, each with its exact condition:

- A run over chunks differs from the one-shot reading, which has no buffer limit, exactly on inputs that hold,
  after records that pass, a fragile record: one that is still open after maxRecord + 1 bytes and yet not refused
  as too large (a line of exactly maxRecord bytes before CRLF, a CSV record of that size before CR, or a longer CSV
  record refused for another reason): `RecordFragile.FragileExactly`, `OneShotDiffersOnBytes`, with inputs in
  `MaximalLineIsFragile` and `LongBadCsvIsFragile`. Even there it only ever fails as too large
  (`RecordTheorems.RunAgreesOrFails`).
- Two cuts of the same input differ exactly when it holds a fragile record and the first one is not the last record,
  free of offences and ended by a lone CR, which is too large in every cut: `RecordChunks.SomeCutsDifferExactly`,
  with inputs in `FullCrIsStuck` and `StrayQuotesDiffer`. `CutsDifferExactly` says it for chunks of a limited size.
- The output validator is sound for every cut. With frames of at least two bytes its verdict depends on where
  the records are cut exactly on valid outputs with such a record, unless the last record is a maximal CSV record
  before a final CR, which is always refused (`OutputValidator.VerdictDependsExactly`; outputs in `LineCutExample` and `CsvRefusedExample`).
- The envelope transform fails on a conforming value exactly when a target does not name a string (which planning a
  redaction does not check), a strict ancestor of a selected position is null, or sealing fails (`EnvelopeTargets.AllSucceedExactly`; a value in `NullAncestorFails`).
- An insertion keeps the cache weight the sum of the entry weights exactly when its addition does not saturate
  (`RegistryTheorems.CacheWeighs`, with a saturated cache in `SaturatedTotal`). Over runs it is the sum as long as no
  addition has saturated and never more than the sum (`EveryStateHolds`); evictions can make them equal again.
- Generated Avro record names are different exactly up to 2^32 records:
  `AvroSchemaTheorems.NamesDifferExactly`, with colliding schemas in `NamesCollide`. Within a validated field limit
  of 32 bits they never collide (`ValidatedNamesDiffer`).

## Model

| member | source | states |
|---|---|---|
| `MultipartAccounting.CreateKeeps` | crates/gateway/src/multipart_staging.rs:776-791 | A new upload starts without bytes, so every conservation invariant (upload rows = sums over attempts, quota rows = sums over uploads, limits, links, unique current row) is kept |
| `MultipartAccounting.BeginKeeps` | crates/gateway/src/multipart_staging.rs:912-1053 | Reserving an attempt's bytes at upload, tenant and global level keeps all sums and limits |
| `MultipartAccounting.BeginSucceedsExactly` | crates/gateway/src/multipart_staging.rs:912-1053 | In every balanced state `begin_part` succeeds if and only if part number, size, identity, lifecycle and expiry allow it, the configured limits, the attempt number and the generated key can be stored, and the bytes fit the upload's limit and the tenant and global sums taken over all uploads |
| `MultipartAccounting.CommitKeeps` | crates/gateway/src/multipart_staging.rs:1054-1207 | Publishing an attempt moves its bytes from reserved to staged at all three levels and retires the old part without losing a byte |
| `MultipartAccounting.CommitSucceedsExactly` | crates/gateway/src/multipart_staging.rs:1054-1207 | In every balanced state, for any description of a pending part, `commit_part` succeeds if and only if the part matches the description, the upload is open and authorized, the row is its PENDING attempt with that reservation, and a row of another part number does not meet a current one; the missing-reservation and overflow branches are unreachable |
| `MultipartAccounting.PublishClashesExactly` | crates/gateway/src/multipart_staging.rs:1100-1160 | Publishing a pending row violates the unique index over current rows if and only if the row is of another part number than the one committed and that number has a current row |
| `MultipartAccounting.PendingIsCovered` | crates/gateway/src/multipart_staging.rs:1120-1207 | Whatever a PENDING attempt holds is covered by its upload, tenant and global rows, and moving it to staged overflows none of them |
| `MultipartAccounting.ReleaseSucceeds` | crates/gateway/src/multipart_staging.rs:397-508 | In a balanced state releasing any artifact succeeds: the underflow errors are unreachable |
| `MultipartAccounting.ReleaseKeeps` | crates/gateway/src/multipart_staging.rs:397-508 | Confirming a deletion keeps all sums, whether the attempt was PENDING, CURRENT or RETIRED |
| `MultipartAccounting.DropKeeps` | crates/gateway/src/multipart_staging.rs:1527-1600 | An upload without attempts carries zero bytes, and dropping its row changes no quota sum |
| `MultipartAccounting.LifecycleChangeKeeps` | crates/gateway/src/multipart_staging.rs:1292-1526 | Lease, completion, abort and expiry changes leave the byte accounting as it was |
| `MultipartRuns.StepKeeps` | crates/gateway/src/multipart_staging.rs:776-1643 | Each of the protocol's steps, with lease check and compare-and-set as separate steps, keeps the accounting and the agreement of every upload row with a reference automaton replayed over that upload's history |
| `MultipartRuns.EveryRunHolds` | crates/gateway/src/multipart_staging.rs:776-1643 | Every run of any events in any interleaving ends in a state with all invariants |
| `MultipartSafety.HistoriesAreAccepted` | crates/gateway/src/multipart_staging.rs:1292-1526 | Whatever happened to an upload in any run, the reference automaton accepts it |
| `MultipartSafety.OneOutcome` | crates/gateway/src/multipart_staging.rs:1292-1526 | After the first of completed, aborted and expired no further outcome and no further lease occurs |
| `MultipartSafety.TokensIncrease` | crates/gateway/src/multipart_staging.rs:1292-1395 | Fencing tokens of one upload strictly increase from lease to lease, and all leases carry the same request fingerprint |
| `MultipartSafety.CompletedUnderLatestLease` | crates/gateway/src/multipart_staging.rs:1437-1480 | A completion carries the token of the latest lease ever granted, and its lease check came after that grant even when the compare-and-set came much later |
| `MultipartSafety.CompletedAtMostOnce` | crates/gateway/src/multipart_staging.rs:1437-1480 | In every run an upload is completed at most once, excludes every other outcome, and no lease is granted afterwards |
| `MultipartSafety.ReplayIsExact` | crates/gateway/src/multipart_staging.rs:1320-1333 | A replayed answer is exactly the result recorded by the completion, and only for the fingerprint every lease had |
| `MultipartSafety.RefusalIsOfAnother` | crates/gateway/src/multipart_staging.rs:1320-1343 | A conflict is reported only to a request with another fingerprint than the leases' |
| `MultipartSafety.CompletionAnswersExactly` | crates/gateway/src/multipart_staging.rs:1320-1333 | In every run, once an upload is completed, every authorized request is answered from the record: the identical one is replayed exactly the recorded result and changes nothing, any other one is refused as a conflict |
| `MultipartSafety.AnotherRequestConflicts` | crates/gateway/src/multipart_staging.rs:1320-1343 | In every run, once any lease was granted, an authorized request is a conflict if and only if its fingerprint is not the leases', while completing as well as afterwards |
| `MultipartSafety.SelectedAscends` | crates/gateway/src/multipart_staging.rs:667-696 | An accepted request names strictly ascending part numbers, and position by position the selection is the current part that matches it |
| `MultipartSafety.AscendingIsSelected` | crates/gateway/src/multipart_staging.rs:667-696 | Conversely every strictly ascending request whose parts are current and match is accepted |
| `MultipartSafety.SelectionIsStable` | crates/gateway/src/multipart_staging.rs:1292-1395 | With no deletion confirmed in between, a takeover with the same request gets the same list of selected parts |
| `MultipartSafety.DroppedIsSettled` | crates/gateway/src/multipart_staging.rs:1560-1600 | A row is dropped only with zero bytes and after an outcome, and nothing happens to the upload afterwards |
| `MultipartSafety.NoLimitExceeded` | crates/gateway/src/multipart_staging.rs:912-1207 | In every reachable state all sums are exact, no upload, tenant or global limit is exceeded and every release succeeds |
| `MultipartRepository.FindPart` | crates/gateway/src/multipart_staging.rs:667-696 | The search loop over a listing finds the listed part of a number, or nothing when there is none |
| `MultipartRepository.ValidateSelectedParts` | crates/gateway/src/multipart_staging.rs:667-696 | The loop with its running previous number selects exactly as the recursive specification does, errors included |
| `MultipartRepository.Repository.CreateUpload` | crates/gateway/src/multipart_staging.rs:776-791 | The object's tables become those of the create step, or stay as they were with its error; keeps the balance |
| `MultipartRepository.Repository.BeginAttempt` | crates/gateway/src/multipart_staging.rs:912-1053 | The new attempt number exceeds every earlier one of the part, and tables and answer are those of the begin step; keeps the balance |
| `MultipartRepository.Repository.CommitAttempt` | crates/gateway/src/multipart_staging.rs:1054-1207 | Tables and answer are those of the commit step; a refused commit changes nothing; the parts handed back are those of the rows retired, at most one, whose rows and bytes stay; keeps the balance |
| `MultipartRepository.Repository.ConfirmArtifactDeleted` | crates/gateway/src/multipart_staging.rs:1249-1259 | Tables are those of the release step; from a balanced state it succeeds, stays balanced and the attempt is gone |
| `MultipartRepository.Repository.CurrentListing` | crates/gateway/src/multipart_staging.rs:1269-1291 | The listing holds the current parts of an upload, all of them, in ascending part number |
| `MultipartRepository.Repository.AcquireLease` | crates/gateway/src/multipart_staging.rs:1292-1395 | Granted, busy, replayed or refused exactly as the acquire step says, with its tables; a granted lease carries all current parts in ascending order beside the selected ones; keeps the balance |
| `MultipartRepository.Repository.RenewLease` | crates/gateway/src/multipart_staging.rs:1396-1421 | The update matches upload, tenant, lifecycle and token and answers Fenced when no row does: only the current token moves the lease's end; keeps the balance |
| `MultipartRepository.Repository.CompleteUpload` | crates/gateway/src/multipart_staging.rs:1422-1481 | Succeeds exactly when the lease check does, and then the compare-and-set succeeds too; keeps the balance |
| `MultipartRepository.Repository.Abort` | crates/gateway/src/multipart_staging.rs:1482-1526 | Tables and answer are those of the abort step; hands back all current parts in ascending order, and nothing when already aborted; keeps the balance |
| `MultipartRepository.Repository.ReapExpired` | crates/gateway/src/multipart_staging.rs:1601-1643 | Expires at most `limit` uploads, only reapable ones, leaves none reapable when it stayed below the limit, hands back exactly their current parts, touches nothing else and keeps the balance |
| `MultipartRepository.Repository.RetireTerminalUploads` | crates/gateway/src/multipart_staging.rs:1560-1600 | Picks at most `limit` settled rows, with or without attempts, and drops exactly those without; none droppable is left when fewer than `limit` were picked; from balanced tables the dropped rows have zero bytes and every sum is kept |
| `RecordTheorems.NextExtends` | crates/gateway/src/record.rs:197-337 | A decision made on a buffer (record, skip or error) is not changed by bytes that arrive later |
| `RecordTheorems.DrainExtends` | crates/gateway/src/record.rs:123-132 | Draining, then adding bytes and draining again yields the same records and rest as draining everything at once |
| `RecordTheorems.PartitionIndependent` | crates/gateway/src/record.rs:97-150 | Unless the input is fragile, every chunking gives the outcome of the one-shot splitter: the same records and the same first error |
| `RecordTheorems.OneShotAgreesExactly` | crates/gateway/src/record.rs:197-226 | All chunkings agree with the one-shot reading, which has no buffer limit, if and only if the input is not fragile |
| `RecordTheorems.SinglesDiffer` | crates/gateway/src/record.rs:197-226 | On every fragile input the byte-by-byte chunking gives another outcome |
| `RecordTheorems.RunAgreesOrFails` | crates/gateway/src/record.rs:97-150 | However any input is cut, the records taken out are a prefix of the one-shot records, and either the outcome is the one-shot outcome or the run fails as too large |
| `RecordFragile.FragileExactly` | crates/gateway/src/record.rs:197-337 | Fragile inputs by their bytes: some record, all earlier ones passing, is not refused as too large although its first maxRecord + 1 bytes leave it open. Lines: a payload of exactly maxRecord bytes before CRLF. CSV: such a payload before CR, or a longer one refused for another reason, in both cases without an offence in those bytes |
| `RecordFragile.OneShotDiffersOnBytes` | crates/gateway/src/record.rs:197-337 | Some chunking differs from the one-shot reading if and only if the split input holds such a record |
| `RecordChunks.CutsDifferExactly` | crates/gateway/src/record.rs:97-384 | For every chunk size limit: two cuts of the same input into chunks within it give different outcomes (records and error) if and only if the input holds a fragile record and the first one is decided by its first maxRecord bytes and one more chunk: an offence among them, or the whole separator and after a lone CR a further byte |
| `RecordChunks.SomeCutsDifferExactly` | crates/gateway/src/record.rs:97-384 | For chunks of any size: two cuts of an input differ if and only if it holds a fragile record and the first one is not stuck, that is the last record, free of offences and ended by a lone CR |
| `RecordChunks.StuckFails` | crates/gateway/src/record.rs:339-351 | An input whose first fragile record is stuck fails as too large in every cut, with the same records |
| `RecordChunks.FullCrIsStuck` | crates/gateway/src/record.rs:339-351 | One byte and CR as CSV under a limit of one byte: accepted by the one-shot reading, too large in every cut |
| `RecordChunks.StrayQuotesDiffer` | crates/gateway/src/record.rs:243-337 | The letters a and b, two quotes and CR as CSV under that limit: a last fragile record before CR, bad CSV in one cut and too large in another |
| `RecordFragile.SinglesFail` | crates/gateway/src/record.rs:197-337 | On every such input the byte-by-byte run fails as too large |
| `RecordFragile.MaximalLineIsFragile` | crates/gateway/src/record.rs:197-226 | Every line of maximal size before CRLF is accepted at once and refused byte by byte |
| `RecordFragile.LongBadCsvIsFragile` | crates/gateway/src/record.rs:243-337 | The CSV text of the letters a and b and a quote, under a limit of one byte, is bad CSV at once and too large byte by byte |
| `RecordFragile.ShortRecordsAnyChunking` | crates/gateway/src/record.rs:97-150 | When the one-shot splitter accepts and every payload is strictly below the record limit, any chunking yields the same records |
| `RecordMeaning.WholeJudgesLines` | crates/gateway/src/record.rs:197-226 | For line formats the one-shot outcome is a plain split at line feeds (a CR before it belongs to the separator) judged line by line for size and encoding |
| `RecordMeaning.LinesRoundTrip` | crates/gateway/src/record.rs:386-455 | For line formats concatenating payloads and separators gives back the input |
| `RecordMeaning.RecordEndsOutsideQuotes` | crates/gateway/src/record.rs:243-337 | A CSV record ends at the first line break with an even number of quotes before it and is open when there is none; the scan fails if and only if a byte before that end offends (one comma too many, a quote inside an unquoted field, a byte after a closing quote), with the first offence |
| `RecordMeaning.WholeJudgesCsv` | crates/gateway/src/record.rs:243-384 | For CSV the one-shot outcome is a split at line breaks outside quotes (LF, CR or CRLF) judged record by record, empty lines passed over, with at least one record required |
| `RecordMeaning.CsvRoundTrip` | crates/gateway/src/record.rs:243-384 | The records of an accepted CSV input are its lines without the empty ones, and the lines put together are the input |
| `RecordCuts.PairsAgree` | crates/gateway/src/record.rs:97-150 | Unless the whole input leaves the buffer over the limit, a cut into pieces of at most two bytes gives the one-shot outcome |
| `RecordCuts.FullExactly` | crates/gateway/src/record.rs:243-384 | An accepted input leaves the buffer over the limit if and only if its last record is a CSV record of maximal size whose CR ends the input |
| `OutputValidator.ValidateOutputRecords` | crates/gateway/src/record.rs:475-547 | The validator accepts only outputs that are valid as one stream, for every output and every cut; without a fragile record in the concatenated bytes it accepts exactly the valid ones; limits of zero are refused |
| `OutputValidator.VerdictDependsExactly` | crates/gateway/src/record.rs:487-547 | Two record lists of the same bytes get different verdicts if and only if frames hold two bytes, the output is valid, it holds a fragile record, and its last record is not a maximal CSV record before a final CR |
| `OutputValidator.FullCrIsRefused` | crates/gateway/src/record.rs:487-547 | A valid output that ends in a maximal CSV record and CR is refused in every cut |
| `OutputValidator.LineCutExample` | crates/gateway/src/record.rs:487-547 | One byte and CRLF under a limit of one byte: refused with the CR in the payload, accepted with it in the separator |
| `OutputValidator.CsvRefusedExample` | crates/gateway/src/record.rs:487-547 | One byte and CR as CSV under that limit: valid and fragile, and refused however it is cut |
| `RecordDecoder.RecordDecoder.SearchLf` | crates/gateway/src/record.rs:197-205 | Searching on from the scan offset finds the first line feed of the whole buffer |
| `RecordDecoder.RecordDecoder.PrepareLine` | crates/gateway/src/record.rs:197-226 | The incremental line step is the one-shot decision on the whole buffer |
| `RecordDecoder.RecordDecoder.ScanCsv` | crates/gateway/src/record.rs:243-337 | Resuming the byte scan with saved state gives the state of a scan from the record's start, empty lines dropped |
| `RecordDecoder.RecordDecoder.PrepareCsv` | crates/gateway/src/record.rs:243-384 | The incremental CSV step is the one-shot decision on the whole buffer |
| `RecordDecoder.RecordDecoder.Push` | crates/gateway/src/record.rs:97-121 | Misuse and oversized frames are refused unchanged; otherwise the buffer grows by the chunk and the next decision is prepared; after a decoding error the buffer holds the refused bytes and no record is ready |
| `RecordDecoder.RecordDecoder.NextRecord` | crates/gateway/src/record.rs:123-132 | Returns the ready record or prepares one, and counts it |
| `RecordDecoder.FeedChunk` | crates/gateway/src/record.rs:97-132 | Pushing a chunk and draining to nothing yields exactly the drain of buffer and chunk |
| `RecordDecoder.DecodeAll` | crates/gateway/src/record.rs:97-150 | Pushing all chunks, draining after each, and finishing: the outcome of the run; always a prefix of the one-shot records with either the one-shot outcome or a failure as too large, and the one-shot outcome for inputs that are not fragile |
| `AwsChunked.RunJoins` | crates/gateway/src/integrity.rs:537-621 | Consuming two pieces is consuming their concatenation: same first error, or same state and concatenated output |
| `AwsChunked.PartitionIndependent` | crates/gateway/src/integrity.rs:537-621 | Any split of a byte stream into pushes gives the same first error, or the same final state and output |
| `AwsChunked.TakeExactly` | crates/gateway/src/integrity.rs:782-801 | Whatever was buffered before, a line is accepted exactly when the first CRLF follows at most `limit` bytes; otherwise the bytes stay buffered exactly while such a line is still possible |
| `AwsChunked.RunTakes` | crates/gateway/src/integrity.rs:537-552 | In a line state the machine takes one line and acts on it, and nothing else |
| `AwsChunked.RunBody` | crates/gateway/src/integrity.rs:553-568 | The rest of a chunk passes through as one slice and then its signature is checked |
| `AwsChunkedBounds.NeverExceeds` | crates/gateway/src/integrity.rs:623-678 | At every point of every run output plus what is due of the chunk is the decoded length, never above the declared one, and at most one line and a CR are buffered |
| `AwsChunkedTrailers.TrailerTaken` | crates/gateway/src/integrity.rs:701-763 | Every run through the trailer section has read exactly one declared checksum trailer, its signature in the signed mode and the empty line |
| `AwsChunkedTrailers.TrailerRuns` | crates/gateway/src/integrity.rs:701-763 | Every such trailer section is accepted and hands out that checksum trailer |
| `AwsChunkedTheorems.AcceptedDecodes` | crates/gateway/src/integrity.rs:623-773 | Every well-formed stream of the declared length (chunk signatures chained from the seed, zero chunk, trailers of the mode) decodes to the concatenation of its bodies |
| `AwsChunkedTheorems.DecodesAccepted` | crates/gateway/src/integrity.rs:623-773 | Whatever decodes is such a stream: output is the concatenation of the framed bodies, its length the declared one, each signature the keyed function of the previous one and the chunk |
| `AwsChunkedTheorems.DecodesExactly` | crates/gateway/src/integrity.rs:537-773 | Both directions as one equivalence |
| `AwsChunkedEncoder.ClientRoundTrip` | crates/gateway/src/integrity.rs:623-773 | In all three modes, for every list of non-empty bodies within the framing limits: encoding with chained chunk signatures, and in the trailer modes with an admissible checksum trailer (signed with the end of the chain in the signed one), and decoding gives back the data |
| `AwsChunkedEncoder.HexRoundTrip` | crates/gateway/src/integrity.rs:630-637 | A chunk size printed in hex is read back as that size |
| `AwsChunkedDecoder.Decoder.TakeLine` | crates/gateway/src/integrity.rs:782-801 | The buffering loop returns the line, the rest and the buffer of the line specification |
| `AwsChunkedDecoder.Decoder.StartChunk` | crates/gateway/src/integrity.rs:623-678 | Fields after a header are those of the specification, and errors come in its order |
| `AwsChunkedDecoder.Decoder.VerifyChunkSignature` | crates/gateway/src/integrity.rs:680-699 | The expected signature is taken, compared with the keyed function and becomes the next previous one |
| `AwsChunkedDecoder.Decoder.ParseTrailer` | crates/gateway/src/integrity.rs:701-735 | Fields and errors after a trailer line are those of the specification |
| `AwsChunkedDecoder.Decoder.MatchCrlf` | crates/gateway/src/integrity.rs:569-598 | Matching a line end in pieces is matching it byte by byte |
| `AwsChunkedDecoder.Decoder.Push` | crates/gateway/src/integrity.rs:537-621 | Bulk consumption of lines, slices and line ends equals the byte machine: first error, or state and concatenated output, in non-empty pieces |
| `AwsChunkedDecoder.DecodeAll` | crates/gateway/src/integrity.rs:537-773 | A new decoder fed any pieces and finished gives the verdict and output of the concatenation |
| `PipelineStages.OnlineIsStaged` | crates/gateway/src/plugin_registry.rs:1187-1282 | Routing record by record and cascading finish output makes every stage put out exactly the records it puts out when the filters run one after the other over the whole stream |
| `PipelineStages.FeedPeels` | crates/gateway/src/plugin_registry.rs:1254-1282 | Feeding a chain is feeding its first filter and then the rest with what that filter emits |
| `PipelineTheorems.RouteMeans` | crates/gateway/src/plugin_registry.rs:1254-1282 | A routed record updates filter states, stage byte counts and output count by exactly what each stage emits for it |
| `PipelineTheorems.FinishMeans` | crates/gateway/src/plugin_registry.rs:1203-1239 | Finishing from a plugin on returns what the cascade delivers and counts it at every stage |
| `PipelineTheorems.SessionMeans` | crates/gateway/src/plugin_registry.rs:1187-1282 | A session without errors has returned exactly the staged result, and its counters are the byte lengths of what each stage put out |
| `PipelineRuns.SessionIsStaged` | crates/gateway/src/plugin_registry.rs:1187-1367 | For every run without errors: the staged records, fuel within the cap, and every stage and the output within the lesser of the output limit and input times factor plus slack, finish output included |
| `PipelineRuns.OutcomeIsStaged` | crates/gateway/src/plugin_registry.rs:872-932 | The same from the start of a session on, for any filters, states, records and deadline |
| `PipelineRuns.RunMeters` | crates/gateway/src/plugin_registry.rs:1340-1367 | For any filters the fuel total is never below the sum of their own counters after any run; it is exactly that sum when no counter runs backwards |
| `PipelineRuns.SessionSpendsWithin` | crates/gateway/src/plugin_registry.rs:1340-1367 | What the filters of a session have spent stays within the fuel budget |
| `PipelineOutput.RunDelivers` | crates/gateway/src/plugin_registry.rs:1187-1282 | The records a session returns are, in order, exactly those its output validator has taken, and the validator has accepted their end |
| `PipelineOutput.PushedIsVerdict` | crates/gateway/src/record.rs:475-547 | The output validator pushed record by record and finished accepts exactly what it accepts as one cut |
| `PipelineOutput.SessionOutputIsValid` | crates/gateway/src/plugin_registry.rs:1187-1282 | Whatever the filters do, the concatenated output of a session that meets no error is valid as one stream of the output format |
| `PipelineRuns.StartIsStarted` | crates/gateway/src/plugin_registry.rs:887-918 | A started session accounts the fuel of starting each plugin, within the cap |
| `PipelineBounds.SaturationIsIrrelevant` | crates/gateway/src/plugin_registry.rs:1315-1338 | Saturating arithmetic in the expansion limit never changes the limit |
| `PipelineBounds.TransformWithin` | crates/gateway/src/plugin_registry.rs:1254-1303 | Every filter step keeps all budgets and the intermediate record limit |
| `PipelineBounds.ProcessWithin` | crates/gateway/src/plugin_registry.rs:1187-1198 | Every call keeps input, fuel and output budgets |
| `PipelineBounds.FinishWithin` | crates/gateway/src/plugin_registry.rs:1203-1239 | So does finishing |
| `PipelineBounds.ProcessMeters` | crates/gateway/src/plugin_registry.rs:1254-1268 | Every call keeps the fuel total at or above the sum of the plugins' counters, and equal to it when none runs backwards |
| `PipelineBounds.FinishMeters` | crates/gateway/src/plugin_registry.rs:1203-1239 | So does finishing, whose counters include the finished plugins |
| `PipelineSession.Session.Transform` | crates/gateway/src/plugin_registry.rs:1254-1281 | State, counters and error of one filter step are those of the specification |
| `PipelineSession.Session.Route` | crates/gateway/src/plugin_registry.rs:1254-1282 | The loop over plugins is the recursive routing |
| `PipelineSession.Session.ProcessRecord` | crates/gateway/src/plugin_registry.rs:1187-1198 | Deadline, input limit, then routing, in this order |
| `PipelineSession.Session.Finish` | crates/gateway/src/plugin_registry.rs:1203-1239 | The finish loop returns the cascaded records, or the first error |
| `PipelineSession.SumStartFuel` | crates/gateway/src/plugin_registry.rs:887-918 | The start loop adds every plugin's counter, or stops at the cap |
| `PipelineSession.RunSession` | crates/gateway/src/plugin_registry.rs:872-1239 | A whole session driven through the object has the specified result |
| `RegistryTheorems.EvictExactly` | crates/gateway/src/plugin_registry.rs:88-111 | Eviction drops exactly the shortest run of least recent unpinned entries that brings the weight within budget, or all of them when no run does; everything else stays in place and order |
| `RegistryTheorems.EvictIsLeast` | crates/gateway/src/plugin_registry.rs:88-111 | The same without recursion: no shorter run would have sufficed |
| `RegistryTheorems.CacheWeighs` | crates/gateway/src/plugin_registry.rs:399-424 | The weight stays the sum of the entry weights if and only if the saturating addition does not saturate |
| `RegistryTheorems.SaturatedTotal` | crates/gateway/src/plugin_registry.rs:399-424 | Two inserts after which the total has saturated and is not the sum |
| `RegistryTheorems.ImportKeeps` | crates/gateway/src/plugin_registry.rs:365-436 | Importing appends the new id, pins its component and keeps every invariant; the exact weight total too unless the addition saturates |
| `RegistryTheorems.InsertKeeps` | crates/gateway/src/plugin_registry.rs:541-576 | Caching an engine keeps every invariant and leaves the catalog alone; the exact weight total too unless the addition saturates |
| `RegistryTheorems.RemoveKeeps` | crates/gateway/src/plugin_registry.rs:472-481 | Removing a plugin keeps every invariant and the order of the others |
| `RegistryTheorems.ReorderPermutes` | crates/gateway/src/plugin_registry.rs:483-498 | Reordering is a permutation: chosen ids first, the others in their old relative order |
| `RegistryTheorems.LookupKeeps` | crates/gateway/src/plugin_registry.rs:511-531 | A lookup only refreshes recency |
| `RegistryTheorems.EveryStateHolds` | crates/gateway/src/plugin_registry.rs:77-111 | In every reachable state, saturated or not, the recency list holds each cached hash once, every plugin is backed by its cached component, the order is that of the catalog, the cache is within budget or fully pinned, and the weight total is at most the sum of weights; it is exactly that sum if no addition has saturated |
| `RegistryCache.PluginRegistry.TouchEntry` | crates/gateway/src/plugin_registry.rs:77-86 | The hash moves to the most recent end |
| `RegistryCache.PluginRegistry.FindVictim` | crates/gateway/src/plugin_registry.rs:92-103 | The search finds the least recent unpinned cached entry |
| `RegistryCache.PluginRegistry.EvictUnreferenced` | crates/gateway/src/plugin_registry.rs:88-111 | The eviction loop is the specified eviction |
| `RegistryCache.PluginRegistry.CachedEngine` | crates/gateway/src/plugin_registry.rs:511-531 | Entry and recency update of a lookup; keeps the invariant |
| `RegistryCache.PluginRegistry.ImportPlugin` | crates/gateway/src/plugin_registry.rs:399-436 | The import transaction, refused unchanged on a capability mismatch; keeps the invariant |
| `RegistryCache.PluginRegistry.InsertEngine` | crates/gateway/src/plugin_registry.rs:541-576 | The cached engine wins over the offered one; keeps the invariant |
| `RegistryCache.PluginRegistry.RemovePlugin` | crates/gateway/src/plugin_registry.rs:472-481 | Removes id and order entry and evicts; keeps the invariant |
| `RegistryCache.PluginRegistry.ReorderPlugins` | crates/gateway/src/plugin_registry.rs:483-498 | Both loops together are a permutation of the order |
| `BinaryIr.ConformingDepth` | crates/gateway/src/binary_ir.rs:578-596 | A value is never deeper than a schema it conforms to |
| `SchemaValidation.Validate` | crates/gateway/src/binary_ir.rs:179-282 | Validation with a running field counter accepts exactly the well-formed schemas within the depth limit whose total field count is within the limit, and returns that total |
| `SchemaValidation.ValidateFields` | crates/gateway/src/binary_ir.rs:214-246 | The loop over fields with the set of names seen |
| `Envelope.EnvelopeFits` | crates/gateway/src/binary_pump.rs:153-166 | An envelope value conforms to the envelope schema and is valid in itself |
| `Envelope.TransformFits` | crates/gateway/src/binary_pump.rs:168-261 | Value and schema rewritten along the same path still fit, with and without a key, and the value stays valid in itself |
| `EnvelopeTheorems.RestUnchanged` | crates/gateway/src/binary_pump.rs:207-261 | Outside the selected positions nothing changes: shapes, lengths, names, keys, order and values |
| `EnvelopeTheorems.SelectedCovered` | crates/gateway/src/binary_pump.rs:207-230 | At every selected position null stays null and a string becomes its envelope or the redaction; the same positions exist |
| `EnvelopeTheorems.SucceedsExactly` | crates/gateway/src/binary_pump.rs:207-261 | On a conforming value the transform of a target succeeds if and only if no strict ancestor of a selected position is null and every sealing succeeds |
| `EnvelopeTargets.ReplaceSucceedsExactly` | crates/gateway/src/binary_pump.rs:168-205 | A schema can be rewritten at a path exactly when the path names a string |
| `EnvelopeTargets.ReplaceKeepsOther` | crates/gateway/src/binary_pump.rs:168-205 | Rewriting one target leaves what a prefix-incomparable target names as it was |
| `EnvelopeTargets.ReplaceCommutes` | crates/gateway/src/binary_pump.rs:168-205 | Two prefix-incomparable targets can be rewritten in either order, failures included |
| `EnvelopeTargets.OrderIrrelevant` | crates/gateway/src/binary_pump.rs:121-130 | Rewriting prefix-free targets in any order gives the same schema |
| `EnvelopeTargets.Elsewhere` | crates/gateway/src/binary_pump.rs:207-261 | Transforming one target leaves every value another target selects as it was, and containers stay containers |
| `EnvelopeTargets.OutputIsValid` | crates/gateway/src/binary_pump.rs:121-151 | For prefix-free targets a returned value conforms to the declared output schema, is valid in itself, and passes validation again whenever that schema is within the depth limit |
| `EnvelopeTargets.AllSucceedExactly` | crates/gateway/src/binary_pump.rs:132-151 | The whole transform succeeds on a conforming value if and only if every target names a string, no strict ancestor of a selected position is null and every sealing succeeds, all read off the original value |
| `EnvelopeTargets.AllRestUnchanged` | crates/gateway/src/binary_pump.rs:132-151 | Every position that no target selects is unchanged |
| `EnvelopeTargets.AllSelectedCovered` | crates/gateway/src/binary_pump.rs:132-151 | At every position any of the prefix-free targets selects, null stays null and a string becomes its envelope or the redaction |
| `EnvelopeTargets.NullAncestorFails` | crates/gateway/src/binary_pump.rs:207-261 | A conforming value with a null record on the way to its target, on which the transform fails |
| `EnvelopeTargets.ApplyTarget` | crates/gateway/src/binary_pump.rs:207-261 | The recursion with its loops over elements and entries computes the specified value, or fails as it does |
| `EnvelopeTargets.ApplyTargets` | crates/gateway/src/binary_pump.rs:132-151 | The loop over targets computes the specified value |
| `EnvelopeTargets.DeclareOutput` | crates/gateway/src/binary_pump.rs:121-130 | The loop over targets computes the specified schema |
| `EnvelopePlan.RewrittenIsValidExactly` | crates/gateway/src/binary_pump.rs:382-395 | The rewritten schema passes the second validation if and only if the original is valid, has room for five more fields per target and every target is at least one level above the depth limit |
| `EnvelopePlan.ReplaceAllSucceedsExactly` | crates/gateway/src/binary_pump.rs:121-130 | All prefix-free targets can be rewritten if and only if each names a string of the input schema |
| `EnvelopePlan.Plan` | crates/gateway/src/binary_pump.rs:382-395 | Validate, rewrite, validate: a plan is made exactly under these conditions on the input, and then with the rewritten schema |
| `EnvelopePlan.PlannedOutputPasses` | crates/gateway/src/binary_pump.rs:397-418 | Whatever a planned transform returns passes the validation of its output |
| `Paths.NeighboursSuffice` | crates/gateway/src/binary_pump.rs:318-329 | In sorted paths no neighbour is a prefix of the next if and only if no path is a prefix of any other |
| `Paths.Between` | crates/gateway/src/binary_pump.rs:331-354 | Whatever sorts between a path and an extension of it extends the path too |
| `Paths.Canonicalize` | crates/gateway/src/binary_pump.rs:318-329 | Succeeds exactly when the targets are prefix-free, and returns them sorted |
| `Paths.CanonicalizeClaims` | crates/gateway/src/binary_reductor.rs:638-691 | Sorts by path and then type and tests neighbours: succeeds exactly when the paths of the claims are prefix-free, for claims in any order, and returns a sorted permutation of them |
| `Claims.EnsureClaimed` | crates/gateway/src/binary_reductor.rs:520-609 | Accepts if and only if both schemas are equal once every subtree at or below a claimed path is a hole |
| `Claims.AcceptedKeepsUnclaimed` | crates/gateway/src/binary_reductor.rs:520-609 | In an accepted change every unclaimed node exists in both schemas and differs at most inside claims |
| `PlanHash.PlanBytesInjective` | crates/gateway/src/binary_reductor.rs:712-767 | Two plans that feed the hash the same bytes have equal owner, schemas, claims, coverage and opaque plan |
| `PlanHash.PartCancels` | crates/gateway/src/binary_reductor.rs:760-767 | A length-framed part can be read off the front in only one way |
| `PlanHash.Hasher.HashClaims` | crates/gateway/src/binary_reductor.rs:731-748 | The loops feed the framed bytes of the claims |
| `PlanHash.HashPlan` | crates/gateway/src/binary_reductor.rs:712-729 | The incremental hasher is fed exactly the framed preimage |
| `Decimal.TextRoundTrip` | crates/gateway/src/avro.rs:485-528 | Printing any integer at any scale and parsing it back gives the same integer |
| `Decimal.Reprinted` | crates/gateway/src/avro.rs:485-528 | Every canonical decimal is reprinted identically at its own scale |
| `Decimal.PrecisionIsDigitCount` | crates/gateway/src/binary_ir.rs:1180-1227 | The parsed precision is the digit count of the magnitude, so it is at most k exactly when the magnitude is below 10^k |
| `Decimal.TextIsCanonical` | crates/gateway/src/avro.rs:513-528 | What is printed is accepted as canonical, with the digit count as precision and the given scale |
| `Decimal.PaddedDecodes` | crates/gateway/src/avro.rs:530-544 | Sign-extended padding to any length decodes to the same integer |
| `Decimal.DecimalToBytes` | crates/gateway/src/avro.rs:530-544 | Filling a buffer with the sign byte and copying the shortest form behind it gives bytes that decode to the integer |
| `BigEndian.ToSignedIsShortest` | crates/gateway/src/avro.rs:530-536 | The shortest two's complement form: fewer bytes do not hold the integer, as many or more do |
| `AvroSchemaTheorems.SchemaRoundTrip` | crates/gateway/src/avro.rs:136-320 | Writing a validated schema without custom nodes as Avro JSON and reading it back is the identity |
| `AvroSchemaTheorems.NamesDifferExactly` | crates/gateway/src/avro.rs:269-297 | All generated record names are different if and only if there are at most 2^32 records |
| `AvroSchemaTheorems.NamesCollide` | crates/gateway/src/avro.rs:269-297 | Schemas of more than 2^32 nested records, whose names do collide |
| `AvroSchemaTheorems.ValidatedNamesDiffer` | crates/gateway/src/avro.rs:269-297 | A schema validated under a 32-bit field limit is always written with different record names, because every record but the outermost sits under a field of its own |
| `AvroSchemaTheorems.ValidatedIsWritable` | crates/gateway/src/avro.rs:274-320 | Every validated schema without custom nodes can be written |
| `AvroRoundTrip.ValueRoundTrip` | crates/gateway/src/avro.rs:322-483 | For schemas without custom, date, time and timestamp nodes, converting a conforming value to Avro and back is the identity |
| `AvroRoundTrip.MapBack` | crates/gateway/src/avro.rs:374-387 | Map entries come back in the same order although they passed through an unordered map |
| `AvroValues.AscendingUnique` | crates/gateway/src/avro.rs:374-387 | There is only one ascending list of a set of keys |
| `ReadSpool.SplitIs` | crates/gateway/src/read_spool.rs:91-118 | The frames are all full except possibly the last, none is empty, and they concatenate to the data |
| `ReadSpool.SplitUnique` | crates/gateway/src/read_spool.rs:91-118 | Full frames followed by one shorter frame are the only such cut |
| `ReadSpool.FileSize` | crates/gateway/src/read_spool.rs:171-196 | The file size is the plaintext plus 32 bytes per frame |
| `ReadSpool.ReservationSuffices` | crates/gateway/src/read_spool.rs:267-279 | No data within the object limit needs more than was reserved |
| `ReadSpool.StreamRoundTrip` | crates/gateway/src/read_spool.rs:216-261 | Reading sealed frames back yields exactly those frames and no error |
| `ReadSpool.StreamFile` | crates/gateway/src/read_spool.rs:216-261 | The reading loop sends what the specification sends before the end or the first error |
| `ReadSpool.Spool.Write` | crates/gateway/src/read_spool.rs:91-118 | Refuses exactly what exceeds the object limit; otherwise what is accepted grows by the plaintext and every full frame is on disk |
| `ReadSpool.Spool.WithinReservation` | crates/gateway/src/read_spool.rs:91-196 | Between any two calls the file is within the reservation |
| `ReadSpool.Spool.Finish` | crates/gateway/src/read_spool.rs:120-154 | The finished file holds the frames of everything written, within the reservation, and reads back as the original bytes; the reservation passes to the streaming task |
| `ReadSpool.Spool.Abort` | crates/gateway/src/read_spool.rs:156-161 | An abort gives the reservation back and leaves none to the drop that follows |
| `ReadSpool.Spool.Drop` | crates/gateway/src/read_spool.rs:204-213 | A drop gives back what the spool still has: nothing after a hand-over or an abort |
| `SpoolQuota.EveryRunHolds` | crates/gateway/src/transaction/spool.rs:33-69 | However the loads, compare-and-exchanges, hand-overs, aborts, drops and task ends of all spools interleave, spurious failures included, the counter is the sum of the bytes held, within the quota, and every reservation is in one place: in its spool, with its task, or given back |
| `SpoolQuota.RefusedExactlyWhenFull` | crates/gateway/src/transaction/spool.rs:45-64 | Whatever value an attempt started from, it is refused if and only if the bytes do not fit at its moment |
| `SpoolQuota.ReleaseIsExact` | crates/gateway/src/transaction/spool.rs:66-68 | A step that releases lowers the counter by exactly the reservation, and no other step of a granted spool moves it: the wrapping subtraction never wraps |
| `SpoolQuota.ReleasedExactlyOnce` | crates/gateway/src/read_spool.rs:120-213 | Over the life of a spool, whichever of body, abort, cancellation and drop it goes through, the reservation is released at most once, and exactly once when the spool is dropped and its task has ended |
| `SpoolQuota.DiskWithinQuota` | crates/gateway/src/transaction/spool.rs:33-69 | Files within their reservations are within the quota together, in every run |
| `SpoolQuota.Quota.ReserveBytes` | crates/gateway/src/transaction/spool.rs:45-64 | Without interference one attempt decides: granted exactly when the bytes fit, refused unchanged |
| `ReadSpool.Begin` | crates/gateway/src/read_spool.rs:46-89 | A spool starts exactly when the limit is positive, its reservation fits a machine word, the quota grants it and the file is created; every failure leaves the quota as it was |

## Left out

- `replace_part` of both repositories: it bypasses the attempt table and the quota rows, so it is not part of the
  outbox protocol whose conservation is proved.
- `cleanup_candidates`, `list_parts` paging, audits and artifact stores: queries and I/O.
- Create over an existing upload id: ids are fresh; the in-memory repository overwrites before it reports a
  duplicate, the model refuses it.
- The SQL reaping race and row locks: reaping is one atomic step, as in the in-memory repository.
- The order in which a commit or a reaping hands back parts, and in which settled uploads are picked, which is the
  database's: they are sets.
- The JSON record format and end-of-segment handling: single-document parsing by a library.
- RecordDecoder.RecordDecoder.Push: after a decoding error the scan offset, the CSV state and the field count are not
  described; the owner drops the decoder.
- AwsChunkedDecoder.Decoder.Push: after an error the fields are not described; the owner drops the decoder.
- PipelineSession.Session.ProcessRecord: after an error the fields are not described; the owner drops the session.
- Header parsing into a body verifier, flexible checksums and the fixed-length payload path: lookups and one
  comparison of digests.
- The plugin count limit, memory reservations, streaming channels and watchdogs of pipeline sessions: one
  comparison each, or scheduling.
- RegistryTheorems.EveryStateHolds: covers runs in which the generated plugin ids are new.
- Component compilation, hashing and snapshots of the registry: outside the locked sections.
- The reductor's WebAssembly calls: planning and processing are modelled with a reductor that changes nothing.
- Sealing randomness is a function of the position sealed; parsing of target headers and of public keys is not
  modelled.
- Date, time and timestamp text and the floating-point choice of a decimal's byte length: the first are abstract,
  the second is any length.
- AvroRoundTrip.ValueRoundTrip: excludes date, time and timestamp nodes, whose text conversion drops digits below
  a microsecond.
- Canonical JSON of schemas and values, and Avro container files: library encodings.
- ReadSpool.Spool.Finish: file system errors and failing encryption are not modelled; the spools of uploads, which
  use the same kind of quota, are not either.
