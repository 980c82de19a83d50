# Verified model of a point-in-time fact store

A fact store journals what was known and when, derives further fields from the past, compiles the
journal into monthly snapshots and answers questions about any instant. This project models its
five connected parts in Dafny and proves that they agree with one another.

1. **Derivation.** Expressions are tokenized and parsed (`Parser`), evaluated over a bounded past
   (`Derive`, `Decimals`), ordered by their dependencies (`Schemas`), computed in one pass
   (`Pipeline`) over a timeline kept in place (`Histories`), and journalled by an ingest pass
   (`Ingestion`) that assigns revisions (`Dedupe`) to the identities a schema names (`Identity`).
   `Meaning` says what an expression denotes, in real numbers (`Reals`). `Agreement` composes these
   over whole runs: the compiler's re-derivation accepts what the live path wrote. `Repoll` says
   exactly when asking again writes nothing, `Restart` exactly when a kept state equals a rebuild; `Collecting` is the process
   that keeps one, `Backdated` the runs on which the two differ.
2. **Journal protocol.** `Journal` holds the day files and their single writer, `Protocol` the step
   system of appends, crashes and repairs, `Tail` the reader that follows by byte offset, and
   `ExactlyOnce` the two of them interleaved.
3. **Snapshot format.** `Bytes` and `Snapshot` give the encoding and decoding functions, `RoundTrip`
   proves them inverse, `Codec` proves the byte-moving encoder and decoder against them.
4. **Compiler.** `Calendar` and `Ranges` say what a month and a historical read are; `Compiler` is
   the plain compile of one month and the shared pass over many, `Incremental` the compile that
   keeps unchanged windows, `Compilation` the methods that run on a store root, and `Registry` the
   life of a root that holds many datasets.
5. **Reading.** `Reader` stitches ranges from snapshots and journal, `ReadBack` joins it to the
   compiler and the writer, `Visibility` answers for an instant. `Views` holds the queries that stop
   early, and `Lines`, `Gdelt`, `Hours` and `Archive` one collector's hour, what it says and its
   replayable archive.

`Wrappers`, `Ordering` and `Records` are shared vocabulary: optional results, stable sorting and
selection, the record envelope and its sort key.

Verify with `dafny verify dfyconfig.toml`.

## How the model is built

- Time is an integer count of milliseconds; days and months are floor-based functions of it. A file
  is its text, a store a map from path to text. A crash leaves a proper prefix of one line.
- A record's JSON line is any invertible, newline-free text (`Journal.Faithful`); SHA-256 is any
  function to 32 bytes; payload hashes are compared as the payloads they stand for.
- Arithmetic inside an expression is any deterministic partial operation (`Derive.Context`), exact where
  the result fits when numbers are at stake (`Meaning.Exact`);
  `decimal_str`, the strict and the lenient number reader, and the scale-8 integers are modelled
  digit by digit. Number text is rounded to 28 digits half-even, as the original's context does.
- Objects the original mutates are classes: `ScopeHistory`, `RevisionIndex`, `HistoryTable`,
  `OrderSearch`, `TokenParser`, `JournalWriter`, `JournalTail`, `Cursor`, `Collector`, `HubRoot`,
  `StoreReader`, `View`. Each method is proved against a function of the old state, and the
  theorems are about those functions.
- A dataset's life is a run: `Agreement.RunAll` for ingest, `Protocol.IsRun` for the writer,
  `ExactlyOnce.IsSystemRun` for writer and tail, `Incremental.IsRun` for appends and compiles of one
  dataset, `Registry.IsLife` for a root of many.

## What the proofs found

- **Padded numbers break live/compile agreement.** A live expression reads raw text strictly while
  validation strips spaces and underscores, so `" 0.3"` is null to the expression and `0.3` in the
  journal (`Agreement.PaddedTextIsRefused`). The exact condition is proved for a field
  (`Agreement.FieldChecksIffPlain`) and for whole runs (`Agreement.LiveAndCompileAgreeIff`).
- **One timestamp is unstorable.** A timestamp field equal to -2^63 passes validation, encodes, and
  decodes as null (`RoundTrip.ReservedTimestampIsLost`); nothing else is lost
  (`RoundTrip.RoundTripIffNoCollision`).
- **A falling clock makes the kept state stale.** The comment beside `_HISTORY` says what is kept
  stays equal to a rebuild. It does while the clock does not fall behind what is journalled, whatever
  backfills have written (`Restart.LatePassKeepsCache`); two live polls with the clock stepping back
  between them make it differ (`Backdated.FallingClock`). `Restart.CacheEqualsRebuildIff` is exact.
- **A rebuild can forget a correction.** The docstring of `_history_for` says its walk leaves the
  highest revision's fields in place. A revision backfilled with an earlier `known_at` is walked
  first, so the superseded fields remain (`Backdated.BackfillForgotten`).
- **A torn line can read as a record.** If a crash loses only the newline, a strict read before the
  repair returns a record that was never committed (`Protocol.LostNewlineReads`); the live tail does
  not deliver it.
- **`since` and `until` read the clock unseen.** They depend on `known_at` without naming it. A re-poll
  is quiet if and only if they give the same values at both clocks (`Repoll.DuplicateIffSteady`,
  `Repoll.RepollIsQuietIff`); otherwise it writes again (`Repoll.SinceIsWrittenAgain`).
- **Key parts are not escaped.** Two candidates that differ in a named part can share a key when a part
  holds `|` (`Identity.PipesCollide`); where none does, a key is exactly the named parts
  (`Identity.KeyIsIdentity`).
- **History is by `effective_at`.** The comment on `History` in `hub/derive.py` says prior payloads come in
  `known_at` order; what `before` hands over is in order of `effective_at` and then key
  (`Histories.BeforeIs`).
- **A record limit below one raises.** `records` indexes an empty list when asked for no records of
  a non-empty journal (`Views.View.Records`).

## Model

| member | source | states |
|---|---|---|
| Derive.LookbackTheorem | hub/derive.py:119-246 | For every expression tree, evaluating over the last `k` entries of a history equals evaluating over all of it, for every `k` at least `lookback`: limiting history to the lookback loses nothing. |
| Derive.LagLookbackIsTight | hub/derive.py:219-246 | The bound cannot be lowered: for every `lag` there is a history on which one entry fewer changes the value. |
| Derive.EvalReadsOnlyNow | hub/derive.py:111-250 | An expression's value depends on its payload only through the numbers read under the names it reads now - `names()` without what a `lag` alone reads, which comes from history - and on `known_at` only if it uses `since`/`until`, which read it without naming it. |
| Derive.EvalReadsOnlyNames | hub/derive.py:111-250 | Payload and history alike are read only through `names()` (and `known_at`), the field of a `lag` included. |
| Derive.NamedIsNeeded | hub/derive.py:111-250 | And every name in `names()` is needed: where it is missing from payload and history, the expression is null. |
| Derive.MissingIsNull | hub/derive.py:19-25 | The module's own invariant, for every expression: a missing input anywhere, in the payload or in the part of history a function needs, makes the whole expression null. |
| Derive.EvalIgnoresKnownAt | hub/derive.py:340-360 | An expression without `since`/`until`/`known_at` evaluates the same at every clock. |
| Derive.AccumulateZScore | hub/derive.py:290-321 | The accumulating loops compute the z-score function that the lookback and agreement theorems speak of, null and minimum-observation cases included. |
| Meaning.EvalMeans | hub/derive.py:119-360 | Evaluation denotes arithmetic on real numbers: sums, differences, products and quotients, a lag and the difference from it, the sample z-score over n - 1, the share of a window strictly below, the time since and until. In any context exact wherever the result fits, evaluation gives that number wherever every intermediate result fits, and null exactly where nothing is denoted. The denotation is stated without the evaluator. |
| Meaning.RunMeans | hub/derive.py:538-555 | For 28-digit contexts, the text a compiled expression gives reads as the number denoted, and is null exactly where there is none. |
| Meaning.ExactExists | hub/derive.py:38-46 | There is such a 28-digit context. |
| Meaning.DerivedFieldMeans | hub/pipeline.py:84-105 | A journalled derived field reads as the number its expression denotes over the finished payload and all that precedes the record in its scope. |
| Meaning.SinceIsElapsed | hub/derive.py:340-360 | Over a finished payload `since` of a timestamp field is the record's own `known_at` minus that field. |
| Meaning.EnvelopeReads | hub/pipeline.py:84-95 | An expression reads the record's own times under `known_at` and `effective_at`, and any other name as the payload has it. |
| Meaning.ScoreIgnoresShift | hub/derive.py:290-321 | Moving the current value and the whole window by one amount moves no z-score. |
| Meaning.ScoreOfTwo | hub/derive.py:290-321 | Over two values the deviation is the sample's: the score squared is twice the squared distance from their middle over the squared distance between them. |
| Parser.TokenizeText | hub/derive.py:84-105 | The scanning loop yields the tokens of the text, or stops exactly where some position starts no lexeme. |
| Parser.TokenizeSpelled | hub/derive.py:84-105 | Any list of lexically valid tokens, spelled with blanks between, tokenizes back to itself. |
| Parser.TokenParser.ParseAll | hub/derive.py:365-387 | The cursor-moving parser returns the tree of the recursive-descent specification and succeeds only when every token is consumed. |
| Parser.ParseWritten | hub/derive.py:405-516 | Rendering any tree of the grammar with parentheses exactly where precedence or left associativity needs them, and parsing the tokens, gives that tree back with nothing left over. |
| Parser.ParseSpelling | hub/derive.py:84-106 | The same from text: rendering a tree to characters and reading it back is the identity. |
| Parser.ParsesIffWritable | hub/derive.py:365-516 | Exactly the trees of the documented grammar are the result of some text: the parser neither misses a tree nor builds one outside it. |
| Decimals.DecimalStrIdempotent | hubread/record.py:68-85 | Canonical decimal text is a fixed point of `decimal_str`, and reads strictly as the rounded number. |
| Decimals.DecimalStrIdentifiesEqualValues | hubread/record.py:68-85 | For inputs of at most 28 digits, two texts get the same canonical text if and only if they denote the same value. |
| Reals.RoundIsNear | hubread/record.py:68-85 | Rounding changes no number of at most 28 digits, and any other by at most half a unit of its 28th digit. |
| Decimals.Scale8Storable | hub/snapshot.py:36-45 | A number has a scale-8 integer `v` if and only if `v` times 10^-8 is its exact value and `v` lies strictly between -2^63 and 2^63. |
| Schemas.AcceptedNumberIsExact | hub/schema.py:152-176 | Every number validation accepts encodes to an integer strictly inside the 64-bit range, never the null mark, and decodes to the identical text. |
| Meaning.AcceptsExactly | hub/schema.py:143-197 | Validation accepts exactly what each declared type says: among numbers, the whole counts of 10^-8 that a signed 64-bit column holds beside its null mark. A number keeps its worth and anything else is left as it is. |
| Meaning.AcceptedIsInRange | hub/schema.py:134-141 | A number field with a quality range reads, once accepted, as a number from the lower bound to the upper one, both included. |
| Meaning.RangeHolds | hub/schema.py:134-141 | A value is in range if and only if its worth lies between the bounds' worths. |
| Schemas.ValidateFieldIdempotent | hub/schema.py:143-197 | A normalised value is accepted again unchanged. |
| Schemas.NormalisingKeepsReadingIffPlain | hub/schema.py:152-176 | Normalising a value leaves what an expression reads from it unchanged if and only if its number text carries no surrounding space and no underscore. |
| Schemas.OrderSearch.Visit | hub/schema.py:304-315 | One depth-first visit either appends everything the field reads and then the field, each once, or returns a real cycle; it terminates on every graph. |
| Schemas.DerivedOrder | hub/schema.py:269-319 | Succeeds if and only if every name is declared and the dependency graph is acyclic; the result is then a topological permutation of the derived fields, and a reported cycle is one. |
| Pipeline.DeriveFieldsFinishes | hub/pipeline.py:84-105 | One pass in that order reaches the fixpoint: only derived fields differ, and each equals its expression over the finished payload under its envelope. |
| Pipeline.FinishedIsUnique | hub/pipeline.py:84-105 | There is exactly one such payload, so the order of computation cannot show. |
| Pipeline.ComputeDerived | hub/pipeline.py:96-105 | The loop filling two dictionaries returns that payload. |
| Histories.ScopeHistory.Upsert | hub/pipeline.py:139-149 | Keeps the timeline strictly sorted with one slot per key at its latest effective_at, and changes the key's fact and no other. |
| Histories.ScopeHistory.Position | hub/pipeline.py:187-191 | Bisection finds the key's slot if and only if the key is known. |
| Histories.ScopeHistory.BeforeSlot | hub/pipeline.py:151-177 | Returns the facts strictly before the moment, oldest first, without the queried key; with a limit, exactly the newest `limit` of them. |
| Histories.BeforeIs | hub/pipeline.py:151-177 | What precedes a moment, in so many words: the other keys' facts of an earlier effective_at, or of that one and a lesser key, by effective_at and then key, each key once. |
| Histories.OwnRevisionNeverCounts | hub/pipeline.py:154-163 | Wherever the queried key's own earlier revision stands, what precedes it is the same. |
| Histories.SameFactsSameTables | hub/pipeline.py:134-149 | Two valid histories with the same facts have identical tables, so upserts to different keys commute. |
| Histories.OneSlotPerKey | hub/pipeline.py:125-132 | No key has two slots. |
| Dedupe.RevisionIndex.AssignRevision | hub/dedupe.py:65-84 | A repeated payload is dropped and changes nothing; any other gets the next revision, which the index then remembers. |
| Dedupe.ObserveAllKeepsHighest | hub/dedupe.py:41-62 | Replaying a journal leaves, for each key, exactly its highest revision and that revision's payload. |
| Dedupe.ReplayOrderIndependent | hub/dedupe.py:54-62 | A rebuild does not depend on the order of the lines. |
| Identity.KeyIsIdentity | hub/pipeline.py:60-82 | For candidates whose parts hold no separator, two share a key if and only if they agree on every part the schema names: scope, instant to the millisecond, day of either period bound, title, and each named field by its value; `known_at` never enters. |
| Identity.PipesCollide | hub/pipeline.py:60-82 | The separator is not escaped: two candidates that differ in both named parts share a key. |
| Identity.KeyFixesEffectiveAt | hub/pipeline.py:60-82 | Over every run, a schema key that names `effective_at` fixes it: a key the dataset holds stands where any later candidate of that key puts it. |
| Ingestion.ReachSuffices | hub/pipeline.py:219-241 | Handing derivation only as much of the past as some expression looks back gives the payload that all of the past gives. |
| Ingestion.DraftIsFinished | hub/pipeline.py:239-242 | A drafted record's payload is the normalised finished payload over everything that precedes the candidate in its scope, with no bound on how far back. |
| Ingestion.DraftsExactly | hub/pipeline.py:239-258 | A draft is refused exactly when its finished payload does not validate or its envelope will not do: scope, key, source, times and the order of the period's bounds. |
| Ingestion.StepDecides | hub/pipeline.py:225-287 | Exactly what becomes of a candidate: refused when unparsed, ahead of the clock, not valid, or too old for a live pass and not already held; dropped when its payload is held; written otherwise, under the next revision and with what the candidate and the pass say. |
| Ingestion.Ingest | hub/pipeline.py:194-287 | The mutable pass over index and histories, reading a bounded past, performs exactly the specified steps, which read all of it; it reports their records and counts, and puts in the quarantine, in order, the raw fields of exactly the refused candidates; scopes it does not touch keep their facts. |
| Ingestion.NothingVanishes | hub/pipeline.py:194-287 | Of every batch from every state, each candidate's record is among those written, its raw fields are in the quarantine, or it was a duplicate; the three counts add up to the batch. |
| Repoll.DuplicateIffSteady | hub/pipeline.py:225-288 | A second live poll of an accepted candidate is a duplicate if and only if every derived field that reads the clock gives the same value at both clocks; otherwise it is written again unless it has gone stale or its new values no longer validate. |
| Repoll.RepollWritesNothing | hub/pipeline.py:225-288 | A later live pass over the same ascending batch, keys fixing effective_at and the clock showing in no derived field, writes nothing and moves no state; every accepted candidate comes back a duplicate even when by then stale, every refused one is refused again. |
| Repoll.RepollIsQuietIff | hub/pipeline.py:225-288 | And only then: every accepted candidate of the batch comes back a duplicate if and only if the clock shows in none. |
| Repoll.SinceIsWrittenAgain | hub/derive.py:340-360 | A re-poll that writes: an accepted candidate with a derived `since(a)` over a given field is journalled again whenever the two clocks give different text. |
| Identity.RepollOfRunIsQuiet | hub/pipeline.py:225-288 | Over every run of a dataset keyed by instant and scope, a batch in time order sent again while no clock shows writes nothing: the hypotheses on keys hold by construction. |
| Agreement.VerifyDerivedFields | hub/compiler.py:106-145 | The scope-by-scope walk through a mutable history, handing each recomputation a bounded past, accepts if and only if every derived field of every record recomputes over everything that precedes it. |
| Agreement.ReachChecks | hub/compiler.py:126-144 | A record recomputes over the bounded past if and only if it does over all of it. |
| Agreement.FieldChecksIffPlain | hub/compiler.py:133-144 | The exact condition for one derived field of any expression: the recorded value recomputes if and only if what is recomputed is null, or no field the expression reads from the payload at hand was ingested as padded number text. |
| Agreement.DraftChecksIffReadable | hub/compiler.py:133-144 | The same for a whole drafted record: what was derived from raw values is what the compiler derives from the recorded ones exactly when every derived field meets that condition. |
| Agreement.CopyChecksIffPlain | hub/compiler.py:133-144 | A derived copy of a field verifies if and only if the text ingested for that field was plain. |
| Agreement.PaddedTextIsRefused | hub/schema.py:152-176 | The input that fails: `" 0.3"` is accepted as `0.3`, an expression reads nothing from it, and the compiler refuses a record with a derived copy of it. |
| Agreement.LiveAndCompileAgreeIff | hub/compiler.py:106-145 | Over every run of live passes and backfills whose scopes were ingested in `sort_key` order, the compiler's re-derivation accepts the whole journal if and only if every journalled derived field recomputes to null or read no padded text. |
| Agreement.LiveAndCompileAgree | hub/compiler.py:106-145 | In particular whenever no derived expression reads padded text from its own candidate; padded text that only a `lag` reads does no harm. |
| Restart.RevisionsAreAChain | hub/dedupe.py:65-84 | Over every run each key's revisions are exactly 1..n and consecutive payloads differ. |
| Restart.CacheEqualsRebuildIff | hub/__main__.py:59-94 | Over every run, the index and histories kept across all passes equal those rebuilt from the journal, up to empty scopes, if and only if nothing looks back or every key's latest known record says what its newest revision says. |
| Restart.CacheEqualsRebuild | hub/__main__.py:59-94 | In particular when each key's revisions have non-decreasing `known_at`. |
| Restart.LateRecordFolds | hub/__main__.py:75-94 | For a record known no earlier than anything journalled, a rebuild of the longer journal is one update of the rebuild of the shorter one, index and history alike, whatever backdated revisions the journal holds. |
| Restart.LatePassKeepsCache | hub/__main__.py:89-94 | A live pass whose clock is at or past every journalled `known_at` takes a state equal to the rebuilt one to a state equal to the rebuilt one. |
| Backdated.BackdatedRevisionIsLost | hub/__main__.py:59-87 | After any run that journals one key twice, the second time as known earlier, a rebuild's index counts the second revision while its history holds the first, and the state the run kept holds the second. |
| Backdated.FallingClock | hub/__main__.py:89-94 | A run of two live polls, the clock stepping back between them, after which what the process keeps is not what it would rebuild. |
| Backdated.BackfillForgotten | hub/__main__.py:59-87 | A live poll corrected by a backfill known earlier: the rebuild walks past the correction and ends on the superseded fields, not on the highest revision's. |
| Restart.HistoryFor | hub/__main__.py:59-87 | The folding loops build the rebuilt state; from an unreadable journal they build the empty one. |
| Collecting.KeptIsRebuiltIff | hub/__main__.py:89-94 | A state rebuilt once and kept since is what a restart would rebuild if and only if nothing looks back or every key ends alike in the order kept and in `sort_key` order. |
| Collecting.Collector.CollectOnce | hub/__main__.py:122-149 | Through failed appends, foreign writers and cache hits, a collect from a current cache makes the journal grow by exactly what a freshly rebuilt state would write, up to the append that raised; a live clock at or past every journalled `known_at` leaves the cache current whatever backfills the journal holds; and a cache is kept only after a clean collect. |
| Journal.JournalWriter.Open | hub/journal.py:47-60 | A held lock is refused and nothing moves; otherwise the lock is taken, every file is cut to its last complete line, and every fragment cut off is in quarantine with its place. |
| Journal.JournalWriter.ResumeSeq | hub/journal.py:123-147 | Resuming finds the highest `seq` over every line of every day file, and fails if and only if one is unreadable. |
| Journal.JournalWriter.Append | hub/journal.py:61-79 | Appends one line to its own day's file under the next `seq`, and nothing else on disk changes; a closed writer refuses. |
| Journal.FdsStayBounded | hub/journal.py:106-116 | Opening one more file keeps at most 128 descriptors, all distinct, and evicts only the least recently used. |
| Journal.ReadDayFileReads | hubread/journal.py:47-61 | A file of committed lines and a fragment reads as those lines, as a failure, or with one record too many, exactly as the fragment is empty, malformed or a whole line lacking its newline. |
| Protocol.SequenceIntegrity | hub/journal.py:106-147 | Over every run of opens, appends to any day, closes and torn-write crashes from an empty store, each dataset's committed records carry exactly 1..n, stand in their own day's file, and at most 128 descriptors are open. |
| Protocol.RepairRestoresLog | hub/journal.py:149-184 | After a crash, opening a writer leaves every file holding exactly its committed records. |
| Protocol.TornFileReads | hubread/journal.py:47-61 | Before that repair a strict read of a torn file fails, or returns one record never committed when only its newline was lost. |
| Protocol.LostNewlineReads | hubread/journal.py:47-61 | That case: after any run, a crash that loses only the last byte of a line leaves a file that a strict read answers with the committed records and the one that was not. |
| Protocol.AppendIsAStep | hub/journal.py:61-79 | The writer's `append` is a step of the protocol and keeps its invariant. |
| Protocol.OpenIsAStep | hub/journal.py:47-60 | Constructing the writer is the protocol's repair-and-open step. |
| Tail.JournalTail.Poll | hubread/journal.py:108-150 | A poll is one listing followed by the reads from where the tail stood to the newest day, each ending on a complete line. |
| ExactlyOnce.TailExactlyOnce | hubread/journal.py:108-157 | Over every interleaving of writer steps, crashes, repairs, listings and reads, the deliveries are a prefix of the committed records above `from_seq`, in order; nothing is skipped, no fragment delivered, and the offset stands on the end of a committed line. |
| ExactlyOnce.QuiescentPollDrains | hubread/journal.py:108-150 | A poll the writer leaves alone delivers everything still owed. |
| Ranges.ReadRange | hubread/journal.py:64-79 | Answers with the dataset's records in the interval, in `sort_key` order, and fails if and only if a file the bounds touch holds a malformed line. |
| Ranges.HeldReads | hubread/journal.py:64-79 | Over files that hold a journal, every read is that journal's span. |
| Ranges.SpanOrderIndependent | hubread/journal.py:64-79 | Permuting lines changes no answer when sort keys are distinct. |
| Ranges.SpanInOrder | hubread/record.py:319-325 | An answer is in order of `known_at`, then scope, key, revision and `seq`. |
| Ordering.StrLessIs | hubread/record.py:319-325 | Texts compare by their first differing character, a text coming after its own beginnings. |
| Ranges.CommittedRecordsRead | hubread/journal.py:64-79 | After any run of the writer, a historical read with a writer open answers from exactly the committed records. |
| Codec.Cursor.Take | hubread/snapshot.py:106-124 | Takes exactly `n` bytes and advances past them, or refuses and stays. |
| Codec.DecodeSnapshot | hubread/snapshot.py:161-276 | The offset-moving decoder computes the decoding function, with the same refusals. |
| Codec.EncodeSnapshot | hub/snapshot.py:71-136 | The growing buffer ends as the encoding function's bytes, with the same refusals. |
| Snapshot.ValueRoundTrip | hub/snapshot.py:27-54 | Every normalised value of a storable type encodes, and decodes to itself unless it is the integer -2^63. |
| Bytes.Utf8RoundTrip | hub/snapshot.py:57-59 | Text survives its UTF-8 bytes. |
| RoundTrip.DecodeEncode | hubread/snapshot.py:161-276 | Decoding an encoding returns its header and the records in `sort_key` order, string fields dropped, absent storable fields null, through dictionaries, columns, sentinels and checksum. |
| RoundTrip.RoundTripIffNoCollision | hub/snapshot.py:27-54 | That return is exact if and only if no timestamp field of the records is the integer reserved for null. |
| RoundTrip.ReservedTimestampIsLost | hub/snapshot.py:27-54 | The input that fails: a validated record with -2^63 in a timestamp field encodes, and comes back with null there. |
| RoundTrip.EncodeAccepts | hub/snapshot.py:71-136 | Every list of validated records with in-range integers encodes. |
| RoundTrip.EncodeOrderIndependent | hub/snapshot.py:79-136 | The bytes do not depend on the order of the input when sort keys are distinct. |
| RoundTrip.FlippedByteIsRefused | hubread/snapshot.py:161-200 | One changed byte anywhere is refused, unless the digest of the body itself collides. |
| RoundTrip.PrefixIsRefused | hubread/snapshot.py:161-200 | Every proper prefix of a decodable buffer is refused. |
| Calendar.MonthBounds | hub/compiler.py:71-87 | A month's bounds hold exactly the times of that month. |
| Calendar.MonthsAreCivil | hub/compiler.py:71-87 | Every month begins where the Gregorian calendar's closed formula puts it, leap years and centuries included. |
| Calendar.MonthOfDay | hub/compiler.py:205-215 | The month read off a day file's name is the month of every record in it. |
| Compiler.OnePassEqualsMany | hub/compiler.py:148-202 | One read and one verification for many months gives each month, to the byte, what its own compile gives, and fails if and only if some month's own compile fails. |
| Compiler.CompileOrderIndependent | hub/compiler.py:148-162 | Permuting the journal's lines changes no byte of a window. |
| Compiler.LaterAppendsUnseen | hub/compiler.py:152-158 | A month's compile does not see records known after its end. |
| Compiler.WindowLineage | hub/compiler.py:186-202 | A window's lineage is the raw files its month's records came from, ascending and each once. |
| Incremental.IncrementalEqualsScratch | hub/compiler.py:239-331 | After any run of appends to any month, failed or unsaved compiles, lost files and schema changes, an incremental compile succeeds if and only if a full one would, and lists for every month the hash, count and lineage the full compile gives, its file holding those bytes. |
| Compilation.DiscoverWindows | hub/compiler.py:205-215 | The months of the day files, ascending, each once. |
| Compilation.UnchangedWindows | hub/compiler.py:296-331 | Keeps exactly the entries whose month precedes every newly touched month, with the same schema hash, the same count and its file on disk. |
| Compilation.HubRoot.CompileDataset | hub/compiler.py:148-162 | Writes the one window its specification gives; unreadable if and only if a file it must open is. |
| Compilation.HubRoot.CompileWindows | hub/compiler.py:165-183 | Over files that hold a journal, writes the windows the shared pass gives, up to the first refusal; unreadable if and only if a file the shared read must open is. |
| Compilation.HubRoot.CompileAll | hub/compiler.py:239-293 | Compiles dataset after dataset, unreadable journals included, as the specification the next rows speak of; the manifest is saved only when all of them succeed. |
| Registry.EachProjects | hub/compiler.py:239-293 | A registry's compile, seen from each of its datasets - its manifest entry, its own snapshot files - is that dataset's own compile, or nothing when an earlier dataset failed; it succeeds if and only if every dataset's own does. |
| Registry.CompileProjects | hub/compiler.py:239-293 | So within a store it is a step of that dataset's own life, to which the incremental theorem applies, or no step. |
| Registry.EveryEntryFromScratch | hub/compiler.py:239-331 | After any life of a store of many datasets - appends, failed or successful compiles of any registries, lost files, changed schemas - a compile succeeds if and only if every dataset's journal can be read and compiled in full, and the saved manifest then lists for every dataset and month what compiling that month alone from scratch gives, its file in place, its counts summing to the journal. |
| Registry.EachRecordOnce | hub/compiler.py:205-215 | Months that cover a journal hold each of its records in exactly one. |
| Reader.StitchedRange | hubread/reader.py:206-236 | Over ascending disjoint windows whose snapshots match the journal, the stitched pieces, sorted, are the journal's own span with every record exactly once, the records inside a window as the snapshot format returns them. |
| Reader.StoreReader.Gather | hubread/reader.py:217-233 | The cursor loop gathers what the stitching specification says, first failure winning. |
| Reader.StoreReader.Range | hubread/reader.py:206-236 | Returns that span for every journal its sources are sound for, and refuses when a source it needs does. |
| Reader.StoreReader.AnswerAt | hubread/reader.py:269-285 | The `latest` loop returns the answer of the visibility rule. |
| ReadBack.CompiledRangeReads | hubread/reader.py:206-249 | Compile, then read: over freshly compiled windows a range is the journal's own span. |
| ReadBack.CommittedRange | hubread/reader.py:206-249 | From a writer's run to a range: after any opens, appends, crashes and repairs, a range over the files as they stand and windows freshly compiled from them is the span of what was committed. |
| ReadBack.CommittedAnswer | hubread/reader.py:251-285 | And to an answer: what `as_of` reads from those files gives, for each key, the newest committed record visible then, and no other key. |
| ReadBack.ShownIsKept | hubread/reader.py:206-249 | Without text fields and reserved integers a range loses nothing but the difference between an absent field and a null one. |
| Visibility.AnswersExactly | hubread/reader.py:251-285 | A key is answered if and only if some journalled record of it in the scope was known at least `min_lag_ms` before `t` and may be shown; the record answered is, of those, the one of the highest revision, then known last, then written last. |
| Visibility.AsOfIsAnswer | hubread/reader.py:251-285 | Bounding the read by `t` loses nothing: the answer is that of the whole journal. |
| Visibility.NoLookAhead | hubread/reader.py:251-285 | Every record returned satisfies `known_at + min_lag_ms <= t`, is of the scope asked for, and is not derived when those are refused. |
| Visibility.AsOfAfterAppend | hubread/reader.py:269-285 | Exactly what one more record does to an answer: nothing, unless it is visible and newer than what its key showed. |
| Visibility.ImmutablePast | hub/pipeline.py:230-237 | Over every run of live passes and backfills, once all later live clocks are beyond `t` and all later backfills are of derived facts, the answer at `t` under `refuse_derived` never changes again. |
| Visibility.ClockStaysPast | hub/pipeline.py:230-237 | A clock that never goes back gives that hypothesis for good once it has passed `t`. |
| Views.View.Records | hub/ui.py:218-235 | Stopping early, returns the top `limit` records by `seq` over all files; a limit below one fails if and only if some file holds a record. |
| Views.TopIsHighest | hub/ui.py:218-235 | Those are the highest: in descending `seq`, nothing left out above the lowest of them. |
| Views.View.DayStats | hub/ui.py:77-92 | The cached count is the count of the file's present version. |
| Views.Series | hub/ui.py:238-250 | Stopping early, returns the last `limit` values by (known_at, seq) over all files. |
| Views.TimelineHolds | hub/ui.py:238-250 | The timeline they are taken from holds exactly the scope's records that carry the field, by `known_at` and then `seq`. |
| Lines.LinesBack | hub/collectors/gdelt.py:201-229 | Lines free of every line-break character survive being joined and split. |
| Gdelt.FirstsAreDistinctIds | hub/collectors/gdelt.py:131-147 | A region counts one event per distinct id among its reports. |
| Gdelt.Aggregate | hub/collectors/gdelt.py:131-163 | The accumulating loop tallies the region's events, each id as first met, and answers nothing if and only if there are none. |
| Gdelt.ClassesWithinEvents | hub/collectors/gdelt.py:131-163 | Disjoint classes of events never outnumber the events. |
| Hours.FirstsAreFirst | hub/collectors/gdelt.py:131-147 | The events counted are the region's reports, each as its id was first met. |
| Hours.TallyCounts | hub/collectors/gdelt.py:131-163 | Each counter outright: how many distinct events are of quad class 4, 3, of each root or base code, the sum of their articles, and the sums of goldstein and tone each weighted by articles. |
| Hours.MeanIsMean | hub/collectors/gdelt.py:127-128 | `_mean` has eight places and no eight places are nearer, for either sign of the weight. |
| Gdelt.NearestIsNearest | hub/collectors/gdelt.py:127-128 | The mean's rounding is within half a unit, ties to even, for either sign. |
| Gdelt.HourCandidates | hub/collectors/gdelt.py:175-198 | One candidate per region that had events, in region order, none when no batch was published. |
| Hours.RegionsSay | hub/collectors/gdelt.py:175-198 | An hour has a candidate for exactly the regions that had events, in the regions' order; each carries under each named field that count, sum or weighted mean of its region's distinct events, with the hour's times and the number of published batches. |
| Hours.StampsAreQuarters | hub/collectors/gdelt.py:166-168 | An hour's batch stamps are its four quarter-hours, the start excluded and the end included. |
| Archive.ParsedIsClean | hub/collectors/gdelt.py:99-124 | Whatever an export file holds, the events parsed from it contain no separator. |
| Archive.ExportLineReads | hub/collectors/gdelt.py:99-124 | A line of the 61-column export table reads as the event its columns hold. |
| Archive.Compact | hub/collectors/gdelt.py:201-218 | The line-appending loops write the hour's archive text. |
| Archive.Expand | hub/collectors/gdelt.py:221-237 | The reading loop rebuilds the batches, refusing an unknown stamp or an event of a batch never published. |
| Archive.ExpandCompact | hub/collectors/gdelt.py:201-237 | Expanding a compacted hour of stamp-ordered batches with separator-free fields returns the hour and its batches, a batch never published as `None`. |
| Archive.ReplayGivesTheSame | hub/collectors/gdelt.py:291-317 | Every hour as fetched replays from its archive to exactly the candidates it gave live, whatever the export files held. |

## Left out

- JSON syntax, SHA-256, zlib and zip, HTTP fetching, `flock` and `fsync`: only their effect is modelled.
- Journal.Faithful: the line format is assumed invertible, not proved so from JSON.
- Agreement.LiveAndCompileAgreeIff: assumes each scope ingested in `sort_key` order; out of order, the compiler refuses only when a recomputed value happens to differ.
- Agreement.VerifyDerivedFields: compares values, not the text of the error it raises.
- ExactlyOnce.TailExactlyOnce: assumes the writer never writes a day of the followed dataset behind one that has a file; a backfill inserting older day files under a live tail is outside it.
- Incremental.IncrementalEqualsScratch: assumes an append-only journal and schemas told apart by the eight hex digits that name their directory.
- Reader.StitchedRange: assumes snapshots that match the journal; a snapshot gone stale behind new records is outside it.
- Journal.JournalWriter.ResumeSeq: a line is readable when it is a whole record; the original asks only for JSON with a `seq`.
- Collecting.Collector.CollectOnce: the files' fingerprint is the list of journalled records, which hold one dataset with each key's revisions rising, as ingest leaves them.
- Ingestion.Ingest: the text of a refusal's reason is not modelled, nor the quarantine's own day files.
- Registry.EveryEntryFromScratch: assumes a registry's datasets to have different names, and the schemas one dataset is compiled under to be told apart by their directory, as above.
- ReadBack.CommittedAnswer: assumes journalled times within the range the journal accepts.
- Gdelt.Aggregate: sums are exact; the original rounds them in its default 28-digit context.
- Gdelt.NearestIsNearest: the mean is rounded once, where the original divides in the 28-digit context first.
- Archive.Expand: the header's stamps are looked up by their text; two texts of one stamp are not told apart from two stamps.
- Parser.TokenizeText: spaces and digits are ASCII, where the original's patterns take Unicode ones too.
- Views.View.Records: which files a call opens is not part of its contract.
- Views.View.DayStats: first and last times, scopes and availability of a day are not modelled.
- Views.Series: returns the records; the rendering of their values as text is not modelled.
- Ranges.ReadRange: day names compare as day numbers, so years keep four digits.
- Unicode digits, Unicode spaces around text (`strip()`, `\s`) and NaN or infinity spellings that the original's readers accept, and the limits of its exponents.
- Meaning.EvalMeans: where an intermediate result does not fit 28 digits, what the context rounds it to is not modelled; determinism, null propagation and what is read are proved for every context.
- Identity.KeyIsIdentity: the day's text is any text that tells days apart; `strftime` is not modelled.
- `Reader.windows`, `verify`, health and status, the web server, logging, schedules and the command line: no property beyond their single body.
- Parsing of declarative sources, the simple YAML reader, schema loading checks, dataset and field name patterns, the manifest's copy of the field table.
- The live collector's polling state and its waiting for late batches in `fetch`.
