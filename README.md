# Report ingestion of an FFLogs progression tracker, in Dafny

This project models how a small Go web service ingests combat-log reports
from FFLogs and keeps, for every character and encounter, a record of the
best attempt so far. It covers these parts.

- **Identity and validity.** `Helpers` holds the compare hashes of
  encounters and characters, the validity filter for attempts, and the
  extraction of a report id from a report URL. It also holds the job-name
  lookup, the public-id generator, the client-address fallback and the
  encounter display list.
- **The per-character extractor.** `Report` takes one friendly of a fetched
  report and picks a best attempt per encounter:
  - kills beat non-kills;
  - the lowest fight percentage wins, and the first such attempt wins ties;
  - the duration follows its own minimum/maximum rule.

  It also holds the filtering of friendlies after a fetch.
- **The improvement policy and the store.** `Entities` holds the rule that
  decides when an attempt supersedes a stored record. `Database` holds the
  store as a class of maps, with three sync passes (encounters, characters,
  progressions) and the import ledger.
- **The import queue.** `ImportQueue` holds a first-in first-out list of
  pending report ids without duplicates, and one tick of its worker.
- **The `/i/` import endpoint.** `Web` holds the per-address tracker
  find-or-create, the ordered admission gates (limiter, report id, history,
  queue) and the `duration` template function.

Conventions:
- Nil pointers are `Option`s.
- The SHA-256 + base36 digest is an arbitrary function `digest: string -> string`. Every property holds for every digest.
- Storage failures are a set `down` of tables on which every operation fails.
- The ledger lookup `HasFFLogsReport` drops its query error, as the source does. With the ledger down it answers "not imported", so the `/i/` endpoint queues an already imported report again.
- The outcome of `rand.Intn(36)` is a function `randomIndex: nat -> nat`, together with a count of the draws used.
- Times are int64 milliseconds, with Go's zero `time.Time` written as `ZeroTime`.
- The Go loops are methods proved equal to recursive specification functions, or proved to keep a stated invariant. The properties are lemmas about those functions.

Where the repository does not fit together, each file keeps its own record types:
- `fflogs_report.go` builds progression records with fields that the stored record of `database.go` does not have.
- `database.go` calls `GenerateUUID`, but `helpers.go` defines `GenerateUID`.
- The worker calls a `FetchReportFights` that is not defined.

The extractor's record is therefore `Report.ReportProgression`, separate from `Entities.CharacterProgression`.

## Model

| member | source | states |
|---|---|---|
| Entities.Contains | database.go:23 | strings.Contains: true exactly when the substring occurs at some position |
| Entities.IsImprovement | database.go:43-52 | the source's improvement condition as a predicate; its meaning is stated by UnknownIsImprovement, ImprovementIsOutranking, KillIsNeverLost and EqualIsNoImprovement |
| Entities.IsDisplayable | database.go:22-24 | an encounter is displayable iff its zone name contains "Savage", "Ultimate" or "Extreme" |
| Entities.UnknownIsImprovement | database.go:44-47 | with no stored row (id 0), or an unknown fight percentage or kill flag, the attempt is always an improvement |
| Entities.ImprovementIsOutranking | database.go:48-51 | with a stored row and a known attempt, IsImprovement holds exactly when the attempt outranks the row in an independent ranking: any kill beats any non-kill, a shorter kill beats a longer one, and a lower percentage beats a higher one |
| Entities.KillIsNeverLost | database.go:51 | a stored kill is never superseded by a non-kill |
| Entities.EqualIsNoImprovement | database.go:51 | an attempt that stands exactly where the stored row stands is no improvement (the comparisons are strict) |
| Entities.OutranksIsStrictOrder | database.go:48-51 | the ranking is irreflexive, asymmetric and transitive |
| Entities.SupersedeKeepsSettled | database.go:191-225 | after a row is replaced by an improving attempt, every attempt that did not improve on the old row does not improve on the new one |
| Helpers.Digits | helpers.go:55 | the decimal digits of a natural number: at least one, no sign |
| Helpers.DecimalString | helpers.go:55 | `%d` of an integer: a minus sign before the digits of a negative number; DecimalStringInjective states that it tells integers apart |
| Helpers.DigitsInjective | helpers.go:55 | distinct natural numbers have distinct digit strings |
| Helpers.DecimalStringInjective | helpers.go:55 | distinct integers print differently under %d |
| Helpers.EncounterInfoHash | helpers.go:54-57 | the digest of the zone id written in decimal; EncounterHashIsZoneHash and DistinctZonesDistinctHashes state what it tells apart |
| Helpers.CharacterHash | helpers.go:59-62 | the digest of name and server with no separator; CharacterHashIsConcatenationHash and CharacterHashSplitCollision state what it confuses |
| Helpers.EncounterHashIsZoneHash | helpers.go:54-57 | attempts with the same zone id have the same encounter hash, whatever else differs |
| Helpers.DistinctZonesDistinctHashes | helpers.go:54-57 | with a collision-free digest, different zone ids give different encounter hashes |
| Helpers.CharacterHashIsConcatenationHash | helpers.go:59-62 | friendlies whose name+server concatenations are equal have the same character hash |
| Helpers.CharacterHashSplitCollision | helpers.go:59-62 | ("ab","c") and ("a","bc") hash alike for every digest |
| Helpers.IsEncounterValid | helpers.go:75-77 | the source's validity filter as a predicate; ValidityIgnoresPhaseAndComposition and EchoIsNeverValid state what it does not look at and what it refuses |
| Helpers.ValidityIgnoresPhaseAndComposition | helpers.go:75-77 | a valid attempt stays valid without its phase and composition fields |
| Helpers.EchoIsNeverValid | helpers.go:76 | an attempt run under echo is never valid |
| Helpers.StartsAtSlice | helpers.go:15 | the prefix test at position i is exactly equality of the slice s[i..i+|pre|] with the prefix |
| Helpers.FirstMatch | helpers.go:65-71 | the first match position found from i is a match, is at least i, and has no match between i and it; no result means no match from i on |
| Helpers.IdRun | helpers.go:15 | the captured run is a maximal run of [A-Za-z1-9] characters starting at j (possibly empty) |
| Helpers.ReportUrlToReportId | helpers.go:64-73 | the capture of the leftmost URL match, or a bare 16-character input; ReportIdWithoutMatch, ReportIdAtLeftmostMatch, ReportIdOfUrl and BareReportId state its cases |
| Helpers.ReportIdWithoutMatch | helpers.go:66-71 | with no URL match anywhere, the input is returned iff it has 16 characters, else "" |
| Helpers.ReportIdAtLeftmostMatch | helpers.go:64-73 | with a match, the id is the maximal id-character run after the leftmost match of the pattern |
| Helpers.FirstMatchIsLeftmost | helpers.go:65 | the leftmost match position is the one the search finds |
| Helpers.IdRunOfIdChars | helpers.go:15 | when everything from j on is an id character, the run is the whole rest of the input |
| Helpers.ReportIdOfUrl | helpers.go:64-73 | an https report URL followed by an id of id characters gives back that id |
| Helpers.BareReportId | helpers.go:66-69 | a bare 16-character input is returned unchanged |
| Helpers.Lower | helpers.go:51 | lower-casing keeps the length and maps every character |
| Helpers.JobNameToJobAbbr | helpers.go:50-52 | the abbreviation is non-empty iff the lower-cased name is a key of JobsMap, and is then three letters; unknown names give "" |
| Helpers.JobLookupIgnoresCase | helpers.go:50-52 | looking up a lower-cased name gives the same abbreviation as the name itself |
| Helpers.GenerateUid | helpers.go:38-48 | six characters, each from the 36 letter runes, character i being letterRunes at the i-th draw |
| Helpers.ReadUserIp | helpers.go:79-88 | the first non-empty of X-Real-Ip, X-Forwarded-For and the remote address; "" only when all three are empty |
| Helpers.FirstWithBoss | helpers.go:98-103 | the first encounter of the list with the boss id, or none when no encounter has it |
| Helpers.EncounterDisplayListFromEncounterInfoList | helpers.go:90-110 | the nested loop computes exactly DisplayList |
| Helpers.FirstWithBossAt | helpers.go:98-103 | an encounter with the boss id and none before it is the one picked |
| Helpers.CategoryEncountersFacts | helpers.go:97-104 | a category lists no more encounters than it has boss ids, each taken from the list and carrying one of the category's boss ids |
| Helpers.DisplayListFacts | helpers.go:90-110 | the display list has no more entries than categories, and every entry is non-empty and is some configured category's name with that category's encounters |
| Database.ValidHashesMembers | database.go:119-123 | a hash is among the report's valid hashes iff some valid attempt has it |
| Database.ValidHashesEmpty | database.go:119-122 | the report has no valid hash iff it has no valid attempt |
| Database.NamedHashesMembers | database.go:146-150 | a hash is among the named hashes iff some friendly with name, server and type has it |
| Database.NamedHashesEmpty | database.go:146-149 | there is no named hash iff no friendly has name, server and type |
| Database.WriteKeepsSettled | database.go:191-225 | overwriting a pair's row with an improving attempt keeps every settled attempt/friendly pair settled |
| Database.GrewTransitive | database.go:191-213 | rows that grew twice have grown: strictly better standing, and a kill kept with an earlier-or-equal first kill time |
| Database.CountImports | database.go:112-116 | the ledger count for an id is positive iff some row has that id |
| Database.ProgressionsGrewTransitive | database.go:186-225 | two rounds of growth compose into one |
| Database.ChangedRowsStep | database.go:178-225 | crediting one attempt to one friendly keeps every added or changed row tied to an attempt of its own encounter and a friendly of its own character |
| Database.Store.HasFFLogsReport | database.go:112-116 | true iff the ledger table can be read and has a row for the report id; a count that fails leaves the count at 0, so a report counts as not imported while the ledger is down |
| Database.Store.FetchEncounterInfoFromCompareHash | database.go:94-98 | the encounter row under the hash, RecordNotFound when there is none, and a storage failure while the table is down; on a valid store the row found carries the hash and a stored id |
| Database.Store.FetchCharacterFromCompareHash | database.go:106-110 | the character row under the hash, RecordNotFound when there is none, and a storage failure while the table is down; on a valid store the row found carries the hash and a stored id |
| Database.Store.FetchCharacterProgression | database.go:187-190 | the progression row of the (character, encounter) pair, RecordNotFound when there is none, and a storage failure while the table is down; on a valid store the row found belongs to that pair |
| Database.Store.UpsertEncounterInfo | database.go:123-140 | looks the hash up; on a storage failure fails and changes nothing; otherwise adds one row built from the attempt (difficulty 0 when unknown) when the hash is absent, and leaves existing rows alone |
| Database.Store.SyncEncounterInfo | database.go:118-143 | skips invalid attempts, never changes an existing row, and builds each new row from the first valid attempt in report order with its hash; on success every valid hash is stored; it fails (with the table error) iff that table is down and there is a valid attempt; a second run over the same report changes nothing |
| Database.Store.UpsertCharacter | database.go:150-164 | adds one character with a fresh six-character public id from the next draws when the hash is absent, and otherwise changes nothing |
| Database.Store.SyncCharacter | database.go:145-167 | skips friendlies with an empty name, server or type; adds characters only for absent hashes, each with a public id and the name and server of the first named friendly in report order with its hash; never touches existing rows; on success every named friendly is stored |
| Database.Store.RecordFight | database.go:192-222 | the saved row carries the attempt's duration, percentages (10000 when unknown), phase (0 when unknown), game version and report start + end time; the kill flag never goes from true to false; the first kill time is set on the first kill, only moves earlier afterward, and stays as stored while there is no kill |
| Database.Store.CreditFriendly | database.go:178-226 | credits the attempt to the friendly with no participation check; writes only when IsImprovement holds; the only row that may be added or changed is the one under the friendly's character id and the encounter's id, and it then carries the attempt; without a stored character nothing changes; afterwards the pair is settled; settled pairs stay settled; stored rows only grow |
| Database.Store.SyncCharacterProgression | database.go:169-231 | every stored row only grows (a strictly better standing, no kill lost, first kill never later); every added or changed row carries a valid attempt of the report filed under that row's own key, the attempt's stored encounter id and a friendly's stored character id; on success every valid attempt is settled for every stored friendly; a report that is already settled writes nothing |
| Database.Store.SyncTables | database.go:234-242 | the three syncs in order, stopping at the first error with that stage's error; the ledger is untouched; a later stage's failure leaves the earlier stages' rows grown only by rows from the report; when all three pass, the report is synced |
| Database.Store.HandleFFLogsReportFights | database.go:233-248 | runs the encounter, character and progression syncs in that order and stops at the first error, returning that stage's error; a later stage's failure leaves the earlier stages' rows in place, grown only by rows from the report; the ledger row is saved only after all three succeed, and then HasFFLogsReport holds and the report is synced |
| Report.IsFriendlyInEncounter | fflogs_report.go:25-32 | true iff some fight entry of the friendly carries the fight's id |
| Report.EncounterHashesForFriendly | fflogs_report.go:34-53 | the nested loop computes exactly EncounterHashes |
| Report.AppendNoDuplicates | fflogs_report.go:47-50 | appending an absent hash keeps a list free of duplicates |
| Report.EncounterHashesNoDuplicates | fflogs_report.go:34-53 | the encounter-hash list has no duplicates |
| Report.EncounterHashesMembers | fflogs_report.go:34-53 | a hash is listed iff the friendly took part in some fight with that hash, valid or not |
| Report.EncounterHashesGrow | fflogs_report.go:34-53 | the list for a prefix of the fights is a prefix of the whole list (first-appearance order) |
| Report.EncounterHashesFirstAppearance | fflogs_report.go:40-50 | a participated fight whose hash is new is appended at that point |
| Report.DoesFriendlyHaveEncounter | fflogs_report.go:55-62 | true iff the friendly took part in a valid fight with the hash |
| Report.DoesFriendlyHaveEncounterKill | fflogs_report.go:64-71 | true iff the friendly took part in a valid kill with the hash |
| Report.KillIsEncounter | fflogs_report.go:55-71 | having a valid kill implies having a valid fight |
| Report.ScanEncounter | fflogs_report.go:91-137 | the running best* variables end as Scan over all fights |
| Report.CharacterProgressForFriendly | fflogs_report.go:73-164 | returns the character (hash, name, server) and exactly ExtractedProgressions |
| Report.ScanFindsData | fflogs_report.go:117-136 | the scan has fight data iff some attempt is considered; with none it ends at the initial values; its zone is the report's zone |
| Report.ValidFightIsScanned | fflogs_report.go:87-117 | a friendly with a valid attempt for the hash always gets data from the scan (with the kill flag computed first) |
| Report.ScanPicksFirstMinimum | fflogs_report.go:125-136 | with non-negative percentages, the chosen attempt is considered, has the lowest fight percentage, is strictly lower than all considered attempts before it, and supplies percentage, phase, phase percentage, time, composition, zone name, difficulty and boss |
| Report.ScanDurationWithoutKill | fflogs_report.go:121-124 | without a kill, the duration is at least every considered attempt's duration and is -1 or one of them |
| Report.ScanDurationWithKill | fflogs_report.go:121-124 | with a kill and non-negative durations, the duration is at most every considered kill's duration, equals one of them, and is -1 with none |
| Report.HashesOf | fflogs_report.go:139-158 | one hash per progression |
| Report.ProgressionsFollowHashes | fflogs_report.go:85-159 | the progressions built over a hash list have, in order, exactly the hashes with a valid attempt, and each is the record built from its own scan |
| Report.WithValidFightMembers | fflogs_report.go:85-89 | the filtered list holds exactly the listed hashes with a valid attempt, and stays duplicate-free |
| Report.ExtractedCoversValidEncounters | fflogs_report.go:83-159 | the extractor emits one progression per encounter in which the friendly took part in a valid attempt, none for other hashes, and no hash twice |
| Report.ExtractedEntries | fflogs_report.go:139-157 | every record is a kill iff the friendly has a valid kill of its encounter, has no echo, carries the friendly's job, the report id, game version and zone |
| Report.FetchCharacterReports | fflogs_report.go:166-189 | a fetch error is returned as is; otherwise the loop computes exactly CharacterReports |
| Report.KeptIffValidFight | fflogs_report.go:174-182 | a friendly with a server is reported iff it took part in some valid attempt |
| Report.CharacterReportsSound | fflogs_report.go:172-187 | every character report belongs to a friendly with a server and progressions, and carries its character, its progressions and the report id |
| Report.CharacterReportsComplete | fflogs_report.go:172-187 | every friendly with a server and progressions gets its character report |
| ImportQueue.PopKeepsNoDuplicates | fflogs_import_queue.go:50 | removing the head keeps the rest duplicate-free and leaves the head out of it |
| ImportQueue.FFLogsImportQueue.Add | fflogs_import_queue.go:28-39 | an id already pending gives AlreadyInQueue and leaves the list as it was; a new id is appended at the end; the list stays duplicate-free |
| ImportQueue.FFLogsImportQueue.Step | fflogs_import_queue.go:43-61 | an empty queue does nothing; otherwise exactly the head is removed, the rest keeps its order, and the head is never re-queued; a fetch error leaves the store untouched; an import that succeeds leaves the report in the ledger and synced |
| Web.GoDivision | web.go:68 | Go's truncating quotient and remainder recompose the dividend, the remainder takes the dividend's sign and is smaller than the divisor |
| Web.FormatDuration | web.go:67-69 | `%02d:%02d` of the truncated minutes and seconds; FormatDurationSeconds, SubSecondDurations and NegativeDurationExample state its results |
| Web.FormatDurationSeconds | web.go:67-69 | for non-negative durations, minutes*60 + seconds is the whole seconds, the seconds are below 60, and the text ends in ':' and their two digits |
| Web.SubSecondDurations | web.go:67-69 | any duration within a second of zero shows as "00:00" (truncation toward zero) |
| Web.NegativeDurationExample | web.go:67-69 | -61000 ms shows as "-1:-1" |
| Web.FindTrack | web.go:199-205 | the position of the first tracker of the address, or none when there is none |
| Web.FindTrackUnique | web.go:199-205 | with one tracker per address, the one found is the only one |
| Web.AddResponses | web.go:226-233 | the answers after a queue add: acceptance alone on success, the 400 'already being processed' alone for a pending id, otherwise the 500 answer followed by the acceptance |
| Web.Admission | web.go:213-233 | the gates in their order (limiter, report id, ledger, queue), each ending the request; DeniedIgnoresRequest and AcceptedIffQueued state its outcomes |
| Web.ImportUserTracking.FindOrCreate | web.go:199-212 | an existing tracker is returned without appending; otherwise exactly one tracker with the 0.1/s, burst 1 limiter is appended; every address keeps at most one tracker |
| Web.DeniedIgnoresRequest | web.go:213-216 | a request the limiter denies gets 429, whatever the report, the history or the queue would say |
| Web.AcceptedIffQueued | web.go:213-233 | the last answer is the 200 acceptance iff the request passes the limiter, the id and history gates and the queue does not report it pending; every other outcome is one 400 or 429 answer |
| Web.HandleImport | web.go:193-234 | the answers are the empty-address 400 (then the handler goes on), followed by the gates in order; the queue gets the id only past the limiter, id and history gates; the tracker list gains at most the one entry for the address |

## Left out

- The network client, the process entry point, the configuration and data files, and the rest of web.go (templates, the other routes, the `percent`, `displaydate` and `timestamp` formatters) are not part of this model.
- SHA-256 and base36 are replaced by an arbitrary digest function. Properties that need distinct hashes assume the digest is collision-free (`Helpers.Injective`).
- gorm is replaced by maps:
  - encounters are keyed by compare hash;
  - characters are keyed by compare hash;
  - progressions are keyed by (character id, encounter id);
  - the ledger is a list.

  One id counter serves all tables. Ids are positive and below the counter, and a row not yet stored has id 0.
- Database.Store: a storage failure is a table being down for the whole import. A create or save that fails after a successful lookup on the same table is not modelled separately.
- Database.Store.UpsertCharacter: `GenerateUUID` in database.go is taken to be `GenerateUID`. Like the source, the model does not check the public id for collisions.
- Database.Store.SyncCharacterProgression: the report id parameter is unused, as in the source.
- Helpers.Lower: lower-cases ASCII letters only. `strings.ToLower` also folds other Unicode letters.
- Helpers.ReportUrlToReportId: Go's `len` counts bytes, while the model counts characters. The two agree on ASCII input.
- Integers are unbounded mathematical integers. int64 wrap-around of times and durations is not modelled.
- Report.CharacterProgressForFriendly: the model requires the phase and composition fields on every valid attempt the friendly took part in (`Report.Dereferenceable`). The source reads them only on the attempts its scan picks, that is, a considered attempt whose fight percentage is lower than the best so far. Reports whose nil fields sit only on skipped or non-picked attempts are therefore outside the model.
- Report.FetchCharacterReports: the fetch (`rawFetchReportFights`) is the caller's. The method takes its result.
- ImportQueue.FFLogsImportQueue.Step: the `time.Tick` loop, the mutex and logging are left out. One loop iteration is modelled, with the fetch as a function from report id to result.
- Web.HandleImport:
  - `rate.Limiter.Allow()` is a function of the client address. Trackers are unique per address, so this is the same as asking the address's tracker.
  - Response writing is a list of the responses in the order in which they are written. With a real `http.ResponseWriter`, only the first status written takes effect.
  - Add can only fail with "already in queue". The 500 answer, followed by the acceptance, is modelled in `Web.AddResponses` but cannot occur.
- Web.ImportUserTracking.FindOrCreate: the limiter is recorded by its parameters (one request per ten seconds, burst 1). Its token bucket is not modelled.
- Report.ScanPicksFirstMinimum: stated for non-negative fight percentages. With a negative percentage the source replaces the best on every considered attempt. The scan function covers that case, but the lemma does not.
- Report.ScanDurationWithKill: stated for non-negative kill durations. With a negative duration, the -1 start value takes part in the comparison.
