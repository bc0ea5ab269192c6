# Document numbering for CRT and MIC-DTA transport documents

This project models the back end that issues international road-transport documents for a freight company's carriers (`transportadoras`):

- **CRT** (international waybill);
- **MIC-DTA** (cargo manifest / transit declaration), of kind `NORMAL` (carrying CRTs) or `LASTRE` (ballast, no cargo).

The model covers:

- **Number engine** (`DocumentNumbers`, from `documentNumberService.js`). It checks the route, the carrier and a licence that binds the carrier to the origin or destination country, then derives the *complementary code*:
  - for a Brazilian carrier, the four digits after the licence's leading capitals;
  - for other carriers, the licence's `idoneidade`, else the `licenca`.

  It then reserves `quantidade` consecutive integers from a counter per (document kind, carrier), seeded from the carrier's starting offset minus one (an offset that `update` left NULL counts as 0). Each integer is rendered as `origin ++ code ++ pad5(n)`.
- **CRT issuer** (`CrtService.create`): its checks in the source's order, the allocation, then the CRT inserts one by one, stopping at the first row the table refuses.
- **MIC-DTA issuer** (`MicDtaService.create`, `addCrtsToMicDta`): the dispatch on kind, a single-number allocation, the insert, and the links to CRTs in the junction table.
- **Carrier service** (`TransportadoraService.create`, `update`, `getById`): country validation, the carrier row (registration number UNIQUE), and the per-destination licence checks and inserts. `update` deletes the carrier's old licences first.
- **Licence model** (`DestinationLicenses`): `formatDateToBR`, the per-carrier query, deletion, the exact-destination lookup and the either-country lookup. The table enforces UNIQUE(carrier, destination).
- **Licence overview** (`LicenseService.getAllLicensesWithValidity`): every licence of every carrier, tagged with days to expiry, and bucketed into valid, expiring within 180 days, and expired.
- **`ApiResponse`**: the success and error records every service returns.

### Modelling conventions

- **State.**
  - The SQLite tables are classes holding maps or sequences (`CarrierTable`, `LicenceTable`, `CrtTable`, `MicDtaTable`, `SequenceTable`). Their `Valid()` predicates state the schema's UNIQUE keys.
  - Constraint failures are `Result` errors whose messages follow SQLite's `<KIND> constraint failed: <columns>`.
  - Each service operation is a method that changes these tables. Its `ensures` ties the answer and the new state to a ghost predicate (`CreateOutcome`, `UpdateOutcome`, `AllocationOutcome`) over the old state. Lemmas then draw the promised properties from that predicate.
- **Missing and null values.**
  - A missing request string (JavaScript `undefined`) is `""`. Nullable columns are `Option`.
  - In template literals, `""` renders as `undefined` and a missing code renders as `null`, as JavaScript prints them.
  - A missing request string passed to SQL is bound as NULL, so it never equals a stored country, and writing it into a NOT NULL column is refused.
- **Parameters instead of I/O.**
  - The country list (`COUNTRIES`, in `src/config/countries.js`, which is not part of this model) is a `set<string>` parameter.
  - Today's date is a `today: string` parameter.
  - The licence overview's date arithmetic is a `daysLeft: string -> int` parameter.
- **Two regexes, one function.** The number engine's regex `/^[A-Z]*?(\d{4})/` is lazy and the CRT issuer's `/^[A-Z]*(\d{4})/` is greedy. Capitals and digits are disjoint, so both capture the same four digits. `LicenceCode.RegexSplitIsUnique` proves this, and `LicenceDigits` serves both.
- **Counter key.** The engine's SQL names the counter by `(tipo, transportadoraId, paisOrigemCodigo, paisDestinoCodigo, licencaComplementar)`. The `number_sequences` table has only `(tipo, transportadoraId)` as its UNIQUE key (`src/config/database.js:94-105`). The counter is keyed by `(tipo, transportadoraId)`.
- **A test the code does not meet.** `test-lastre-logic.js:107-124` expects a Brazilian carrier's licence `123456` to be refused. The code accepts it: `[A-Z]*` matches no letters and `1234` follows. The model follows the code (`TransportadoraService.SixDigitBrazilianLicenceAccepted`).

## Model

| member | source | states |
|---|---|---|
| Response.Success | src/utils/response.js:2-8 | a success response carries the data, no status, and the given message or the default one |
| Response.Error | src/utils/response.js:10-22 | an error response carries the message, the status (400 by default) and an `errors` list only when one is given |
| Response.Fail | src/utils/response.js:10-22 | the services' error form: message and explicit status, no data, no `errors` |
| JsText.IntToString | src/services/documentNumberService.js:119 | `String(n)` is non-empty, all digits for `n >= 0`, starts with '-' for `n < 0`, and has no leading zero except for 0 itself |
| JsText.PadStartSpec | src/services/documentNumberService.js:119 | `padStart` never truncates: the result has length max(len, width), ends with the input and is filler before it |
| JsText.PaddedRoundTrip | src/services/documentNumberService.js:119 | a zero-padded decimal of `n` parses back to `n` |
| JsText.IntToStringInjective | src/services/documentNumberService.js:119 | distinct integers print differently |
| JsText.PaddedIntInjective | src/services/documentNumberService.js:119 | distinct integers stay distinct after zero-padding to a common width, negatives included |
| JsText.ParseIgnoresLeadingZeros | src/services/documentNumberService.js:119 | leading zeros do not change the value a digit string denotes |
| JsArray.Find | src/services/crtService.js:52 | `find` returns the first element satisfying the predicate, or nothing exactly when none does |
| JsArray.FindAgrees | src/services/documentNumberService.js:56-61 | two predicates that agree on every element find the same element |
| JsArray.Filter | src/models/destinationLicenseModel.js:50-62 | `filter` keeps exactly the elements satisfying the predicate and never grows |
| JsArray.FilterCounts | src/models/destinationLicenseModel.js:50-62 | each element satisfying the predicate is kept as often as it occurs in the input, every other element not at all |
| JsArray.FilterAppend | src/models/destinationLicenseModel.js:50-62 | filtering a concatenation is the concatenation of the filtered parts, so the kept elements stay in their original order |
| LicenceCode.LeadingCapitals | src/services/crtService.js:63 | the `[A-Z]*` prefix: all capitals, and maximal |
| LicenceCode.LicenceDigits | src/services/crtService.js:63-68 | the captured group, when there is one, is exactly four digits |
| LicenceCode.RegexSplitIsUnique | src/services/documentNumberService.js:80 | any split where capitals are followed by four digits starts the digits right after the maximal capitals, so the lazy and greedy regexes agree |
| LicenceCode.LicenceDigitsMatchesRegex | src/services/documentNumberService.js:80-83 | the code is found iff the regex matches, and it is then the four digits the regex captures |
| LicenceCode.BrazilianLicenceExample | src/services/crtService.js:62 | `BR6023/1800648` yields `6023` |
| LicenceCode.SixDigitLicenceExample | src/services/transportadoraService.js:49-52 | a licence with no capitals, `123456`, matches the pattern and yields `1234` |
| LicenceCode.ShortLicenceExample | src/services/crtService.js:63-66 | `BR123` does not match |
| Carriers.StartingOffset | src/models/transportadoraModel.js:12 | a stored starting offset is never 0; a given non-zero offset is kept |
| Carriers.CarrierTable.FindById | src/models/transportadoraModel.js:36-48 | finds the carrier iff the id is in the table |
| Carriers.CarrierNullColumn | src/config/database.js:29-33 | the first of `nome`, `pais`, `numeroRegistro` (table order) that is null; none iff all three are present |
| Carriers.CarrierRejected | src/config/database.js:29-38 | a carrier row is refused iff a NOT NULL column is null or the registration number is held by another carrier; the NOT NULL error comes first and names the column |
| Carriers.CarrierTable.Create | src/models/transportadoraModel.js:4-20 | fails iff a NOT NULL column is null or the registration number is taken, with that violation and no change; otherwise adds exactly one row under a fresh id, offsets defaulted to 1 |
| Carriers.CarrierTable.Update | src/models/transportadoraModel.js:50-67 | `false` for an unknown id; a null column or a registration number held by another carrier is refused with no change; otherwise only that row is overwritten, with the offsets as given (a missing one stored as NULL, not defaulted) |
| Sequences.SequenceTable.Upsert | src/services/documentNumberService.js:131-151 | the key ends at the given value and no other counter changes |
| DestinationLicenses.FormatDateToBR | src/models/destinationLicenseModel.js:4-12 | null iff the date is falsy; YYYY-MM-DD becomes a DD/MM/YYYY that reads back as the same date; anything else is unchanged |
| DestinationLicenses.BrDateIsNotIso | src/models/destinationLicenseModel.js:7 | a DD/MM/YYYY date never matches the YYYY-MM-DD pattern |
| DestinationLicenses.FormatDateToBRIdempotent | src/models/destinationLicenseModel.js:4-12 | formatting an already formatted date changes nothing |
| DestinationLicenses.RowsOf | src/models/destinationLicenseModel.js:32-48 | the query returns exactly the carrier's rows, each with its date formatted |
| DestinationLicenses.UniqueKeysAppend | src/config/database.js:50 | adding a row with a new (carrier, destination) key keeps the key unique |
| DestinationLicenses.FilterKeepsUniqueKeys | src/models/destinationLicenseModel.js:50-62 | deleting rows keeps the (carrier, destination) key unique |
| DestinationLicenses.LicenceTable.Create | src/models/destinationLicenseModel.js:14-30 | fails iff the (carrier, destination) key is taken; otherwise appends the row with its date formatted |
| DestinationLicenses.LicenceTable.FindByTransportadora | src/models/destinationLicenseModel.js:32-48 | the loop returns the carrier's rows with formatted dates, as `RowsOf` defines them |
| DestinationLicenses.LicenceTable.DeleteByTransportadora | src/models/destinationLicenseModel.js:50-62 | removes exactly the carrier's rows, keeps the rest in order and returns how many were removed |
| DestinationLicenses.LicenceTable.FindLicenseByDestination | src/models/destinationLicenseModel.js:64-76 | the licence code of the row keyed (carrier, destination), null iff there is none |
| DestinationLicenses.LicenceTable.FindLicenseForCountries | src/models/destinationLicenseModel.js:78-89 | some row of the carrier whose destination is either country, nothing iff no row qualifies |
| CrtStore.NumeroTakenAppend | src/config/database.js:58 | after an append, a number is taken iff it was taken before or is the new row's |
| CrtStore.NullColumn | src/config/database.js:56-68 | the first null column in table order (origin, destination, code, invoice, exporter, importer); none iff none is null |
| CrtStore.Rejected | src/config/database.js:56-68 | a CRT is refused iff a NOT NULL column is null or its number is taken (UNIQUE); the NOT NULL error comes first and names the first null column |
| CrtStore.CrtTable.Create | src/models/crtModel.js:4-20 | fails iff the table would refuse the row, with its violation and no change; otherwise appends it under the next id |
| MicDtaStore.NullColumn | src/config/database.js:75-86 | the first null column in table order (origin, destination, code); none iff none is null |
| MicDtaStore.Rejected | src/config/database.js:75-86 | a MIC-DTA is refused iff a NOT NULL column is null or its number is taken; the NOT NULL error names the first null column |
| MicDtaStore.MicDtaTable.Create | src/models/micDtaModel.js:4-20 | fails iff the table would refuse the row, with no change; otherwise appends it under the next id |
| MicDtaStore.MicDtaTable.LinkToCrt | src/models/micDtaModel.js:23-34 | fails with the primary-key violation iff the pair is already linked; the pair is linked afterwards either way |
| DocumentNumbers.SyntheticLicence | src/services/documentNumberService.js:18-22 | the made-up licence carries the registration number and home country, with an `idoneidade` iff the carrier is not Brazilian |
| DocumentNumbers.GetLicenseForAnyDirection | src/services/documentNumberService.js:7-25 | a stored licence for A wins; else one for B; else the synthetic licence when the carrier's country is A or B; else nothing; throws iff no carrier and no licence |
| DocumentNumbers.GetLicenseForAnyDirectionCRT | src/services/documentNumberService.js:27-51 | its third fallback is subsumed by the second: always the same answer as `getLicenseForAnyDirection` |
| DocumentNumbers.GetLicenseBetweenCountries | src/services/documentNumberService.js:53-62 | a licence of the carrier for either country, nothing iff it has none |
| DocumentNumbers.BetweenCountriesIgnoresOrigin | src/services/documentNumberService.js:56-61 | stored rows carry no origin, so the first search accepts exactly what the second does |
| DocumentNumbers.ComplementaryCodeSpec | src/services/documentNumberService.js:78-86 | BR: the four captured digits, or the code passed in when the pattern fails; others: a truthy `idoneidade`, else `licenca` |
| DocumentNumbers.BrazilianCodeExample | src/services/documentNumberService.js:79-83 | a BR carrier licensed `BR6023/1800648` numbers under `6023` |
| DocumentNumbers.UnmatchedBrazilianCodeKeepsPassed | src/services/documentNumberService.js:78-83 | a BR licence without four digits keeps the code passed in |
| DocumentNumbers.SequenceLayout | src/services/documentNumberService.js:119 | the sequence part is at least five characters, ends with the decimal digits of `n` and reads back as `n` |
| DocumentNumbers.NumeroNeverEmpty | src/services/documentNumberService.js:119-120 | a number always has at least five characters |
| DocumentNumbers.NumeroLayout | src/services/documentNumberService.js:120 | a number splits into origin+code and the padded sequence part |
| DocumentNumbers.FormatNumberInjective | src/services/documentNumberService.js:119-120 | for one origin and code, the number determines the sequence number |
| DocumentNumbers.FormatNumberExample | src/services/documentNumberService.js:119-120 | origin BR, code 6023, sequence 1 give `BR602300001` |
| DocumentNumbers.NegativeSequenceExample | src/services/documentNumberService.js:119 | a negative sequence (a starting offset of 0 or less) pads around its sign: -5 gives `000-5` |
| DocumentNumbers.Batch | src/services/documentNumberService.js:116-128 | the run after `last` has `q` records, the i-th numbered `last+i+1` |
| DocumentNumbers.BatchesAdjacent | src/services/documentNumberService.js:116-128 | two runs taken one after the other form the run of their combined length |
| DocumentNumbers.DistinctSequenceDistinctNumero | src/services/documentNumberService.js:119-120 | distinct sequence numbers give distinct numbers |
| DocumentNumbers.BatchNumerosDistinct | src/services/documentNumberService.js:116-128 | no two records of a run share a number |
| DocumentNumbers.RunNumerosDistinct | src/services/documentNumberService.js:119-127 | records numbered from consecutive sequence numbers under one origin and code have pairwise distinct numbers |
| DocumentNumbers.BatchRecords | src/services/documentNumberService.js:121-127 | field by field, each record of a run: sequence, origin, destination (null when missing), code, number |
| DocumentNumbers.AllocationSucceeds | src/services/documentNumberService.js:64-158 | all checks passed and a qualifying licence gave the code: the run and the advanced counter form the outcome |
| DocumentNumbers.FailedAllocationKeepsCounters | src/services/documentNumberService.js:66-77 | a failed allocation leaves every counter as it was |
| DocumentNumbers.SuccessfulAllocationPassedChecks | src/services/documentNumberService.js:66-77 | a successful allocation had distinct countries, a known carrier and a licence for the route |
| DocumentNumbers.SuccessfulAllocation | src/services/documentNumberService.js:74-128 | a successful allocation's run uses the code of some licence of the carrier for origin or destination, after the last number issued, and the counter moves by `q` |
| DocumentNumbers.AllocatedRecords | src/services/documentNumberService.js:107-145 | `q` records numbered `last+1..last+q`, one code, the request's countries, distinct numbers; the counter ends at the last one returned |
| DocumentNumbers.SuccessiveAllocationsAdjacent | src/services/documentNumberService.js:107-145 | two successive allocations on one key return adjacent, disjoint runs |
| DocumentNumbers.FreshCarrierExample | src/services/documentNumberService.js:107-114 | a carrier starting at 1 gets 1, 2, 3 and then 4, 5 |
| DocumentNumbers.TakeNumbers | src/services/documentNumberService.js:107-151 | the loop returns the run after the stored value (or the seed) and stores its last number |
| DocumentNumbers.GetNextNumbers | src/services/documentNumberService.js:64-158 | the outcome of the allocation; succeeds iff origin differs from destination, the carrier exists and holds a licence for origin or destination |
| DocumentNumbers.GetNextNumbersForLastre | src/services/documentNumberService.js:160-163 | a MIC-DTA allocation with no code passed in |
| CrtService.CrtPrecheck | src/services/crtService.js:21-78 | 404 iff the carrier is unknown; success needs valid (defaulted) origin and destination; the code is absent iff the destination is the carrier's country, four digits for BR, non-empty otherwise |
| CrtService.FoundIsTheKeyedRow | src/services/crtService.js:51-52 | with the key unique, the destination lookup finds the carrier's one licence for that destination |
| CrtService.PrecheckAccepts | src/services/crtService.js:21-78 | the checks pass iff the carrier exists, both countries are valid, and the destination is home or has a stored licence yielding a code |
| CrtService.PrecheckRefusals | src/services/crtService.js:27-58 | for a known carrier, in order: invalid (defaulted) origin 400, missing destination 400, invalid destination 400; a home destination needs no code; otherwise 400 "no licence for destination" iff no stored licence has the key (carrier, destination) |
| CrtService.LookupMissesIffUnkeyed | src/services/crtService.js:51-53 | the destination lookup over the carrier's rows finds nothing iff no stored licence has the key (carrier, destination) |
| CrtService.PrecheckCode | src/services/crtService.js:59-77 | past the 400s, a BR carrier's keyed licence gives its four digits or, off pattern, the 500 naming the licence; a foreign carrier's gives its idoneidade or, without one, the 500 asking for it |
| CrtService.OriginLicenceDoesNotCount | src/services/crtService.js:50-58 | a carrier with a licence only for the origin is refused 400 although the engine alone would accept the route |
| CrtService.InsertAllStopsAtFirstRefusal | src/services/crtService.js:94-108 | the inserts stop at the first refused CRT: the rows before it are appended under consecutive ids, and the error is that CRT's violation |
| CrtService.InsertAllSucceeds | src/services/crtService.js:94-108 | CRTs with no null column and new, pairwise distinct numbers are all inserted |
| CrtService.CheckRequest | src/services/crtService.js:21-78 | the checks as run on the tables equal `CrtPrecheck` |
| CrtService.InsertCrts | src/services/crtService.js:91-108 | the insert loop's table and result are those of `InsertAll` |
| CrtService.Create | src/services/crtService.js:9-114 | the answer and the new counters and rows are the outcome of checks, allocation and inserts; a refused check changes nothing |
| CrtService.MissingPartyCreatesNothing | src/services/crtService.js:94-112 | a request without invoice, exporter or importer creates no CRT; when the checks pass, the numbers are drawn and the answer is a 500 |
| CrtService.SuccessfulCreate | src/services/crtService.js:80-110 | a success returns `quantidade` CRTs numbered after the last issued, under consecutive ids, with distinct numbers, appended to the table; the counter ends at the last |
| CrtService.SuccessfulInsert | src/services/crtService.js:80-110 | once the engine allocated the numbers, a success returns one CRT per number, numbered after the last issued, under consecutive ids, with distinct numbers; the counter ends at the last |
| CrtService.InsertedRun | src/services/crtService.js:94-108 | a run inserted in full appends one CRT per record, in order, with the record's sequence number, consecutive ids, the request's destination and carrier, and distinct numbers |
| MicDtaService.LinkAllSucceedsIff | src/services/micDtaService.js:36-38 | linking succeeds iff no id is linked already and none repeats; it then adds exactly the new pairs |
| MicDtaService.LinkCrts | src/services/micDtaService.js:36-38 | the linking loop's links and error are those of `LinkAll` |
| MicDtaService.Store | src/services/micDtaService.js:28-39 | what `create` does with the engine's records: number check, insert, links |
| MicDtaService.Create | src/services/micDtaService.js:11-65 | the answer and new state are the outcome of the kind check, a one-number allocation, the insert and the links |
| MicDtaService.InvalidTipoDrawsNothing | src/services/micDtaService.js:59-61 | an unknown kind is refused 400 and changes nothing |
| MicDtaService.NumberFailureAfterAdvance | src/services/micDtaService.js:28-31 | the 'number failure' answer means the drawn sequence number was 0, and the counter has already moved to it |
| MicDtaService.PrefixedIsNotNumberFailure | src/services/micDtaService.js:28-63 | a caught error's message never equals the number-failure message |
| MicDtaService.SuccessfulNormalCreate | src/services/micDtaService.js:14-39 | a NORMAL success drew the next MIC-DTA number, stored one row under the next id and linked it to every requested CRT |
| MicDtaService.AddCrtsToMicDta | src/services/micDtaService.js:76-88 | 400 without a non-empty list; otherwise the links and the answer are those of linking each id in turn |
| TransportadoraService.DestinationError | src/services/transportadoraService.js:37-58 | a destination passes iff its country is valid, it has a licence, a BR carrier's licence matches the pattern and a foreign carrier has an idoneidade |
| TransportadoraService.SixDigitBrazilianLicenceAccepted | src/services/transportadoraService.js:47-53 | a BR carrier's licence `123456` passes the check |
| TransportadoraService.ForeignDestinationNeedsIdoneidade | src/services/transportadoraService.js:55-58 | a foreign carrier with an empty idoneidade is refused |
| TransportadoraService.AddAllAddsAPrefix | src/services/transportadoraService.js:33-67 | the licences added are those of a prefix of the destinations, each having passed its checks |
| TransportadoraService.AllDestinationsAdded | src/services/transportadoraService.js:33-67 | a loop that ends without a message added one licence per destination, in order, and every destination passed its checks |
| TransportadoraService.AddAllSucceedsIff | src/services/transportadoraService.js:33-67 | all destinations are added iff each passes its checks and their countries are new to the carrier and distinct |
| TransportadoraService.AddDestinations | src/services/transportadoraService.js:34-67 | the destination loop's table and message are those of `AddAll` |
| TransportadoraService.GetById | src/services/transportadoraService.js:97-111 | success iff the carrier exists, with the carrier and all its licences (every stored one, date-formatted, and no other); otherwise 404 |
| TransportadoraService.WriteFailure | src/services/transportadoraService.js:74-79 | a refused carrier write answers 400 "Número de registro já existe" iff it is a unique violation; otherwise 500 with the prefixed error text |
| TransportadoraService.Create | src/services/transportadoraService.js:7-80 | the answer and new tables are the outcome of the country check, the carrier insert (null column: 500, taken number: 400, nothing written) and the destination loop |
| TransportadoraService.CreateWithNullColumnWritesNothing | src/services/transportadoraService.js:24-30 | a request without name or registration number writes nothing; with a valid country it answers 500 with the NOT NULL text |
| TransportadoraService.SuccessfulCreate | src/services/transportadoraService.js:7-73 | a success returns the new carrier (offsets default to 1) and adds exactly its destinations' licences, in order |
| TransportadoraService.RefusedDestinationKeepsCarrier | src/services/transportadoraService.js:24-58 | a refused destination answers 400 but the carrier row and the earlier licences stay |
| TransportadoraService.Update | src/services/transportadoraService.js:113-186 | the answer and new tables are the outcome of the country check, the carrier update (unknown id: 404; null column: 500; taken number: 400), the delete and the destination loop |
| TransportadoraService.UpdateWithNullColumnWritesNothing | src/services/transportadoraService.js:129-139 | an update without name or registration number writes nothing; for a known carrier with a valid country it answers 500 |
| TransportadoraService.SuccessfulUpdateReplacesLicences | src/services/transportadoraService.js:141-179 | after a success, other carriers' licences are untouched and the carrier's licences are exactly its new destinations |
| TransportadoraService.FilterOfOthersThenMine | src/services/transportadoraService.js:143-177 | after the delete and re-insert, keeping the carrier's licences leaves exactly the new ones |
| TransportadoraService.NoneKept | src/models/destinationLicenseModel.js:50-62 | after the delete, no licence of the carrier remains |
| LicenseService.StatusOf | src/services/licenseService.js:20-23 | expired iff negative days, expiring soon iff 0..180, valid iff more than 180 |
| LicenseService.CarrierEntriesSpec | src/services/licenseService.js:14-29 | one entry per licence of a carrier, in order, with the carrier, days left and status; fails iff some licence has no date |
| LicenseService.MissingExpiryAppend | src/services/licenseService.js:13-17 | a missing date among the carriers is among the first ones or the last one's |
| LicenseService.AllEntriesSpec | src/services/licenseService.js:13-34 | the listing fails iff a licence has no date; otherwise `all` has one entry per licence of the listed carriers |
| LicenseService.BucketsPartition | src/services/licenseService.js:30-32 | every entry is in exactly the bucket of its status, and the bucket sizes add up to the size of `all` |
| LicenseService.BucketedAppend | src/services/licenseService.js:24-32 | a new entry goes to the end of `all` and of its status's bucket only |
| LicenseService.AddCarrier | src/services/licenseService.js:15-33 | the inner loop appends the carrier's entries to `all` and each to its bucket, or stops at a licence without a date |
| LicenseService.AddCarrierStep | src/services/licenseService.js:17-32 | one dated licence more extends the carrier's entries, `all`, and exactly the bucket of its status |
| LicenseService.GetAllLicensesWithValidity | src/services/licenseService.js:6-39 | 500 iff some licence has no date; otherwise success with `all` carrier by carrier and the three buckets in the order of `all` |

## Left out

- DocumentNumbers.GetNextNumbers: the counter is keyed by (tipo, carrier) as the table's UNIQUE key says. The SQL's extra columns (origin, destination, code) do not exist in `number_sequences`, so the lookup by them is not modelled.
- DocumentNumbers.GetNextNumbers: the read and the write of the counter are two SQL statements. Concurrent calls interleaving between them are not modelled; each call runs alone.
- DocumentNumbers.GetNextNumbers: `quantidade` must be 1..100, the bound the controllers enforce before calling. The engine is not modelled for other values.
- CrtService.Create: requires `quantidade` 1..100, as the controller enforces.
- Database errors other than constraint violations, such as I/O or a locked database, are not modelled.
- Storage failures inside the engine (`reject(err)`) are not modelled.
- Foreign keys are not enforced: the connection never turns on `PRAGMA foreign_keys`. Links to unknown CRTs or MIC-DTAs are accepted, as in the source.
- Unique violations are assumed to arrive with `error.code == 'SQLITE_CONSTRAINT_UNIQUE'`. A duplicate registration number or a duplicate (carrier, destination) licence therefore answers 400 'Número de registro já existe'. A NOT NULL violation carries another code and answers 500. The SQLite driver's own error codes are not part of this model.
- The SQLite driver's `lastID` is modelled as a per-table `nextId` counter.
- `undefined` and `null` request fields are not told apart: both are `""` or `None`.
- Spread fields the request carries beyond those the tables store (`...data`, `...lic`) are not modelled.
- The clock is not modelled. `DateUtils.getCurrentDate` and `new Date().toISOString()` are the `today` parameter; `src/utils/dateUtils.js` is not part of this model.
- LicenseService.GetAllLicensesWithValidity: `daysLeft` stands for `Math.ceil((venc - now) / 86400000)` on the date rebuilt from DD/MM/YYYY. Floating point and an unparsable date are not modelled. In the source, an unparsable date gives `NaN` days and the status "valid".
- LicenseService.GetAllLicensesWithValidity: carriers are given in the order `findAll` returns them (ordered by name). The SQL sort itself is not modelled.
- `COUNTRIES` (`src/config/countries.js`) is not part of this model. It is a set of codes given as a parameter, and every entry in it is assumed truthy.
- `getAll`, `getById` and the `getBy…` queries of the CRT and MIC-DTA services, `delete` of carriers, `getCrtsByMicDta`, and the dashboard, controllers, routes and middleware are outside the modelled core.
- `getAvailableCountries` only lists `COUNTRIES` and is not modelled.
- The MIC-DTA controller passes `crtId` rather than `crtIds`. The service is modelled as written, taking `crtIds`.
- Logging (`console.log`) is not modelled.
- TransportadoraService.Update: `ApiResponse.success(null, …)` carries `()` as its data.
