# QSO log backend — a Dafny model

This project models the core of a ham-radio contact log (QSO log) backend. Operators record their
contacts (QSOs): callsign, date, time, band, mode and submode, frequency, signal reports, QTH,
grid square, notes and three confirmation statuses (QSL, LoTW, eQSL). The backend validates
those records, rejects likely duplicates, stores them per owner, lists and counts them, exports
them as ADIF or CSV, suggests data for a callsign from the operator's own history, and looks
callsigns up on HamQTH behind a 24-hour cache.

The Dafny modules follow the program's own layers:

| module | file | models |
|---|---|---|
| `Common` | common.dfy | `Option` and `Result`, standing in for Java's `null` and for failed `Mono`s |
| `Text` | text.dfy | the `String` operations the core relies on: `isBlank`, `trim`, case mapping, `indexOf`, `length()` in UTF-16 units, decimal printing, `StringBuilder` |
| `Temporal`, `Ids` | temporal.dfy, ids.dfy | `LocalDate`, `LocalTime`, `Instant`, their `yyyyMMdd`/`HHmmss` formats and chronological order; `UUID` and its text form |
| `Enums`, `Bands` | enums.dfy, band.dfy | the mode, submode and status enums; `Band` with its 27 ADIF tokens and `fromAdifValue` |
| `Validator` | validator.dfy | `QsoValidator`: band-token and mode/submode/custom-mode rules |
| `QsoEntity` | qso.dfy | the `Qso` entity as a class with its fields, constructors and setters, and its value snapshot |
| `Grouping`, `Repository` | grouping.dfy, repository.dfy | `QsoRepository`: a store of rows with the derived queries, the SQL queries of the interface, the statistics queries and the per-callsign queries |
| `Service` | service.dfy | `QsoService`: create with validation and duplicate detection, find, list, update, delete, count |
| `Controller` | controller.dfy | `QsoController`: HTTP status, duplicate-warning body and the two-step update |
| `Decimal` | decimal.dfy | the `BigDecimal` arithmetic behind FREQ: HALF_UP division, `stripTrailingZeros`, `toPlainString` and `toString` |
| `Adif`, `Csv`, `Export` | adif.dfy, csv.dfy, export.dfy | `ExportService`: the ADIF record and document, the CSV escaping, row and document, and which QSOs are exported |
| `ExportEndpoints` | exportcontroller.dfy | `ExportController`: the file name and the two download endpoints |
| `Suggestions` | suggestions.dfy | `SuggestionsService`: the name heuristic, the notes snippet and the suggestion |
| `HamQth` | hamqth.dfy | `HamQthCallsignLookupAdapter`: XML value extraction, session-id and callsign parsing, and the cache |

Objects that the source updates in place are classes with `modifies` clauses: the `Qso` entity,
the repository (`Repository.Store`, whose `rows` sequence its methods reassign), the service and
controller objects working on it, the `StringBuilder` that ADIF records and file names are built
in, and the HamQTH cache (`HamQth.LookupCache`). Each of their methods is proved against a
function on values (for example `CreateOutcome`, `AdifRecord` and `LookupOutcome`). The
properties of the source are then proved about those functions. Pure computations are functions
and lemmas. Java `null` becomes `None`, and thrown exceptions and failed `Mono`s become
`Result` errors carrying the HTTP status the source gives them.

## Model

Definitions that only compute a value and carry no contract of their own (such as `FetchQsos`,
`CreateOutcome`, `AdifRecord`, `FormatQsoAsCsv` and `StatsByBand`) have no row. The rows name the
lemmas and methods that state their properties.

| member | source | states |
|---|---|---|
| Bands.TokenCharsAreLowerCase | backend/src/main/java/com/pl/shugo/gsolog/domain/enums/Band.java:7-33 | every band token consists of digits, '.', 'c' and 'm', so lower-casing leaves it unchanged |
| Bands.AdifValueInjective | backend/src/main/java/com/pl/shugo/gsolog/domain/enums/Band.java:7-33 | two constants have the same token exactly when they are the same constant |
| Bands.ValuesInDeclarationOrder | backend/src/main/java/com/pl/shugo/gsolog/domain/enums/Band.java:7-33 | `values()` has 27 entries and the i-th entry is the i-th declared constant |
| Bands.ValuesEnumerateBands | backend/src/main/java/com/pl/shugo/gsolog/domain/enums/Band.java:7-33 | `values()` contains every band, and contains each band once |
| Bands.TokensDistinctIgnoringCase | backend/src/main/java/com/pl/shugo/gsolog/domain/enums/Band.java:7-33 | two tokens are equal ignoring case exactly when their bands are equal |
| Bands.FindByToken | backend/src/main/java/com/pl/shugo/gsolog/domain/enums/Band.java:46-50 | the loop returns a band from the scanned list whose token equals the input ignoring case; it returns nothing exactly when no band in the list matches |
| Bands.FromAdifValue | backend/src/main/java/com/pl/shugo/gsolog/domain/enums/Band.java:45-52 | a found band's token equals the input ignoring case; the lookup fails exactly when no band matches, and the failure carries "Unknown ADIF band: " followed by the input |
| Bands.FromAdifValueOfCaseVariant | backend/src/main/java/com/pl/shugo/gsolog/domain/enums/Band.java:45-52 | any capitalisation of a band's token yields exactly that band |
| Bands.FromAdifValueRoundTrip | backend/src/main/java/com/pl/shugo/gsolog/domain/enums/Band.java:41-52 | `fromAdifValue(b.getAdifValue())` gives back b, and so does the upper-cased token |
| Enums.ModeNameInjective | backend/src/main/java/com/pl/shugo/gsolog/domain/enums/AdifMode.java:6-15 | distinct modes have distinct `name()` texts, so comparing stored mode text compares modes |
| Enums.SubmodeNameInjective | backend/src/main/java/com/pl/shugo/gsolog/domain/enums/AdifSubmode.java:6-20 | distinct submodes have distinct `name()` texts |
| Validator.RequiredMode | backend/src/main/java/com/pl/shugo/gsolog/domain/validation/QsoValidator.java:19-29 | FT8, FT4 and JS8 require MFSK; PSK31, PSK63 and PSK125 require PSK; no other submode is constrained |
| Validator.ValidateModeConfiguration | backend/src/main/java/com/pl/shugo/gsolog/domain/validation/QsoValidator.java:41-64 | the returned list is exactly the violation messages, custom-mode rule first and then the submode rule, in the order they are added |
| Validator.ModeViolationsEmptyIffValid | backend/src/main/java/com/pl/shugo/gsolog/domain/validation/QsoValidator.java:41-64 | the list is empty exactly when all rules hold: a present custom mode requires DATA and no submode, and an MFSK or PSK submode requires its own mode |
| Validator.ModeViolationsAtMostThree | backend/src/main/java/com/pl/shugo/gsolog/domain/validation/QsoValidator.java:44-61 | each check adds at most one message, so there are at most three |
| Validator.CustomModeMessages | backend/src/main/java/com/pl/shugo/gsolog/domain/validation/QsoValidator.java:44-52 | with a present custom mode, a mode other than DATA puts the DATA message first; a submode adds the submode message, after the DATA message when both apply |
| Validator.BlankCustomModeIgnored | backend/src/main/java/com/pl/shugo/gsolog/domain/validation/QsoValidator.java:45-52 | a null or blank custom mode gives the same messages as no custom mode, and neither custom-mode message |
| Validator.WrongFamilyGivesOneMessage | backend/src/main/java/com/pl/shugo/gsolog/domain/validation/QsoValidator.java:55-60 | an MFSK or PSK submode under the wrong mode adds exactly one message, naming the submode, the required mode and the given mode |
| Validator.UnconstrainedSubmodes | backend/src/main/java/com/pl/shugo/gsolog/domain/validation/QsoValidator.java:55-60 | JT65, JT9, OLIVIA and CONTESTIA never violate the submode rule |
| Validator.IsValidBand | backend/src/main/java/com/pl/shugo/gsolog/domain/validation/QsoValidator.java:71-81 | a band is valid exactly when it is present, not blank, and equal ignoring case to some band token |
| Validator.BandTokensNotBlank | backend/src/main/java/com/pl/shugo/gsolog/domain/validation/QsoValidator.java:72-77 | no band token is blank, so the blank test only rejects texts the lookup would reject anyway |
| Validator.UpperCaseBandIsValid | backend/src/main/java/com/pl/shugo/gsolog/domain/validation/QsoValidator.java:71-81 | "20M" is valid |
| Validator.UnknownBandIsInvalid | backend/src/main/java/com/pl/shugo/gsolog/domain/validation/QsoValidator.java:71-81 | "21m" is invalid |
| Validator.MissingBandIsInvalid | backend/src/main/java/com/pl/shugo/gsolog/domain/validation/QsoValidator.java:72-74 | null and blank bands are invalid |
| Validator.BandValidationError | backend/src/main/java/com/pl/shugo/gsolog/domain/validation/QsoValidator.java:86-88 | the message is "Invalid band '", then the band (or "null" when it is absent), then "'. Must be a valid ADIF band (e.g., 160m, 80m, 40m, 20m, etc.)" |
| QsoEntity.Qso.constructor | backend/src/main/java/com/pl/shugo/gsolog/domain/entity/Qso.java:60-85 | every argument is stored in the field of the same name |
| QsoEntity.Qso.Create | backend/src/main/java/com/pl/shugo/gsolog/domain/entity/Qso.java:88-114 | the new object holds the given owner and contact fields, the supplied id, statuses NONE / UNKNOWN / UNKNOWN, `createdAt` from the first clock reading and `updatedAt` from the second |
| QsoEntity.Qso.SetId | backend/src/main/java/com/pl/shugo/gsolog/domain/entity/Qso.java:121-123 | the field takes the new value and every other field is unchanged |
| QsoEntity.Qso.SetUserId | backend/src/main/java/com/pl/shugo/gsolog/domain/entity/Qso.java:129-131 | the field takes the new value and every other field is unchanged |
| QsoEntity.Qso.SetTheirCallsign | backend/src/main/java/com/pl/shugo/gsolog/domain/entity/Qso.java:137-139 | the field takes the new value and every other field is unchanged |
| QsoEntity.Qso.SetQsoDate | backend/src/main/java/com/pl/shugo/gsolog/domain/entity/Qso.java:145-147 | the field takes the new value and every other field is unchanged |
| QsoEntity.Qso.SetTimeOn | backend/src/main/java/com/pl/shugo/gsolog/domain/entity/Qso.java:153-155 | the field takes the new value and every other field is unchanged |
| QsoEntity.Qso.SetBand | backend/src/main/java/com/pl/shugo/gsolog/domain/entity/Qso.java:161-163 | the field takes the new value and every other field is unchanged |
| QsoEntity.Qso.SetFrequencyKhz | backend/src/main/java/com/pl/shugo/gsolog/domain/entity/Qso.java:169-171 | the field takes the new value and every other field is unchanged |
| QsoEntity.Qso.SetMode | backend/src/main/java/com/pl/shugo/gsolog/domain/entity/Qso.java:177-179 | the field takes the new value and every other field is unchanged |
| QsoEntity.Qso.SetSubmode | backend/src/main/java/com/pl/shugo/gsolog/domain/entity/Qso.java:185-187 | the field takes the new value and every other field is unchanged |
| QsoEntity.Qso.SetCustomMode | backend/src/main/java/com/pl/shugo/gsolog/domain/entity/Qso.java:193-195 | the field takes the new value and every other field is unchanged |
| QsoEntity.Qso.SetRstSent | backend/src/main/java/com/pl/shugo/gsolog/domain/entity/Qso.java:201-203 | the field takes the new value and every other field is unchanged |
| QsoEntity.Qso.SetRstRecv | backend/src/main/java/com/pl/shugo/gsolog/domain/entity/Qso.java:209-211 | the field takes the new value and every other field is unchanged |
| QsoEntity.Qso.SetQth | backend/src/main/java/com/pl/shugo/gsolog/domain/entity/Qso.java:217-219 | the field takes the new value and every other field is unchanged |
| QsoEntity.Qso.SetGridSquare | backend/src/main/java/com/pl/shugo/gsolog/domain/entity/Qso.java:225-227 | the field takes the new value and every other field is unchanged |
| QsoEntity.Qso.SetNotes | backend/src/main/java/com/pl/shugo/gsolog/domain/entity/Qso.java:233-235 | the field takes the new value and every other field is unchanged |
| QsoEntity.Qso.SetQslStatus | backend/src/main/java/com/pl/shugo/gsolog/domain/entity/Qso.java:241-243 | the field takes the new value and every other field is unchanged |
| QsoEntity.Qso.SetLotwStatus | backend/src/main/java/com/pl/shugo/gsolog/domain/entity/Qso.java:249-251 | the field takes the new value and every other field is unchanged |
| QsoEntity.Qso.SetEqslStatus | backend/src/main/java/com/pl/shugo/gsolog/domain/entity/Qso.java:257-259 | the field takes the new value and every other field is unchanged |
| QsoEntity.Qso.SetCreatedAt | backend/src/main/java/com/pl/shugo/gsolog/domain/entity/Qso.java:265-267 | the field takes the new value and every other field is unchanged |
| QsoEntity.Qso.SetUpdatedAt | backend/src/main/java/com/pl/shugo/gsolog/domain/entity/Qso.java:273-275 | the field takes the new value and every other field is unchanged |
| QsoEntity.Load | backend/src/main/java/com/pl/shugo/gsolog/domain/entity/Qso.java:60-85 | loading a stored row gives a new entity object whose state is exactly that row |
| Text.IsBlankAllWhitespace | backend/src/main/java/com/pl/shugo/gsolog/application/service/ExportService.java:158 | `isBlank` holds exactly when every character is whitespace |
| Text.TrimLeading | backend/src/main/java/com/pl/shugo/gsolog/application/service/SuggestionsService.java:82 | the result is a suffix that starts above U+0020, and everything dropped is at most U+0020 |
| Text.TrimTrailing | backend/src/main/java/com/pl/shugo/gsolog/application/service/SuggestionsService.java:82 | the result is a prefix that ends above U+0020, and everything dropped is at most U+0020 |
| Text.Trim | backend/src/main/java/com/pl/shugo/gsolog/application/service/SuggestionsService.java:82 | `trim()` gives the slice of the input left after dropping every character at or below U+0020 from both ends; the slice neither starts nor ends with such a character |
| Text.LowerChar | backend/src/main/java/com/pl/shugo/gsolog/application/service/SuggestionsService.java:78 | ASCII capitals map to their small letters and every other character is unchanged |
| Text.UpperChar | backend/src/main/java/com/pl/shugo/gsolog/application/service/SuggestionsService.java:58 | ASCII small letters map to their capitals and every other character is unchanged |
| Text.ToLower | backend/src/main/java/com/pl/shugo/gsolog/application/service/SuggestionsService.java:78 | the lower-cased text maps each character by LowerChar |
| Text.ToUpper | backend/src/main/java/com/pl/shugo/gsolog/application/service/SuggestionsService.java:58 | the upper-cased text maps each character by UpperChar |
| Text.EqualsIgnoreCaseSymmetric | backend/src/main/java/com/pl/shugo/gsolog/domain/enums/Band.java:47 | `equalsIgnoreCase` is symmetric |
| Text.IndexOfFrom | backend/src/main/java/com/pl/shugo/gsolog/infrastructure/adapter/HamQthCallsignLookupAdapter.java:151-152 | `indexOf(sub, from)` gives the first occurrence at or after `from`, or -1 when there is none |
| Text.IndexOf | backend/src/main/java/com/pl/shugo/gsolog/infrastructure/adapter/HamQthCallsignLookupAdapter.java:151-152 | `indexOf` is -1 exactly when the text does not occur, and otherwise the first occurrence |
| Text.ContainsChar | backend/src/main/java/com/pl/shugo/gsolog/application/service/ExportService.java:194 | containing a one-character text is containing that character |
| Text.DigitChar | backend/src/main/java/com/pl/shugo/gsolog/application/service/ExportService.java:159 | a digit's character is '0' to '9' and stands for that digit |
| Text.NatToString | backend/src/main/java/com/pl/shugo/gsolog/application/service/ExportService.java:159 | a number prints as at least one digit, one digit exactly when it is below 10, with no leading zero |
| Text.DigitsValueOfNatToString | backend/src/main/java/com/pl/shugo/gsolog/application/service/ExportService.java:159 | the printed digits read back as the number |
| Text.NatToStringLength | backend/src/main/java/com/pl/shugo/gsolog/application/service/ExportService.java:159 | a number below 10^k prints in at most k digits |
| Text.ZeroPad | backend/src/main/java/com/pl/shugo/gsolog/application/service/ExportService.java:23-24 | zero padding gives at least `width` digits, and exactly `width` for a number below 10^width |
| Text.ZeroPadValue | backend/src/main/java/com/pl/shugo/gsolog/application/service/ExportService.java:23-24 | the padded digits read back as the number |
| Text.FindChar | backend/src/main/java/com/pl/shugo/gsolog/application/service/SuggestionsService.java:80-81 | `indexOf(c)` with the length for "absent": the first position of the character, or the length when it is absent |
| Text.FindCharAppend | backend/src/main/java/com/pl/shugo/gsolog/application/service/SuggestionsService.java:80-81 | searching past a prefix without the character adds the prefix's length |
| Text.Utf16Length | backend/src/main/java/com/pl/shugo/gsolog/application/service/ExportService.java:159 | `length()` counts UTF-16 code units, one or two per character |
| Text.Utf16LengthAscii | backend/src/main/java/com/pl/shugo/gsolog/application/service/ExportService.java:159 | for ASCII text `length()` is the number of characters |
| Text.StringLessTotal | backend/src/main/java/com/pl/shugo/gsolog/domain/repository/QsoRepository.java:155 | text order relates any two distinct texts |
| Text.StringBuilder.constructor | backend/src/main/java/com/pl/shugo/gsolog/application/service/ExportService.java:97 | a new builder holds the initial text |
| Text.StringBuilder.Append | backend/src/main/java/com/pl/shugo/gsolog/application/service/ExportService.java:159 | appending adds exactly the given text at the end |
| Temporal.PlusYears | backend/src/main/java/com/pl/shugo/gsolog/application/service/ExportService.java:84-86 | `plusYears(n)` moves the year by n and keeps month and day, except that 29 February becomes 28 February in a common year |
| Temporal.BasicIsoDate | backend/src/main/java/com/pl/shugo/gsolog/application/service/ExportService.java:23 | `yyyyMMdd` prints eight characters for a four-digit year |
| Temporal.BasicIsoDateValue | backend/src/main/java/com/pl/shugo/gsolog/application/service/ExportService.java:23 | those eight characters are digits that read back as year, month and day |
| Temporal.BasicIsoDateInjective | backend/src/main/java/com/pl/shugo/gsolog/api/controller/ExportController.java:32 | two dates with four-digit years print alike exactly when they are the same date |
| Temporal.CompactTime | backend/src/main/java/com/pl/shugo/gsolog/application/service/ExportService.java:24 | `HHmmss` prints six characters |
| Temporal.CompactTimeValue | backend/src/main/java/com/pl/shugo/gsolog/application/service/ExportService.java:24 | `HHmmss` prints only digits, and its three two-digit pairs read back as the hour, the minute and the second |
| Temporal.CompactTimeInjective | backend/src/main/java/com/pl/shugo/gsolog/application/service/ExportService.java:24 | two times print the same `HHmmss` exactly when their hour, minute and second agree |
| Temporal.DateKeyOrder | backend/src/main/java/com/pl/shugo/gsolog/domain/repository/QsoRepository.java:125 | the date key orders exactly as the calendar does, and equal keys are equal dates |
| Temporal.TimeKeyOrder | backend/src/main/java/com/pl/shugo/gsolog/domain/repository/QsoRepository.java:125 | the time key orders exactly as the clock does |
| Temporal.DateTimeKeyOrder | backend/src/main/java/com/pl/shugo/gsolog/domain/repository/QsoRepository.java:125 | `ORDER BY qso_date, time_on`: comparing keys is comparing by date, then by time of day |
| Ids.UuidToString | backend/src/main/java/com/pl/shugo/gsolog/application/service/QsoService.java:74-77 | a UUID prints as 36 characters: hex digits in groups of 8-4-4-4-12 separated by dashes |
| Ids.HexPadValue | backend/src/main/java/com/pl/shugo/gsolog/application/service/QsoService.java:74-77 | a number below 16^w, padded to w hexadecimal digits, reads back as the number |
| Ids.HexPadSplit | backend/src/main/java/com/pl/shugo/gsolog/application/service/QsoService.java:74-77 | padding to w + k hexadecimal digits is the w digits of the number shifted right by k places, followed by its low k digits |
| Ids.UuidGroups | backend/src/main/java/com/pl/shugo/gsolog/application/service/QsoService.java:74-77 | the five dash-separated groups of a printed UUID are its hexadecimal digits shifted right by 24, 20, 16, 12 and 0 places |
| Ids.UuidToStringValue | backend/src/main/java/com/pl/shugo/gsolog/application/service/QsoService.java:74-77 | the 32 hexadecimal digits of a printed UUID, dashes removed, read back as the UUID |
| Ids.UuidToStringInjective | backend/src/main/java/com/pl/shugo/gsolog/application/service/QsoService.java:74-77 | two UUIDs print the same exactly when they are equal, so the duplicate message names each duplicate distinctly |
| Ids.UuidListToString | backend/src/main/java/com/pl/shugo/gsolog/application/service/QsoService.java:74-77 | a list of ids prints as `[`, each id's 36-character text in order separated by ", ", then `]`; the empty list prints as `[]` |
| Repository.Where | backend/src/main/java/com/pl/shugo/gsolog/domain/repository/QsoRepository.java:118-124 | the result holds exactly the stored rows meeting the WHERE condition, and no more rows than are stored |
| Repository.WhereAll | backend/src/main/java/com/pl/shugo/gsolog/domain/repository/QsoRepository.java:118-124 | a condition every row meets keeps all rows, in order |
| Repository.WhereSplit | backend/src/main/java/com/pl/shugo/gsolog/domain/repository/QsoRepository.java:118-124 | the rows a condition keeps and the rows its negation keeps add up to all rows |
| Repository.InsertByKey | backend/src/main/java/com/pl/shugo/gsolog/domain/repository/QsoRepository.java:125 | inserting into a sorted list gives a sorted list one longer, made of the new row and the old rows |
| Repository.InsertByKeyMultiset | backend/src/main/java/com/pl/shugo/gsolog/domain/repository/QsoRepository.java:125 | insertion adds exactly the new row to the multiset of rows |
| Repository.SortByKey | backend/src/main/java/com/pl/shugo/gsolog/domain/repository/QsoRepository.java:125 | the result is sorted by the key and as long as the input |
| Repository.SortByKeyPermutes | backend/src/main/java/com/pl/shugo/gsolog/domain/repository/QsoRepository.java:125 | sorting is a permutation: the same multiset of rows |
| Repository.SortByKeySameRows | backend/src/main/java/com/pl/shugo/gsolog/domain/repository/QsoRepository.java:125 | sorting keeps exactly the same rows |
| Repository.Window | backend/src/main/java/com/pl/shugo/gsolog/domain/repository/QsoRepository.java:126 | `LIMIT`/`OFFSET` gives at most `limit` rows, none when the offset is past the end, and the i-th is the row at `offset + i` |
| Repository.WindowWhole | backend/src/main/java/com/pl/shugo/gsolog/domain/repository/QsoRepository.java:126 | a limit at least the number of rows with offset 0 keeps every row |
| Repository.WindowSorted | backend/src/main/java/com/pl/shugo/gsolog/domain/repository/QsoRepository.java:125-126 | a window cut out of a sorted list is sorted |
| Repository.FindByUserIdOldestFirst | backend/src/main/java/com/pl/shugo/gsolog/application/service/ExportService.java:78-79 | `findByUserId` with the export's page request: oldest first by date and time, only the owner's stored rows, and (below `Integer.MAX_VALUE` rows) all of them |
| Repository.FindByIdAndUserId | backend/src/main/java/com/pl/shugo/gsolog/domain/repository/QsoRepository.java:30 | a found row is stored, with that id and owner; nothing is found exactly when no stored row has both |
| Repository.Deleted | backend/src/main/java/com/pl/shugo/gsolog/domain/repository/QsoRepository.java:35 | the rows left are exactly the stored rows except those with that id and owner |
| Repository.FindPotentialDuplicates | backend/src/main/java/com/pl/shugo/gsolog/domain/repository/QsoRepository.java:41-55 | `findPotentialDuplicates` returns exactly the stored rows whose owner, callsign, date, band and mode text equal the given ones |
| Repository.DuplicateKey | backend/src/main/java/com/pl/shugo/gsolog/domain/repository/QsoRepository.java:41-55 | a stored row is a potential duplicate exactly when owner, callsign, date, band and mode are equal (comparing mode names is comparing modes) |
| Repository.CountByUserId | backend/src/main/java/com/pl/shugo/gsolog/domain/repository/QsoRepository.java:60 | the count is the number of stored rows owned by the user |
| Repository.NewestFirstMeansLaterFirst | backend/src/main/java/com/pl/shugo/gsolog/domain/repository/QsoRepository.java:125 | in a listing sorted newest first, no row is older (by date, then time of day) than a later one |
| Repository.FilteredListing | backend/src/main/java/com/pl/shugo/gsolog/domain/repository/QsoRepository.java:118-136 | the filtered listing has at most `limit` rows, newest first, each the owner's and passing every given callsign, band and date filter |
| Repository.FilteredListingComplete | backend/src/main/java/com/pl/shugo/gsolog/domain/repository/QsoRepository.java:118-136 | with offset 0 and a large enough limit, the listing is a permutation of all matching rows |
| Repository.DateRangeListing | backend/src/main/java/com/pl/shugo/gsolog/domain/repository/QsoRepository.java:99-113 | the date-range query lists newest first exactly the owner's rows dated from `from` to `to` inclusive |
| Repository.GroupsOver | backend/src/main/java/com/pl/shugo/gsolog/domain/repository/QsoRepository.java:144-156 | one count row per key, in order, with the number of rows with that key and, no larger, the number of them confirmed |
| Repository.Totals | backend/src/main/java/com/pl/shugo/gsolog/domain/repository/QsoRepository.java:213-227 | the confirmed total is at most the total |
| Repository.GroupsOverSums | backend/src/main/java/com/pl/shugo/gsolog/domain/repository/QsoRepository.java:144-156 | the count rows add up to the per-key sums of rows and of confirmed rows |
| Repository.GroupByPartition | backend/src/main/java/com/pl/shugo/gsolog/domain/repository/QsoRepository.java:144-156 | the groups partition the rows: their counts add up to the number of rows, and their confirmed counts to the number of confirmed rows |
| Repository.StatsAddUpToTotals | backend/src/main/java/com/pl/shugo/gsolog/domain/repository/QsoRepository.java:144-227 | the band, mode and day statistics (band and mode under any collation) each add up to the totals of the same owner and period, for all rows and for confirmed rows |
| Repository.StringLessIsTotal | backend/src/main/java/com/pl/shugo/gsolog/domain/repository/QsoRepository.java:155 | code-point order compares any two distinct texts, so it is one collation `StatsOrdered` covers |
| Repository.DateBeforeIsTotal | backend/src/main/java/com/pl/shugo/gsolog/domain/repository/QsoRepository.java:201 | date order compares any two distinct dates |
| Repository.StatsOrdered | backend/src/main/java/com/pl/shugo/gsolog/domain/repository/QsoRepository.java:144-207 | band and mode groups come out in the order of the database's collation, for any total collation, and day groups in date order, one group per key |
| Repository.FindMostRecentByCallsign | backend/src/main/java/com/pl/shugo/gsolog/domain/repository/QsoRepository.java:232-242 | nothing is found exactly when the owner has no row with that callsign ignoring case; otherwise the result is such a row and no such row is later by date and time of day |
| Repository.MostCommonFor | backend/src/main/java/com/pl/shugo/gsolog/domain/repository/QsoRepository.java:247-276 | nothing is returned exactly when the owner has no row with that callsign; otherwise the key returned occurs among those rows, as often as any other key |
| Repository.Upsert | backend/src/main/java/com/pl/shugo/gsolog/domain/repository/QsoRepository.java:20 | `save`: the saved row is present, replaces any row with its id, and every other row is kept |
| Repository.UpsertKeepsIdsUnique | backend/src/main/java/com/pl/shugo/gsolog/domain/repository/QsoRepository.java:20 | saving keeps ids unique, and the saved row is what its id and owner find afterwards |
| Repository.DeleteKeepsIdsUnique | backend/src/main/java/com/pl/shugo/gsolog/domain/repository/QsoRepository.java:35 | deleting keeps ids unique and the deleted row can no longer be found |
| Repository.WhereKeepsIdsUnique | backend/src/main/java/com/pl/shugo/gsolog/domain/repository/QsoRepository.java:118-124 | filtering keeps ids unique |
| Repository.Store.constructor | backend/src/main/java/com/pl/shugo/gsolog/domain/repository/QsoRepository.java:20 | a new repository holds no rows |
| Repository.Store.Save | backend/src/main/java/com/pl/shugo/gsolog/domain/repository/QsoRepository.java:20 | the rows become the rows with the saved row inserted or replaced |
| Repository.Store.DeleteByIdAndUserId | backend/src/main/java/com/pl/shugo/gsolog/domain/repository/QsoRepository.java:35 | the rows become the rows without the one with that id and owner |
| Grouping.CountKeyWhere | backend/src/main/java/com/pl/shugo/gsolog/domain/repository/QsoRepository.java:147-149 | counting the rows with a key that meet a condition counts no more than the rows with that key |
| Grouping.GroupsPartition | backend/src/main/java/com/pl/shugo/gsolog/domain/repository/QsoRepository.java:144-156 | groups over distinct keys that cover every row add up to the number of rows, and to the number of rows meeting the condition |
| Grouping.DistinctKeys | backend/src/main/java/com/pl/shugo/gsolog/domain/repository/QsoRepository.java:154 | `GROUP BY` keys are distinct and are exactly the keys the rows carry |
| Grouping.DistinctKeysSorted | backend/src/main/java/com/pl/shugo/gsolog/domain/repository/QsoRepository.java:154-155 | under a total order the group keys come out sorted |
| Grouping.MostCommonKey | backend/src/main/java/com/pl/shugo/gsolog/domain/repository/QsoRepository.java:252-254 | `ORDER BY count DESC LIMIT 1`: the key returned is one of the keys, and no key has a larger count |
| Grouping.CountKey | backend/src/main/java/com/pl/shugo/gsolog/domain/repository/QsoRepository.java:147 | `COUNT(*)` per key: no more than the rows, and positive exactly when some row has the key |
| Service.ServiceError.StatusCode | backend/src/main/java/com/pl/shugo/gsolog/application/service/QsoService.java:187-193 | every service error carries 400 (bad request), 404 (not found) or 409 (duplicate) |
| Service.IdsOf | backend/src/main/java/com/pl/shugo/gsolog/application/service/QsoService.java:69-71 | one id per duplicate row, in the order of the rows |
| Service.DuplicateMessage | backend/src/main/java/com/pl/shugo/gsolog/application/service/QsoService.java:74-77 | the duplicate message opens with "Potential duplicate detected (found ", then the number of matches, which reads back as that number, and ends with the printed id list |
| Service.RequestError | backend/src/main/java/com/pl/shugo/gsolog/application/service/QsoService.java:46-61 | a request passes exactly when its band is valid and its mode configuration obeys the rules; an invalid band gives the band message; otherwise a violation gives "Mode validation failed: " followed by the messages joined by ", " |
| Service.NewRecord | backend/src/main/java/com/pl/shugo/gsolog/application/service/QsoService.java:94-95 | the row to save is a new record: the given owner, contact and id, default statuses, `createdAt` and `updatedAt` from the two clock readings |
| Service.DuplicatesOfMeansSameContact | backend/src/main/java/com/pl/shugo/gsolog/application/service/QsoService.java:65 | a stored row is among the potential duplicates exactly when it has the same owner, callsign, date, band and mode name |
| Service.CreateSucceedsIff | backend/src/main/java/com/pl/shugo/gsolog/application/service/QsoService.java:41-88 | a create succeeds exactly when band and mode are valid and either the caller confirmed or no stored row of the user matches; the saved row is then a new record |
| Service.ValidationComesFirst | backend/src/main/java/com/pl/shugo/gsolog/application/service/QsoService.java:46-61 | an invalid request fails with its own 400 error whatever is stored |
| Service.CreateErrorKinds | backend/src/main/java/com/pl/shugo/gsolog/application/service/QsoService.java:41-88 | a create fails with a duplicate error exactly when the request is valid, unconfirmed and has matches; it fails with another error exactly when the request is invalid |
| Service.IdsOfMembership | backend/src/main/java/com/pl/shugo/gsolog/application/service/QsoService.java:69-71 | every reported id belongs to one of the rows, and every row's id is reported |
| Service.DuplicateIdsAreMatches | backend/src/main/java/com/pl/shugo/gsolog/application/service/QsoService.java:65-79 | the reported ids are exactly the ids of the user's stored rows with the same callsign, date, band and mode |
| Service.DuplicateReported | backend/src/main/java/com/pl/shugo/gsolog/application/service/QsoService.java:64-80 | an unconfirmed valid request with a match fails with a duplicate error; its message and id list name the matching rows, and there is at least one |
| Service.UpdateOutcomes | backend/src/main/java/com/pl/shugo/gsolog/application/service/QsoService.java:123-166 | an invalid request fails with its validation error (400) before any lookup; a valid update of a row the user does not own fails with "QSO not found"; the update succeeds exactly when the request is valid and the user owns a row with that id; a successful update keeps id, owner, statuses and creation time and replaces the contact fields and the update time |
| Service.WithStatuses | backend/src/main/java/com/pl/shugo/gsolog/api/controller/QsoController.java:135-143 | each given status replaces the stored one; an absent one keeps it; every other field is unchanged |
| Service.StatusUpdateOutcome | backend/src/main/java/com/pl/shugo/gsolog/api/controller/QsoController.java:133-143 | saving statuses fails with "QSO not found" exactly when the user owns no row with that id; otherwise the row keeps its id, owner, contact and creation time, takes each given status, keeps each absent one, and `updatedAt` becomes the clock reading |
| Service.DeleteOutcome | backend/src/main/java/com/pl/shugo/gsolog/application/service/QsoService.java:171-175 | a delete succeeds exactly when the user owns a row with that id, and fails with "QSO not found" otherwise |
| Service.FindByIdOutcome | backend/src/main/java/com/pl/shugo/gsolog/application/service/QsoService.java:102-105 | a found row is stored, has that id and belongs to the user; the lookup fails with "QSO not found" exactly when no such row exists |
| Service.CallsignPattern | backend/src/main/java/com/pl/shugo/gsolog/application/service/QsoService.java:114 | there is a pattern exactly when the filter is present and not blank, and the pattern matches texts containing the filter |
| Service.FindAllOutcome | backend/src/main/java/com/pl/shugo/gsolog/application/service/QsoService.java:110-117 | the listing is rejected exactly when the limit or the 64-bit offset page * size is negative |
| Service.FindAllListsOwnRows | backend/src/main/java/com/pl/shugo/gsolog/application/service/QsoService.java:110-117 | every listed row is the user's own and passes the callsign, band and date filters; the page is newest first and at most `size` rows long |
| Service.FindAllIsPageOfListing | backend/src/main/java/com/pl/shugo/gsolog/application/service/QsoService.java:111-116 | the page is the slice of the whole sorted listing that starts at page * size |
| Service.CheckRequest | backend/src/main/java/com/pl/shugo/gsolog/application/service/QsoService.java:46-61 | the band check, then the mode check, give the request's validation error |
| Service.QsoService.constructor | backend/src/main/java/com/pl/shugo/gsolog/application/service/QsoService.java:31-34 | the service works on the given repository |
| Service.QsoService.SaveQso | backend/src/main/java/com/pl/shugo/gsolog/application/service/QsoService.java:90-97 | the saved row is the row `Qso.create` builds, and it is written to the repository |
| Service.QsoService.CreateQso | backend/src/main/java/com/pl/shugo/gsolog/application/service/QsoService.java:41-88 | the result is the create outcome of the stored rows; a successful create writes the new row and a failed one writes nothing |
| Service.QsoService.FindById | backend/src/main/java/com/pl/shugo/gsolog/application/service/QsoService.java:102-105 | a found row is stored, has that id and belongs to the user; the lookup fails exactly when no such row exists |
| Service.QsoService.FindAll | backend/src/main/java/com/pl/shugo/gsolog/application/service/QsoService.java:110-117 | the listing is rejected exactly when the limit or the offset is negative; every listed row is stored and is the user's own |
| Service.QsoService.UpdateQso | backend/src/main/java/com/pl/shugo/gsolog/application/service/QsoService.java:123-166 | the result is the update outcome of the stored rows; a successful update writes the updated row and a failed one writes nothing |
| Service.QsoService.UpdateStatuses | backend/src/main/java/com/pl/shugo/gsolog/api/controller/QsoController.java:133-143 | saves the given statuses on a row the user owns, or fails with "QSO not found" and writes nothing |
| Service.QsoService.DeleteQso | backend/src/main/java/com/pl/shugo/gsolog/application/service/QsoService.java:171-175 | the result is the delete outcome; a successful delete removes the user's row with that id and a failed one writes nothing |
| Service.QsoService.CountByUserId | backend/src/main/java/com/pl/shugo/gsolog/application/service/QsoService.java:180-182 | the count is the number of stored rows owned by the user |
| Service.SetGivenStatuses | backend/src/main/java/com/pl/shugo/gsolog/api/controller/QsoController.java:135-143 | the entity receives each given status and keeps the others |
| Service.ApplyUpdate | backend/src/main/java/com/pl/shugo/gsolog/application/service/QsoService.java:149-162 | the thirteen setters and the update time replace the contact and `updatedAt`; everything else is kept |
| Service.WritesKeepRowsFindable | backend/src/main/java/com/pl/shugo/gsolog/application/service/QsoService.java:90-97 | a successful create keeps stored ids unique and makes the new row findable by its id and owner |
| Controller.WarningOf | backend/src/main/java/com/pl/shugo/gsolog/api/dto/DuplicateWarningResponse.java:15-21 | the warning has type "duplicate_detected", the fixed message and exactly the given ids |
| Controller.ResponseOfOutcome | backend/src/main/java/com/pl/shugo/gsolog/api/controller/QsoController.java:63-67 | a saved row becomes 201 with that row; a duplicate error becomes 409 with a warning listing its ids; any other error passes through with its own status |
| Controller.CreatedIffValidAndNew | backend/src/main/java/com/pl/shugo/gsolog/api/controller/QsoController.java:40-68 | the endpoint answers 201 with a new record exactly when the request is valid and the caller confirmed or nothing matches |
| Controller.ConflictIffDuplicate | backend/src/main/java/com/pl/shugo/gsolog/api/controller/QsoController.java:40-68 | it answers 409 exactly for an unconfirmed duplicate of a valid request, and the warning lists the ids of the matching rows |
| Controller.FailedIsValidationError | backend/src/main/java/com/pl/shugo/gsolog/api/controller/QsoController.java:40-68 | every other answer is the 400 of the request's validation error, and every invalid request gets one |
| Controller.UpdateAsWrittenKeepsStoredStatuses | backend/src/main/java/com/pl/shugo/gsolog/api/controller/QsoController.java:133-160 | as written, an update succeeds exactly when the first service update does, and the answer is the stored row with the new contact fields and the later update time, with the statuses still as stored |
| Controller.UpdateAsWrittenDropsQslStatus | backend/src/main/java/com/pl/shugo/gsolog/api/controller/QsoController.java:133-160 | as written, a successful update asking for a QSL status other than the stored one answers with a status different from the requested one |
| Controller.UpdateWithStatusesStoresThem | backend/src/main/java/com/pl/shugo/gsolog/api/controller/QsoController.java:133-160 | corrected, a successful update answers and stores the row with the new contact fields and each given status; ids stay unique and the row can be found by its id and owner |
| Controller.QsoController.constructor | backend/src/main/java/com/pl/shugo/gsolog/api/controller/QsoController.java:30-32 | the controller works on the given service |
| Controller.QsoController.CreateQso | backend/src/main/java/com/pl/shugo/gsolog/api/controller/QsoController.java:40-68 | the answer is the endpoint's answer for the stored rows; only a 201 writes, and it writes the new row |
| Controller.QsoController.GetAllQsos | backend/src/main/java/com/pl/shugo/gsolog/api/controller/QsoController.java:73-87 | the listing is the service's for the given filters, with page 0 and size 20 when they are not given; without them it succeeds and holds at most 20 rows |
| Controller.QsoController.GetQsoById | backend/src/main/java/com/pl/shugo/gsolog/api/controller/QsoController.java:93-102 | a found row is the user's own row with that id; the lookup fails, with "QSO not found" and 404, exactly when the user owns no row with that id |
| Controller.QsoController.UpdateQsoAsWritten | backend/src/main/java/com/pl/shugo/gsolog/api/controller/QsoController.java:108-163 | the answer and the new rows are those of the update endpoint as written |
| Controller.QsoController.UpdateQso | backend/src/main/java/com/pl/shugo/gsolog/api/controller/QsoController.java:108-163 | the answer and the new rows are those of the corrected update endpoint, which saves the given statuses |
| Controller.QsoController.DeleteQso | backend/src/main/java/com/pl/shugo/gsolog/api/controller/QsoController.java:169-178 | the result is the delete outcome; a successful delete removes the row and a failed one writes nothing |
| Export.FetchedRowsQualify | backend/src/main/java/com/pl/shugo/gsolog/application/service/ExportService.java:77-90 | an export holds only the user's stored QSOs within the given bounds, a missing bound meaning today minus or plus 100 years |
| Export.FetchedRowsComplete | backend/src/main/java/com/pl/shugo/gsolog/application/service/ExportService.java:77-90 | while the store holds at most `Integer.MAX_VALUE` rows, an export misses none of the user's QSOs in its range |
| Export.FetchOrder | backend/src/main/java/com/pl/shugo/gsolog/application/service/ExportService.java:77-90 | without bounds the export is oldest first (date, then time); with one or two bounds it is newest first |
| Export.OpenBoundIsCentury | backend/src/main/java/com/pl/shugo/gsolog/application/service/ExportService.java:83-86 | a one-sided export is the two-sided export whose missing bound is today plus or minus 100 years |
| Export.AdifRecords | backend/src/main/java/com/pl/shugo/gsolog/application/service/ExportService.java:51 | one ADIF record per QSO, in order |
| Export.CsvLines | backend/src/main/java/com/pl/shugo/gsolog/application/service/ExportService.java:70 | one CSV line per QSO, in order |
| Export.Document | backend/src/main/java/com/pl/shugo/gsolog/application/service/ExportService.java:49-52 | a document is the header chunk followed by the chunks of the QSOs |
| Export.AdifRecordsReadBack | backend/src/main/java/com/pl/shugo/gsolog/application/service/ExportService.java:96-152 | each ADIF record reads back as exactly the entries of its QSO |
| Export.CsvLineDecodes | backend/src/main/java/com/pl/shugo/gsolog/application/service/ExportService.java:166-185 | a CSV line ends with the line separator, and its row reads back as the QSO's sixteen values |
| Export.CsvLinesReadBack | backend/src/main/java/com/pl/shugo/gsolog/application/service/ExportService.java:70 | CSV line i reads back as QSO i |
| Export.AdifDocumentReadsBack | backend/src/main/java/com/pl/shugo/gsolog/application/service/ExportService.java:48-53 | the ADIF document is the fixed header followed by one record per QSO, record i reading back as the fields of QSO i |
| Export.CsvDocumentReadsBack | backend/src/main/java/com/pl/shugo/gsolog/application/service/ExportService.java:63-72 | the CSV document is the header line followed by one line per QSO, line i reading back as the sixteen values of QSO i |
| Adif.FieldNamedTag | backend/src/main/java/com/pl/shugo/gsolog/application/service/ExportService.java:100-147 | reading a field's ADIF name back gives the field |
| Adif.TagInjective | backend/src/main/java/com/pl/shugo/gsolog/application/service/ExportService.java:100-147 | the sixteen field names are distinct, and none contains the ':' that ends a name |
| Adif.AdifField | backend/src/main/java/com/pl/shugo/gsolog/application/service/ExportService.java:157-161 | `appendAdifField` appends nothing exactly when the value is null or blank |
| Adif.AppendAdifField | backend/src/main/java/com/pl/shugo/gsolog/application/service/ExportService.java:157-161 | the builder gains `<NAME:length>value `, or nothing for a null or blank value |
| Adif.AdifFieldOrderEnumerates | backend/src/main/java/com/pl/shugo/gsolog/application/service/ExportService.java:100-147 | the writer considers each of the sixteen fields exactly once |
| Adif.AdifCandidates | backend/src/main/java/com/pl/shugo/gsolog/application/service/ExportService.java:96-152 | the record considers the sixteen fields in the writer's fixed order |
| Adif.RequiredCandidates | backend/src/main/java/com/pl/shugo/gsolog/application/service/ExportService.java:100-103 | CALL, QSO_DATE, TIME_ON and BAND come first, in that order |
| Adif.ModeCandidates | backend/src/main/java/com/pl/shugo/gsolog/application/service/ExportService.java:106-116 | MODE, the vendor custom-mode field and SUBMODE come next |
| Adif.OptionalCandidates | backend/src/main/java/com/pl/shugo/gsolog/application/service/ExportService.java:119-137 | FREQ, RST_SENT, RST_RCVD, QTH, GRIDSQUARE and COMMENT come next |
| Adif.StatusCandidates | backend/src/main/java/com/pl/shugo/gsolog/application/service/ExportService.java:140-148 | QSL_RCVD, LOTW_QSLRDATE and EQSL_QSLRDATE come last |
| Adif.CollectMembers | backend/src/main/java/com/pl/shugo/gsolog/application/service/ExportService.java:158 | an entry is written for each present, non-blank candidate and for no other |
| Adif.EncodeCollect | backend/src/main/java/com/pl/shugo/gsolog/application/service/ExportService.java:157-161 | encoding the written entries is rendering every candidate, an absent one as nothing |
| Adif.AdifRecordUnfolded | backend/src/main/java/com/pl/shugo/gsolog/application/service/ExportService.java:96-152 | a record is the four groups of fields one after another, then `<EOR>` and a newline |
| Adif.RequiredText | backend/src/main/java/com/pl/shugo/gsolog/application/service/ExportService.java:100-103 | the first group is CALL, the `yyyyMMdd` date, the `HHmmss` time and BAND |
| Adif.ModeText | backend/src/main/java/com/pl/shugo/gsolog/application/service/ExportService.java:106-116 | with a present custom mode, MODE is DATA followed by the vendor field; otherwise MODE is the mode's name followed by the submode's name |
| Adif.OptionalText | backend/src/main/java/com/pl/shugo/gsolog/application/service/ExportService.java:119-137 | the optional group is FREQ in MHz and then the five free-text fields as stored |
| Adif.StatusText | backend/src/main/java/com/pl/shugo/gsolog/application/service/ExportService.java:140-148 | the status group is the three status names |
| Adif.FormatQsoAsAdif | backend/src/main/java/com/pl/shugo/gsolog/application/service/ExportService.java:96-152 | building the record with a string builder gives exactly the record text of the QSO |
| Adif.AppendRequiredFields | backend/src/main/java/com/pl/shugo/gsolog/application/service/ExportService.java:100-103 | the builder gains the first group |
| Adif.AppendModeFields | backend/src/main/java/com/pl/shugo/gsolog/application/service/ExportService.java:106-116 | the builder gains the mode group of whichever branch applies |
| Adif.AppendCustomMode | backend/src/main/java/com/pl/shugo/gsolog/application/service/ExportService.java:107-109 | the builder gains MODE=DATA and then the custom mode |
| Adif.AppendStandardMode | backend/src/main/java/com/pl/shugo/gsolog/application/service/ExportService.java:111-115 | the builder gains the mode's name and then, when set, the submode's |
| Adif.AppendOptionalFields | backend/src/main/java/com/pl/shugo/gsolog/application/service/ExportService.java:119-137 | the builder gains FREQ when a frequency is stored, then each present, non-blank free-text field |
| Adif.AppendIfPresent | backend/src/main/java/com/pl/shugo/gsolog/application/service/ExportService.java:123-137 | the guarded call appends the field exactly as an unguarded `appendAdifField` would |
| Adif.AppendStatusFields | backend/src/main/java/com/pl/shugo/gsolog/application/service/ExportService.java:140-148 | the builder gains each set status |
| Adif.TakeUnits | backend/src/main/java/com/pl/shugo/gsolog/application/service/ExportService.java:159 | a reader takes the shortest prefix that is `length` UTF-16 code units long |
| Adif.TakeUnitsOfPrefix | backend/src/main/java/com/pl/shugo/gsolog/application/service/ExportService.java:159 | the declared length of a value takes exactly that value back |
| Adif.ParseSpecifier | backend/src/main/java/com/pl/shugo/gsolog/application/service/ExportService.java:159 | reading a specifier consumes input |
| Adif.ParseName | backend/src/main/java/com/pl/shugo/gsolog/application/service/ExportService.java:159 | reading the name consumes input |
| Adif.ParseLength | backend/src/main/java/com/pl/shugo/gsolog/application/service/ExportService.java:159 | reading the length consumes input |
| Adif.ParseValue | backend/src/main/java/com/pl/shugo/gsolog/application/service/ExportService.java:159 | reading the value and its trailing space consumes input |
| Adif.ParseValueOf | backend/src/main/java/com/pl/shugo/gsolog/application/service/ExportService.java:159 | a value of the declared length followed by a space reads back as itself |
| Adif.ParseLengthOf | backend/src/main/java/com/pl/shugo/gsolog/application/service/ExportService.java:159 | the printed length digits followed by '>' read back as the value's length |
| Adif.ParseNameOf | backend/src/main/java/com/pl/shugo/gsolog/application/service/ExportService.java:159 | a name without ':' reads back up to its ':' |
| Adif.ParseSpecifierOf | backend/src/main/java/com/pl/shugo/gsolog/application/service/ExportService.java:159 | a written specifier reads back as its name and value, leaving the rest of the text |
| Adif.Spelled | backend/src/main/java/com/pl/shugo/gsolog/application/service/ExportService.java:159 | the reader's view of entries: each field's ADIF name with its value |
| Adif.ParseEncoded | backend/src/main/java/com/pl/shugo/gsolog/application/service/ExportService.java:150-159 | encoded entries followed by `<EOR>` read back as exactly those entries |
| Adif.AdifRecordDecodes | backend/src/main/java/com/pl/shugo/gsolog/application/service/ExportService.java:96-161 | every record reads back as exactly its fields, names and values |
| Adif.AdifFieldsInOrder | backend/src/main/java/com/pl/shugo/gsolog/application/service/ExportService.java:96-152 | a record's fields appear in the writer's fixed order, none twice |
| Adif.CandidateEntry | backend/src/main/java/com/pl/shugo/gsolog/application/service/ExportService.java:96-152 | a field is written exactly when its candidate value is present, and with that value |
| Adif.SubmodeNameNotBlank | backend/src/main/java/com/pl/shugo/gsolog/application/service/ExportService.java:114 | no submode's name is blank, so a set submode is always written |
| Adif.ModeNameNotBlank | backend/src/main/java/com/pl/shugo/gsolog/application/service/ExportService.java:112 | no mode's name is blank, so the standard MODE field is always written |
| Adif.DateTimeRecord | backend/src/main/java/com/pl/shugo/gsolog/application/service/ExportService.java:101-102 | QSO_DATE (`yyyyMMdd`) and TIME_ON (`HHmmss`) are written for every QSO |
| Adif.CallBandRecord | backend/src/main/java/com/pl/shugo/gsolog/application/service/ExportService.java:100-103 | CALL and BAND are written exactly when they are not blank |
| Adif.CustomModeRecord | backend/src/main/java/com/pl/shugo/gsolog/application/service/ExportService.java:106-109 | with a present custom mode, MODE is DATA, the vendor field holds the custom mode, and no SUBMODE is written, whatever mode and submode are stored |
| Adif.StandardModeRecord | backend/src/main/java/com/pl/shugo/gsolog/application/service/ExportService.java:110-116 | without one, MODE is the stored mode's name, no vendor field is written, and SUBMODE is written exactly when a submode is set |
| Adif.PlainStringNotBlank | backend/src/main/java/com/pl/shugo/gsolog/application/service/ExportService.java:121 | a decimal in plain notation never prints blank |
| Adif.FrequencyRecord | backend/src/main/java/com/pl/shugo/gsolog/application/service/ExportService.java:119-122 | FREQ is written exactly when a frequency is stored, as the MHz text |
| Adif.TextFieldsRecord | backend/src/main/java/com/pl/shugo/gsolog/application/service/ExportService.java:123-137 | each free-text field is written, as stored, exactly when it is present and not blank |
| Adif.StatusNamesNotBlank | backend/src/main/java/com/pl/shugo/gsolog/application/service/ExportService.java:140-148 | no status name is blank |
| Adif.StatusRecord | backend/src/main/java/com/pl/shugo/gsolog/application/service/ExportService.java:140-148 | each status is written when it is set, and only then |
| Adif.SpecifierExamples | backend/src/main/java/com/pl/shugo/gsolog/application/service/ExportService.java:157-161 | mode CW gives `<MODE:2>CW ` and submode PSK31 gives `<SUBMODE:5>PSK31 ` |
| Csv.DoubleQuotes | backend/src/main/java/com/pl/shugo/gsolog/application/service/ExportService.java:195 | doubling the quotes never shortens the value |
| Csv.EscapeCsv | backend/src/main/java/com/pl/shugo/gsolog/application/service/ExportService.java:190-198 | a null or blank value becomes empty; any other value becomes its encoded cell (quoted with doubled quotes when it needs quoting, otherwise itself) |
| Csv.NeedsQuotingChars | backend/src/main/java/com/pl/shugo/gsolog/application/service/ExportService.java:194 | a value needs quoting exactly when it holds a comma, a double quote or a line feed |
| Csv.ParseQuoted | backend/src/main/java/com/pl/shugo/gsolog/application/service/ExportService.java:195 | a reader of a quoted cell consumes input |
| Csv.ParseCell | backend/src/main/java/com/pl/shugo/gsolog/application/service/ExportService.java:190-198 | a reader of one cell never reads past its input |
| Csv.ParseQuotedOf | backend/src/main/java/com/pl/shugo/gsolog/application/service/ExportService.java:195 | a value with doubled quotes, closed by a quote and followed by a comma or the end, reads back as the value |
| Csv.CellRoundTrip | backend/src/main/java/com/pl/shugo/gsolog/application/service/ExportService.java:190-198 | any value's encoded cell reads back as the value, whatever follows it in the row |
| Csv.RowRoundTrip | backend/src/main/java/com/pl/shugo/gsolog/application/service/ExportService.java:167 | a row of encoded values joined by commas reads back as exactly those values |
| Csv.RowOf | backend/src/main/java/com/pl/shugo/gsolog/application/service/ExportService.java:167-184 | a row has sixteen cells, one per header column |
| Csv.CsvRow | backend/src/main/java/com/pl/shugo/gsolog/application/service/ExportService.java:167-184 | a QSO's row has sixteen cells, in header order |
| Csv.CsvValues | backend/src/main/java/com/pl/shugo/gsolog/application/service/ExportService.java:167-184 | a QSO gives sixteen values, one per header column |
| Csv.DigitsArePlain | backend/src/main/java/com/pl/shugo/gsolog/application/service/ExportService.java:169-170 | digits need no quoting |
| Csv.PlainCellUnchanged | backend/src/main/java/com/pl/shugo/gsolog/application/service/ExportService.java:197 | a text without comma, quote or line feed is printed as it is |
| Csv.IsoDatePlain | backend/src/main/java/com/pl/shugo/gsolog/application/service/ExportService.java:169 | `LocalDate.toString()` needs no quoting |
| Csv.IsoTimePlain | backend/src/main/java/com/pl/shugo/gsolog/application/service/ExportService.java:170 | `LocalTime.toString()` needs no quoting |
| Csv.IntToStringPlain | backend/src/main/java/com/pl/shugo/gsolog/application/service/ExportService.java:172 | an integer's text needs no quoting |
| Csv.SciStringPlain | backend/src/main/java/com/pl/shugo/gsolog/application/service/ExportService.java:172 | `BigDecimal.toString()` needs no quoting |
| Csv.ModeNamePlain | backend/src/main/java/com/pl/shugo/gsolog/application/service/ExportService.java:173 | a mode's name needs no quoting |
| Csv.SubmodeCellPlain | backend/src/main/java/com/pl/shugo/gsolog/application/service/ExportService.java:174 | the submode cell needs no quoting |
| Csv.StatusCellsPlain | backend/src/main/java/com/pl/shugo/gsolog/application/service/ExportService.java:181-183 | the three status cells need no quoting |
| Csv.FrequencyCellPlain | backend/src/main/java/com/pl/shugo/gsolog/application/service/ExportService.java:172 | the frequency cell needs no quoting |
| Csv.EscapeIsEncode | backend/src/main/java/com/pl/shugo/gsolog/application/service/ExportService.java:190-198 | escaping a nullable field is encoding the text it contributes |
| Csv.PrintedEncodesRead | backend/src/main/java/com/pl/shugo/gsolog/application/service/ExportService.java:167-184 | a readable cell prints as the encoding of the value a reader gets back |
| Csv.PrintAllEncodes | backend/src/main/java/com/pl/shugo/gsolog/application/service/ExportService.java:167-184 | a row of readable cells prints as the encoding of what a reader gets back |
| Csv.RowOfReadable | backend/src/main/java/com/pl/shugo/gsolog/application/service/ExportService.java:167-184 | a row whose unescaped cells need no quoting is readable |
| Csv.CsvRowReadable | backend/src/main/java/com/pl/shugo/gsolog/application/service/ExportService.java:167-184 | every cell of a QSO's row is readable |
| Csv.CsvCellsEncodeValues | backend/src/main/java/com/pl/shugo/gsolog/application/service/ExportService.java:167-184 | every printed cell is the encoding of the reader's value |
| Csv.CsvRowDecodes | backend/src/main/java/com/pl/shugo/gsolog/application/service/ExportService.java:166-185 | a QSO's row, without its line separator, reads back as its sixteen values, one per column |
| Csv.ColumnPlain | backend/src/main/java/com/pl/shugo/gsolog/application/service/ExportService.java:64-66 | no column title needs quoting |
| Csv.CsvHeaderReadsBack | backend/src/main/java/com/pl/shugo/gsolog/application/service/ExportService.java:64-66 | the header line, without its line feed, reads back as the sixteen column titles |
| Csv.EscapeExamples | backend/src/main/java/com/pl/shugo/gsolog/application/service/ExportService.java:190-198 | `a,"b` becomes `"a,""b"`, `59` stays as it is, and a blank or null value becomes empty |
| Decimal.RoundHalfUp | backend/src/main/java/com/pl/shugo/gsolog/application/service/ExportService.java:120 | the quotient is num / den rounded with `RoundingMode.HALF_UP`: the nearest integer, halves away from zero |
| Decimal.RoundHalfUpMagnitude | backend/src/main/java/com/pl/shugo/gsolog/application/service/ExportService.java:120 | a magnitude rounds to the quotient, or one more when the remainder is at least half the divisor |
| Decimal.RoundsHalfUpUnique | backend/src/main/java/com/pl/shugo/gsolog/application/service/ExportService.java:120 | at most one integer is the HALF_UP rounding of a quotient |
| Decimal.KhzToMhz | backend/src/main/java/com/pl/shugo/gsolog/application/service/ExportService.java:120 | dividing by 1000 to scale 6 gives the HALF_UP rounding of the kHz value over 10^3 at six decimal places |
| Decimal.StripTrailingZeros | backend/src/main/java/com/pl/shugo/gsolog/application/service/ExportService.java:121 | `stripTrailingZeros()` keeps the value with no trailing zero in the unscaled digits; zero becomes 0 at scale 0 |
| Decimal.SciStringIsPlainWhenSmallScale | backend/src/main/java/com/pl/shugo/gsolog/application/service/ExportService.java:172 | `toString()` and `toPlainString()` agree when the scale is non-negative and the exponent is at least -6 |
| Decimal.SciStringExponentCases | backend/src/main/java/com/pl/shugo/gsolog/application/service/ExportService.java:172 | a negative scale prints in exponent notation |
| Decimal.ParsePlain | backend/src/main/java/com/pl/shugo/gsolog/application/service/ExportService.java:121 | reading plain notation back gives a non-negative scale |
| Decimal.PlainForm | backend/src/main/java/com/pl/shugo/gsolog/application/service/ExportService.java:121 | `toPlainString()` spells the same number, at scale 0 when the scale is negative |
| Decimal.ParsePlainOfToPlainString | backend/src/main/java/com/pl/shugo/gsolog/application/service/ExportService.java:121 | reading `toPlainString()` back gives the same number, a negative scale as its value at scale 0 |
| Decimal.PlainRoundTripScaleZero | backend/src/main/java/com/pl/shugo/gsolog/application/service/ExportService.java:121 | a scale-0 number reads back as itself |
| Decimal.PlainRoundTripNegativeScale | backend/src/main/java/com/pl/shugo/gsolog/application/service/ExportService.java:121 | a negative-scale number reads back as its value at scale 0 |
| Decimal.PlainRoundTripLong | backend/src/main/java/com/pl/shugo/gsolog/application/service/ExportService.java:121 | a positive-scale number with an integer part reads back as itself |
| Decimal.PlainRoundTripShort | backend/src/main/java/com/pl/shugo/gsolog/application/service/ExportService.java:121 | a positive-scale number below one in magnitude reads back as itself |
| Decimal.NegativeScaleLayout | backend/src/main/java/com/pl/shugo/gsolog/application/service/ExportService.java:121 | a negative scale prints the sign, the digits and then as many zeros as the scale says |
| Decimal.FrequencyMhzTextReadsBack | backend/src/main/java/com/pl/shugo/gsolog/application/service/ExportService.java:119-122 | the FREQ text reads back as the rounded, stripped MHz value |
| Decimal.StrippedMhzValue | backend/src/main/java/com/pl/shugo/gsolog/application/service/ExportService.java:119-122 | that value is 0 for zero; otherwise it equals the six-place MHz value at a scale of at most 6, with no trailing zero after the point |
| HamQth.EndTagAfterStartTag | backend/src/main/java/com/pl/shugo/gsolog/infrastructure/adapter/HamQthCallsignLookupAdapter.java:153-154 | when the end tag follows the start tag, it also follows the whole start tag, so the substring bounds are in order |
| HamQth.ElementText | backend/src/main/java/com/pl/shugo/gsolog/infrastructure/adapter/HamQthCallsignLookupAdapter.java:148-157 | there is a text exactly when the first start tag comes before the first end tag, and it is the slice between the end of the first start tag and the first end tag |
| HamQth.ExtractXmlValue | backend/src/main/java/com/pl/shugo/gsolog/infrastructure/adapter/HamQthCallsignLookupAdapter.java:148-157 | `extractXmlValue`: null exactly when the first start tag is missing or not before the first end tag; otherwise the trimmed slice between the end of the first start tag and the first end tag |
| HamQth.ElementTextReadsBack | backend/src/main/java/com/pl/shugo/gsolog/infrastructure/adapter/HamQthCallsignLookupAdapter.java:148-157 | an element preceded by text holding neither of its tags, with content not holding its end tag, gives back exactly its content |
| HamQth.ExtractXmlValueReadsBack | backend/src/main/java/com/pl/shugo/gsolog/infrastructure/adapter/HamQthCallsignLookupAdapter.java:148-157 | such an element gives back its trimmed content |
| HamQth.EarlierEndTagHidesElement | backend/src/main/java/com/pl/shugo/gsolog/infrastructure/adapter/HamQthCallsignLookupAdapter.java:151-153 | a reply that opens with the end tag gives null, whatever follows |
| HamQth.ParseSessionId | backend/src/main/java/com/pl/shugo/gsolog/infrastructure/adapter/HamQthCallsignLookupAdapter.java:115-123 | `parseSessionId` succeeds exactly when `<session_id>` comes before `</session_id>`, with the trimmed slice between them; otherwise it fails with `SessionExpiredException` and its message |
| HamQth.SessionTagsAreTags | backend/src/main/java/com/pl/shugo/gsolog/infrastructure/adapter/HamQthCallsignLookupAdapter.java:117-120 | the session tags are the generic start and end tags of `session_id`, and the start tag is 12 characters long |
| HamQth.SessionIdReadsBack | backend/src/main/java/com/pl/shugo/gsolog/infrastructure/adapter/HamQthCallsignLookupAdapter.java:115-123 | a `<session_id>` element preceded by text holding neither session tag, with an id not holding the end tag, gives back its trimmed id |
| HamQth.NameOf | backend/src/main/java/com/pl/shugo/gsolog/infrastructure/adapter/HamQthCallsignLookupAdapter.java:127-130 | the name is the nick, or `adr_name` when the nick is null or empty |
| HamQth.ParseCallsignData | backend/src/main/java/com/pl/shugo/gsolog/infrastructure/adapter/HamQthCallsignLookupAdapter.java:125-146 | `parseCallsignData`: null exactly when name, city, grid and country are all missing; otherwise exactly those four for the callsign |
| HamQth.NickNamesTheResponse | backend/src/main/java/com/pl/shugo/gsolog/infrastructure/adapter/HamQthCallsignLookupAdapter.java:125-146 | a reply whose first `nick` element is preceded by text holding neither nick tag and holds a non-blank nick without the end tag gives a response named by the trimmed nick |
| HamQth.CacheKey | backend/src/main/java/com/pl/shugo/gsolog/infrastructure/adapter/HamQthCallsignLookupAdapter.java:45 | the cache key is the upper-cased callsign, and it is its own upper case |
| HamQth.CacheHit | backend/src/main/java/com/pl/shugo/gsolog/infrastructure/adapter/HamQthCallsignLookupAdapter.java:48-52 | an entry is served exactly when the key is present and not expired, that is `now <= expiryTime` |
| HamQth.CacheResponse | backend/src/main/java/com/pl/shugo/gsolog/infrastructure/adapter/HamQthCallsignLookupAdapter.java:159-164 | `cacheResponse` stores a present response under the key until now plus 24 hours and keeps every other entry; a null response changes nothing |
| HamQth.CachedResponseLivesOneDay | backend/src/main/java/com/pl/shugo/gsolog/infrastructure/adapter/HamQthCallsignLookupAdapter.java:22 | a cached response is served for 24 hours, up to and including the expiry instant, and not after |
| HamQth.CachingKeepsOtherKeys | backend/src/main/java/com/pl/shugo/gsolog/infrastructure/adapter/HamQthCallsignLookupAdapter.java:159-164 | caching one key leaves every other key's hits unchanged |
| HamQth.CacheKeyIgnoresCase | backend/src/main/java/com/pl/shugo/gsolog/infrastructure/adapter/HamQthCallsignLookupAdapter.java:45 | callsigns equal but for case share a cache key |
| HamQth.LookupOutcome | backend/src/main/java/com/pl/shugo/gsolog/infrastructure/adapter/HamQthCallsignLookupAdapter.java:44-63 | `lookup`: a cache hit at the first clock reading is returned unchanged; otherwise the reply, when there is one, is parsed and cached under the normalised callsign with an expiry from the second reading; a failed request gives nothing |
| HamQth.LookupKeepsKeysUpperCase | backend/src/main/java/com/pl/shugo/gsolog/infrastructure/adapter/HamQthCallsignLookupAdapter.java:45-60 | lookups keep every cache key upper case |
| HamQth.FetchedResponseServedForOneDay | backend/src/main/java/com/pl/shugo/gsolog/infrastructure/adapter/HamQthCallsignLookupAdapter.java:44-63 | a fetched response is served from the cache, without asking the service again, to any spelling of the callsign for 24 hours from the reading its expiry was stored at |
| HamQth.LookupCache.constructor | backend/src/main/java/com/pl/shugo/gsolog/infrastructure/adapter/HamQthCallsignLookupAdapter.java:30 | the cache starts empty |
| HamQth.LookupCache.Put | backend/src/main/java/com/pl/shugo/gsolog/infrastructure/adapter/HamQthCallsignLookupAdapter.java:159-164 | the map becomes CacheResponse of the old map |
| HamQth.LookupCache.Lookup | backend/src/main/java/com/pl/shugo/gsolog/infrastructure/adapter/HamQthCallsignLookupAdapter.java:44-63 | the result and the new map are LookupOutcome of the old map, and the keys stay upper case |
| ExportEndpoints.BoundsPart | backend/src/main/java/com/pl/shugo/gsolog/api/controller/ExportController.java:102-111 | the bounds part is 18 characters with both dates, 14 with only `from`, 12 with only `to`, and empty with neither |
| ExportEndpoints.GenerateFilename | backend/src/main/java/com/pl/shugo/gsolog/api/controller/ExportController.java:99-115 | `generateFilename`: the builder ends holding the prefix, the bounds part, "." and the extension |
| ExportEndpoints.FileNameFrame | backend/src/main/java/com/pl/shugo/gsolog/api/controller/ExportController.java:99-115 | a name opens with the prefix and ends with "." and the extension; with no bounds it is exactly `prefix.extension` |
| ExportEndpoints.FileNameDeterminesBounds | backend/src/main/java/com/pl/shugo/gsolog/api/controller/ExportController.java:99-115 | for four-digit years, two names with the same prefix and extension are equal exactly when their bounds are |
| ExportEndpoints.BoundsPartRecovered | backend/src/main/java/com/pl/shugo/gsolog/api/controller/ExportController.java:99-115 | the bounds part can be read back from between the prefix and the extension |
| ExportEndpoints.BoundsPartDeterminesBounds | backend/src/main/java/com/pl/shugo/gsolog/api/controller/ExportController.java:102-111 | equal bounds parts come from equal bounds |
| ExportEndpoints.BothBoundsRecovered | backend/src/main/java/com/pl/shugo/gsolog/api/controller/ExportController.java:102-106 | a two-date bounds part gives back both dates |
| ExportEndpoints.ExportAdif | backend/src/main/java/com/pl/shugo/gsolog/api/controller/ExportController.java:51-67 | `GET /adif`: an attachment named "qsolog", the bounds part and ".adi" whose body reads as the ADIF document of the exported QSOs |
| ExportEndpoints.ExportCsv | backend/src/main/java/com/pl/shugo/gsolog/api/controller/ExportController.java:78-94 | `GET /csv`: an attachment named "qsolog", the bounds part and ".csv" whose body reads as the CSV document of the exported QSOs |
| ExportEndpoints.ExportNamesDifferOnlyInExtension | backend/src/main/java/com/pl/shugo/gsolog/api/controller/ExportController.java:62-89 | the two endpoints' names are distinct, of equal length, and equal up to the extension |
| Suggestions.TruncateNotes | backend/src/main/java/com/pl/shugo/gsolog/application/service/SuggestionsService.java:90-98 | `truncateNotes`: null exactly for null or empty notes; notes of up to 100 characters unchanged; longer ones become their first 97 characters and "...", 100 in all |
| Suggestions.NameStart | backend/src/main/java/com/pl/shugo/gsolog/application/service/SuggestionsService.java:79 | the name starts just after the first "name:" of the lower-cased notes |
| Suggestions.LineEnd | backend/src/main/java/com/pl/shugo/gsolog/application/service/SuggestionsService.java:80-81 | the end is the next line break at or after the start, or the end of the notes |
| Suggestions.ExtractName | backend/src/main/java/com/pl/shugo/gsolog/application/service/SuggestionsService.java:74-85 | `extractNameFromQso`: null exactly when there are no notes or they hold no "name:" in any case |
| Suggestions.ExtractNameIsRestOfLine | backend/src/main/java/com/pl/shugo/gsolog/application/service/SuggestionsService.java:78-82 | the name is the trimmed text from just after the first case-insensitive "name:" up to the next line break or the end |
| Suggestions.ExtractNameIsTrimmedLine | backend/src/main/java/com/pl/shugo/gsolog/application/service/SuggestionsService.java:80-82 | the name holds no line break and neither starts nor ends with whitespace |
| Suggestions.TrimDropsNoInnerChar | backend/src/main/java/com/pl/shugo/gsolog/application/service/SuggestionsService.java:82 | every character of a trimmed text comes from the text |
| Suggestions.NonEmpty | backend/src/main/java/com/pl/shugo/gsolog/application/service/SuggestionsService.java:62-63 | an empty band or mode becomes null, and any other is kept |
| Suggestions.SuggestionsFromLatestQso | backend/src/main/java/com/pl/shugo/gsolog/application/service/SuggestionsService.java:31-68 | `getSuggestions`: a suggestion exists exactly when the user logged the callsign (ignoring case); it carries the upper-cased callsign and the QTH, name and snippet of the user's latest such QSO |
| Suggestions.SuggestedBandIsMostCommon | backend/src/main/java/com/pl/shugo/gsolog/application/service/SuggestionsService.java:33-34 | the suggested band has the highest count among the user's QSOs with the callsign |
| Suggestions.ExtractNameExample | backend/src/main/java/com/pl/shugo/gsolog/application/service/SuggestionsService.java:76 | "Nice CW QSO. Name: John" gives the name "John" |

## Left out

- Reactive and framework plumbing (`Mono`, `Flux`, `zip`, `concat`, `onErrorResume`, Spring wiring): results are plain values, sequences and `Result` errors. The export stream's laziness is not modelled.
- R2DBC and the SQL engine: queries are functions over the stored rows. `save` is insert-or-replace by id. R2DBC's detection of new entities is not modelled.
- SQL row order among ties: the model keeps storage order. The source leaves ties unspecified, so no claim is made about their order.
- SQL `LIKE` wildcards inside a callsign filter: the filter is a plain case-insensitive substring.
- Bean validation of the request DTOs (`@Valid`, `@NotNull`): the model assumes the required fields are present.
- Authentication: the caller's user id is a parameter.
- Wall-clock reads (`Instant.now()`, `LocalDate.now()`, `System.currentTimeMillis()`) and random UUIDs: these are parameters, one per read. `create` reads the clock twice (`CreateClock`), and `lookup` takes one reading for the cache check and another for the expiry it stores.
- `long` overflow: HamQTH's `now + CACHE_TTL` is computed on unbounded integers.
- The network side of HamQTH is not modelled: `login`, `performLookup`, `ensureSession`, retry and backoff, the volatile session fields, and the logging of the `error` tag in `parseCallsignData`. The reply of the remote service is a parameter (`None` when the session or the request failed).
- Concurrency: the `ConcurrentHashMap` cache and the race between the duplicate check and the insert are out of scope.
- Case mapping is ASCII-only. That is exact for band tokens and mode names, but not for other letters.
- Suggestions.ExtractName: does not model Java's `toLowerCase` changing the length of the notes. The index of "name:" is found in the lowered text (SuggestionsService.java:79) and then used on the original text (lines 80-82). A letter such as U+0130 lowers to two characters, which shifts that index: for the notes "İname:John" the source yields "ohn" where the model yields "John", and for "İname:" the source throws `StringIndexOutOfBoundsException`. The model lowers one character to one, so it finds the marker where it stands in the original text.
- Strings are sequences of Unicode scalar values. `length()` in the ADIF length prefix is counted in UTF-16 code units, as in Java. The substring offsets of `truncateNotes`, `extractNameFromQso` and `extractXmlValue` count characters, which differs from Java only for characters outside the Basic Multilingual Plane.
- The ADIF length prefix is `value.length()`, counted in UTF-16 code units (backend/src/main/java/com/pl/shugo/gsolog/application/service/ExportService.java:159), not a byte count.
- The export endpoints encode each document chunk as UTF-8 bytes. The model keeps the chunks as text.
- The CSV line terminator `%n` is platform dependent and is a parameter.
- `QslStatus` is taken as NONE/SENT/CONFIRMED, and `LotwStatus` and `EqslStatus` as UNKNOWN/SENT/CONFIRMED; the code modelled uses only CONFIRMED, NONE and UNKNOWN.
- The `QsoResponse` and other DTO projections: the controller answers with the stored record itself.
- `StatsService`, the AI features, authentication and administration services, `GlobalErrorHandler`, the mock adapters and the frontend are outside the core.
- Export.GenerateAdif and Export.GenerateCsv have no contract of their own. Their documents are stated through `AdifDocumentOf` and `CsvDocumentOf` and the lemmas beside them.
- Service.FindAllOutcome: a negative `size` or a negative `page * size` fails as `None`, where the database would reject the `LIMIT` or `OFFSET`; the database error itself is not modelled.

## Findings

| source | as written | input that shows it | evidently intended | confidence | as-written member | corrected member |
|---|---|---|---|---|---|---|
| backend/src/main/java/com/pl/shugo/gsolog/api/controller/QsoController.java:133-160 | the status patch (lines 135-143) is applied to the object returned by the first update, but the second `updateQso` re-reads the stored row and copies only the 13 contact fields, so the statuses given in the request are never stored | a PUT with `qslStatus` CONFIRMED for a QSO stored with NONE | the statuses given in the request are stored and returned | high, not executed | Controller.UpdateAsWrittenDropsQslStatus | Controller.UpdateWithStatusesStoresThem |
