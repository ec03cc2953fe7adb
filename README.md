# Land-mortgage ledger — a Dafny model

This project models the ledger underneath a small single-page app for land-mortgage
contracts (জমি বন্ধক). A contract (`LandRecord`) has an owner, a contractor, an invested
amount, a regular instalment (`collectionAmount`), a start date and a duration written as
`"<n> <unit>"`, where the unit is বছর (years) or মাস (months). It also keeps a history of
collected instalments (`CollectionEntry`).

The model covers three parts of the app:

- **The record-set handlers of the app shell (`App.tsx`).** The `Store.Ledger` class holds
  the app's `records`, `viewingRecord`, `collectingFor`, `editingRecord` and form flag. Its
  methods are the save, delete, delete-entry and save-collection handlers. Each handler
  replaces the records with a new list, whose pure definition is in `Records`. Each one also
  returns the sync action it would send, if any. The derived views are in `Views`: expiry,
  dashboard stats, the search/status filter and initials.
- **The collection form (`components/CollectionForm.tsx`).** This covers:
  - the recurring-instalment generator, as a method with a loop, proved against a
    specification function;
  - the pay totals;
  - submit validation;
  - the duration-extension rule;
  - the expiry preview.
- **The record form (`components/RecordForm.tsx`).** This covers:
  - loading a record into the form, including the reverse parse of the duration;
  - the derived instalment;
  - required-field validation;
  - building the payload that is merged over the record being edited.

Supporting modules model the JavaScript built-ins that the core relies on:

- `Text`: `split`, `join`, `startsWith`, `includes`, ASCII `toLowerCase`/`toUpperCase`, and
  `parseInt`/`parseFloat` as an integer-prefix parser.
- `Calendar`: a proleptic Gregorian `(year, month, day)` date with month and year
  arithmetic, day steps and the `YYYY-MM-DD` form.
- `Durations`: the `"<n> <unit>"` duration strings.

Money and percentages are integers.

Modelling conventions:

- **Absent fields.** An absent optional string is `""` and an absent number is `0`. This
  matches the readers that guard with `x || ''` or `x || 0`. Some readers do not guard; the
  model takes their fields as present (see "Left out"). The history `collections` stays an
  `Option`, because the handlers treat an absent history specially (`r.collections || []`).
- **Partial records.** Partial records, such as the record data passed to the save handler,
  are `RecordPatch` values with optional fields. The spread `{...r, ...p}` is
  `Types.MergeOver`.
- **The clock and the id generator.** The clock ("now", "today") is a parameter, and so is
  the id generator. A fresh id is an argument, and uniqueness is proved under the hypothesis
  that the id is fresh.

Behaviour of the code that the model states as lemmas:

- **A duration without a unit.** The expiry computed by the app shell counts such a
  duration in days (`App.tsx:274-276`). The collection form's preview counts it in years
  (`components/CollectionForm.tsx:77-81`). See `CollectionForm.UnitlessDurationDisagrees`.
- **Extending in a different unit.** The preview adds the extension on top of the original
  expiry. The stored duration instead becomes the summed magnitude in the extension's unit.
  The two disagree when a non-zero duration in years is extended in months. See `CollectionForm.PreviewDisagreesAcrossUnits`.
- **The edit sync payload.** Editing sends the raw form data, not the merged record
  (`App.tsx:171`).
- **The open detail view after saving a collection.** Saving a collection does not update
  the open detail view (`viewingRecord`), whereas deleting an entry does
  (`App.tsx:236` against `App.tsx:259-260`).
- **The zero amount check.** The record form's required-field check tests only that the
  amount is non-empty. An amount of `"0"` passes it. The model follows the code.

## Model

| member | source | states |
|---|---|---|
| Types.SumAmountsAppend | App.tsx:282 | the sum of instalment amounts is additive over concatenated histories |
| Types.MergeWholeRecord | components/RecordForm.tsx:140 | spreading a whole record over another yields that record, keeping the old history only when the new one is absent |
| Types.MergeIdempotent | App.tsx:170 | applying the same shallow merge twice is the same as applying it once |
| Types.MergeOver | App.tsx:170 | the id and the history come from the patch when it supplies them and from the record otherwise; the empty patch leaves the record as it is |
| Types.SumAmounts | App.tsx:282 | the sum of a history's amounts is never negative when no amount is |
| Types.CollectedTotal | components/CollectionForm.tsx:30-32 | an absent history has collected nothing, and a history without negative amounts a non-negative total |
| Records.FilterKeepsUniqueIds | App.tsx:202 | filtering the records keeps contract ids pairwise distinct |
| Records.LastMatch | App.tsx:227-234 | the captured `updatedRec` is absent exactly when no record has the id, else it is the image of a record with the id |
| Records.LastMatchIsStored | App.tsx:227-234 | with unique ids, the captured record is the one stored at the matching position of the new list |
| Records.MapMatchingOthersUnchanged | App.tsx:228-234 | mapping over the matching id leaves every non-matching record as it was |
| Records.MapMatchingKeepsIds | App.tsx:248-258 | an id-preserving update keeps the list of ids, and therefore their uniqueness |
| Records.NewRecord | App.tsx:175 | a new contract carries the fresh id, an empty history, and every other field from the data |
| Records.AddRecord | App.tsx:173-176 | adding appends exactly one record after all earlier records, unchanged and in order, with the fresh id and an empty history |
| Records.AddKeepsUniqueIds | App.tsx:173-176 | adding under a fresh id keeps contract ids unique |
| Records.EditRecord | App.tsx:168-170 | editing keeps the ids in order, leaves every record with another id as it is, and merges the data over each record with the id |
| Records.SaveRecord | App.tsx:162-179 | an edit keeps the list of ids; an add keeps every earlier record in place and appends exactly the fresh id |
| Records.EditOnlyMergesMatches | App.tsx:168-170 | editing keeps length, order and ids; non-matching records are untouched; matching ones keep every field the data does not supply |
| Records.EditUnknownIdIsNoop | App.tsx:168-170 | editing with an id no record has leaves the list unchanged |
| Records.EditWithSameRecordIsNoop | App.tsx:168-170 | editing a record with its own fields leaves the list unchanged |
| Records.DeleteRecord | App.tsx:202 | the result is no longer than before, and every record in it was there before and has another id |
| Records.DeleteRecordSpec | App.tsx:202 | deleting removes every record with the id, keeps every other record, preserves their relative order and keeps ids unique |
| Records.WithoutEntry | App.tsx:230 | removing an entry changes only the record's history |
| Records.DeleteEntry | App.tsx:227-234 | the ids stay in order; records with another id are untouched; the record with the id gets a present history no longer than before, holding only earlier entries with another entry id |
| Records.DeleteEntrySpec | App.tsx:228-234 | deleting an entry touches only the target record's history: exactly the entries with the entry id are removed, the rest keep their order, an absent history becomes empty, other records are untouched |
| Records.WithIds | App.tsx:246 | each new entry gets its id and keeps its date, amount and note, in the given order |
| Records.WithNewEntries | App.tsx:250-254 | saving a collection changes only the record's history and duration |
| Records.SaveCollection | App.tsx:246-258 | the ids stay in order; records with another id are untouched; the record with the id gets its old history followed by the new entries |
| Records.SaveCollectionSpec | App.tsx:246-258 | the new entries are appended after the existing ones in order; the duration is replaced only by a non-empty new duration; other records are untouched; ids are kept |
| Records.WithIdsKeepsUniqueEntryIds | App.tsx:246-252 | appending entries under distinct fresh ids keeps entry ids unique |
| Records.DeleteKeepsUniqueEntryIds | App.tsx:230 | deleting an entry keeps entry ids unique |
| Records.FilterUniqueEntryIds | App.tsx:230 | filtering a history keeps entry ids unique |
| Records.Reconcile | App.tsx:146-150 | a successful fetch replaces the records with the fetched list, or with the empty list when none came back |
| Store.Outbox | App.tsx:106-107 | an action is sent exactly when auto-sync is on and a sheet URL is configured, and it is sent unchanged |
| Store.MapCapturing | App.tsx:227-234 | the loop that maps and captures `updatedRec` computes the mapped list and the last matching image |
| Store.CaptureStep | App.tsx:228-234 | one more record extends the mapped list by its image and updates the capture only on a match |
| Store.Ledger.constructor | App.tsx:44-57 | the ledger starts with the saved records, no record viewed, collected or edited, and the form closed |
| Store.Ledger.SaveRecord | App.tsx:162-185 | the records become the add or edit result, ids stay unique under a fresh id, the form closes, the edited record is cleared, and the add or edit action goes to the outbox |
| Store.Ledger.DeleteRecord | App.tsx:197-211 | the records lose the contract, ids stay unique, and a delete action goes to the outbox |
| Store.Ledger.DeleteCollectionEntry | App.tsx:223-240 | the records lose the entry; the open detail view is replaced by the updated record only when it shows that record; an edit of the updated record is sent only when one matched |
| Store.Ledger.StartCollecting | App.tsx:424 | opening the collection form records the contract being collected for |
| Store.Ledger.SaveCollection | App.tsx:242-264 | with no contract being collected for nothing changes; otherwise the entries are saved into that contract, the form closes, the updated record is synced, and ids stay unique |
| Store.Ledger.ApplyFetched | App.tsx:136-150 | without a sheet URL the records are untouched; otherwise they are reconciled with the fetched list |
| Views.ExpiryDate | App.tsx:266-276 | an expiry exists only for a non-empty duration and a start date that parses, and is a valid date |
| Views.GetExpiryInfo | App.tsx:266-277 | the date is the expiry; a contract is expired exactly when it has an expiry on or before today (`new Date()` is past the expiry's midnight all through the expiry day) |
| Views.IsExpired | App.tsx:266-277 | expired exactly when an expiry exists and it is on or before today |
| Views.ExpiryFailsOpen | App.tsx:267-273 | an empty start date, an empty duration or an invalid start date never makes a contract expired |
| Views.ExpiryMonotone | App.tsx:277 | once expired, a contract stays expired at every later time |
| Views.NotExpiredBeforeStart | App.tsx:266-277 | a contract is not expired before its start day when its duration is not negative, nor on its start day when its duration is positive |
| Views.ExpiryOfFormattedDuration | App.tsx:269-276 | a duration `"<n> <unit>"` expires `n` units after the start date |
| Views.ExpiryWithoutUnitCountsDays | App.tsx:271-276 | a duration with no unit is counted in days |
| Views.OneYearContractExample | App.tsx:266-277 | a one-year contract from 2024-01-01 is expired exactly from 2025-01-01 on |
| Views.ComputeStats | App.tsx:280-285 | the total is the number of contracts and the active count never exceeds it |
| Views.ActivePlusExpiredIsTotal | App.tsx:283-284 | active and expired contracts add up to the total |
| Views.StatsAppend | App.tsx:280-285 | one more contract adds its amount to investment, its collected sum to collected, one to the total, and one to active exactly when it is not expired |
| Views.MapMatchingTotals | App.tsx:248-258 | an update that keeps amounts and adds `delta` to a history's sum raises collected by `delta` per matching record and leaves investment unchanged |
| Views.SaveCollectionTotals | App.tsx:246-258 | saving a collection raises collected by the new entries' sum per record with the id and leaves investment unchanged |
| Views.MatchesSearch | App.tsx:289-291 | the empty search matches every record, and so does a term whose lower-cased form occurs in the mobile number |
| Views.FilteredRecords | App.tsx:287-294 | the result is no longer than the records, and every record in it is one of them and matches the search and the status |
| Views.FilteredIsOrderedSelection | App.tsx:287-294 | the filter returns an order-preserving subsequence containing exactly the records that match the search and the status |
| Views.ShowAllByDefault | App.tsx:287-294 | with status ALL and an empty search every record is shown, in order |
| Views.ActiveAndExpiredPartitionMatches | App.tsx:292 | ACTIVE and EXPIRED partition the records that match the search |
| Views.MobileSearchIsCaseSensitive | App.tsx:291 | the mobile number is matched without lower-casing |
| Views.Initials | App.tsx:297 | initials are at most two characters |
| Views.InitialsOfEmptyName | App.tsx:297 | an empty name gives "?" |
| Views.InitialsStartWithFirstLetter | App.tsx:297 | initials begin with the upper-cased first letter of the name |
| Views.InitialsOfTwoWords | App.tsx:297 | a two-word name gives the upper-cased first letters of both words |
| CollectionForm.InitialState | components/CollectionForm.tsx:15-26 | the form opens in SINGLE mode, monthly, not extending, with the record's instalment as amount, today's date, and an extension of 1 year |
| CollectionForm.Step | components/CollectionForm.tsx:42-46 | one step moves 1, 3 or 12 months later |
| CollectionForm.Candidates | components/CollectionForm.tsx:50-62 | every candidate is a date not after now, at or after the first one |
| CollectionForm.CandidatesChain | components/CollectionForm.tsx:48-62 | the candidates start at the first date, are empty exactly when it is after now, step by one period, and the next step lies after now |
| CollectionForm.CandidatesIncreasing | components/CollectionForm.tsx:50-62 | candidate months strictly increase |
| CollectionForm.FilterIncreasing | components/CollectionForm.tsx:54 | skipping covered months keeps months strictly increasing |
| CollectionForm.MonthKey | components/CollectionForm.tsx:51-52 | the month key is the 7-character `YYYY-MM` prefix of the ISO date |
| CollectionForm.AutoNote | components/CollectionForm.tsx:58 | the note of a generated instalment reads back as the frequency it was generated with |
| CollectionForm.ToDrafts | components/CollectionForm.tsx:55-59 | one instalment per date, each with the given amount, that date in ISO form and the note |
| CollectionForm.PendingDates | components/CollectionForm.tsx:34-62 | every date the generator emits is valid and not after now |
| CollectionForm.GenerateBulk | components/CollectionForm.tsx:34-64 | the generator returns exactly the bulk preview function |
| CollectionForm.GenerateFrom | components/CollectionForm.tsx:50-63 | the loop returns one instalment for each uncovered candidate date, in order |
| CollectionForm.DraftsStep | components/CollectionForm.tsx:50-62 | one loop iteration appends the current instalment exactly when its month is uncovered |
| CollectionForm.BulkPreview | components/CollectionForm.tsx:34-64 | outside BULK mode the preview is empty; every instalment in it has the record's amount and a note naming the frequency |
| CollectionForm.BulkPreviewSpec | components/CollectionForm.tsx:34-62 | every generated entry has the instalment amount, the frequency note, a date not after now and an uncovered month; dates strictly increase; every uncovered candidate is emitted |
| CollectionForm.BulkPreviewEmpty | components/CollectionForm.tsx:35-37 | the preview is empty outside BULK mode or when the start date is not a date |
| CollectionForm.BulkPreviewFirst | components/CollectionForm.tsx:41-48 | the first instalment is one period after the start date when that month is uncovered and not after now |
| CollectionForm.BulkPreviewMonthsDistinct | components/CollectionForm.tsx:51-60 | no two generated entries share a `YYYY-MM` prefix |
| CollectionForm.SumDrafts | components/CollectionForm.tsx:68 | the sum of instalments without negative amounts is not negative |
| CollectionForm.CurrentPayTotal | components/CollectionForm.tsx:66-69 | in SINGLE mode the total is positive exactly when the amount is a positive number; in BULK mode it is not negative when no instalment is |
| CollectionForm.SumDraftsOfEqual | components/CollectionForm.tsx:68 | instalments of equal amount sum to count times amount |
| CollectionForm.BulkPayTotal | components/CollectionForm.tsx:66-69 | in BULK mode the pay total is the number of instalments times the record's instalment |
| CollectionForm.SumAmountsOfWithIds | components/CollectionForm.tsx:68 | attaching ids does not change the sum of the amounts |
| CollectionForm.SavedBulkAddsPayTotal | components/CollectionForm.tsx:30-32 | after saving the preview, the collected total is the previous total plus the pay total |
| CollectionForm.ExtendedDuration | components/CollectionForm.tsx:111-117 | the new duration parses as the old magnitude plus the extension and ends with the extension's unit |
| CollectionForm.ExtendedDurationReadsBack | components/CollectionForm.tsx:111-117 | the extended duration reads back as the summed magnitude and the extension's unit |
| CollectionForm.PreviewUnit | components/CollectionForm.tsx:77 | the preview uses the duration's unit, or years when it has none |
| CollectionForm.NewExpiryPreview | components/CollectionForm.tsx:71-92 | there is no preview exactly when the start date or duration is empty; a preview is a valid date |
| CollectionForm.PreviewOfFormatted | components/CollectionForm.tsx:73-89 | the preview adds the duration, then the extension in its own unit when extending |
| CollectionForm.PreviewMatchesExpiry | components/CollectionForm.tsx:71-89 | without extension and with a unit, the preview agrees with the app's expiry |
| CollectionForm.UnitlessDurationDisagrees | components/CollectionForm.tsx:77-81 | a unitless duration is previewed in years but expires in days |
| CollectionForm.PreviewMatchesSavedExtension | components/CollectionForm.tsx:83-89 | extending in the duration's own unit (years or months), the preview agrees with the expiry of the saved duration |
| CollectionForm.PreviewDisagreesAcrossUnits | components/CollectionForm.tsx:83-89 | extending a duration in years by months, the preview and the saved expiry disagree whenever the years are non-zero |
| CollectionForm.PreSubmit | components/CollectionForm.tsx:94-108 | what SINGLE mode lets through has a non-empty amount and a pay total that is not negative; what BULK mode lets through has at least one instalment |
| CollectionForm.PreSubmitSingle | components/CollectionForm.tsx:96-100 | for a number-input value, SINGLE mode accepts exactly a positive amount |
| CollectionForm.SingleNote | components/CollectionForm.tsx:123 | a single payment's note is never empty, and a default note never reads as a generated instalment's note |
| CollectionForm.FinalSubmit | components/CollectionForm.tsx:110-128 | BULK mode hands the preview; SINGLE mode hands one positive payment on the chosen date; a duration is handed exactly when extending |
| CollectionForm.SubmittedDurationIsStored | components/CollectionForm.tsx:111-126 | the stored duration is the extended one when extending and the old one otherwise |
| CollectionForm.SinglePayTotalIsSaved | components/CollectionForm.tsx:66-67 | in SINGLE mode the saved payment equals the pay total |
| RecordForm.InitialForm | components/RecordForm.tsx:78-92 | a new form is empty, with a duration of 1 year starting today |
| RecordForm.LoadDuration | components/RecordForm.tsx:96-107 | loading a duration never leaves its value or unit empty |
| RecordForm.LoadForm | components/RecordForm.tsx:94-115 | loading a record keeps its numbers readable back and defaults an empty start date to today |
| RecordForm.OpenForm | components/RecordForm.tsx:78-115 | the form opens with a duration value, a unit and a start date; the empty form fails the required-field check, and a loaded record passes it exactly when its title, owner and contractor are non-empty |
| RecordForm.LoadDurationSplits | components/RecordForm.tsx:96-107 | a duration `"<v> <u>"` loads as `v` and `u` |
| RecordForm.LoadEmptyDuration | components/RecordForm.tsx:96-107 | an empty duration loads as 1 year |
| RecordForm.Instalment | components/RecordForm.tsx:119 | the instalment is price times percentage over 100, rounded to nearest |
| RecordForm.AmountChanged | components/RecordForm.tsx:117-121 | typing a price sets the amount to the raw input and the instalment to the rounded share, nothing else |
| RecordForm.InstalmentExample | components/RecordForm.tsx:117-121 | 9% of 100000 is 9000 |
| RecordForm.PreSave | components/RecordForm.tsx:123-130 | the check passes exactly when the payload's title, owner and contractor are non-empty and an amount was typed |
| RecordForm.Payload | components/RecordForm.tsx:133-139 | the payload parses the numbers (0 when not a number) and joins the duration with a space |
| RecordForm.FinalSave | components/RecordForm.tsx:132-141 | a new record saves the payload; an edit keeps the record's id, history, reference and notes under the payload |
| RecordForm.NewRecordHasRequiredFields | components/RecordForm.tsx:125-140 | a new record that passed validation has a non-empty title, owner and contractor |
| RecordForm.SavedInstalment | components/RecordForm.tsx:117-140 | the saved instalment is the rounded share of the typed price |
| RecordForm.DurationRoundTrip | components/RecordForm.tsx:96-138 | loading and saving a `"<v> <u>"` duration gives it back unchanged |
| RecordForm.EmptyDurationSavedAsOneYear | components/RecordForm.tsx:96-138 | an empty duration is saved as "1 বছর" |
| RecordForm.UnchangedEditRoundTrip | components/RecordForm.tsx:94-140 | saving a loaded record without changes yields that record |
| RecordForm.UnchangedEditLeavesLedger | components/RecordForm.tsx:94-140 | saving a loaded record without changes leaves the ledger as it was |
| Durations.AddInUnit | App.tsx:274-276 | moving a valid date by a duration gives a valid date, later for a positive magnitude and the same for zero |
| Durations.Magnitude | App.tsx:269-270 | a duration without a space has as magnitude the number it spells, or 0 |
| Durations.UnitOf | App.tsx:269-271 | the unit is absent exactly when the duration has no space, and it never holds a space |
| Durations.FormatRoundTrip | components/CollectionForm.tsx:113-116 | a duration `"<n> <unit>"` reads back as `n` and `unit` |
| Durations.AddInUnitCompose | components/CollectionForm.tsx:79-88 | adding `a` then `b` of a unit is adding `a + b` (days up to 28) |
| Text.Split | App.tsx:269 | a split has at least one part, and no part holds the separator |
| Text.ParseNumber | App.tsx:270 | blank text is not a number, and a negative result comes from a minus sign |
| Text.ParseDigitRun | App.tsx:270 | a non-empty run of decimal digits parses as its decimal value |
| Text.JoinSplit | components/RecordForm.tsx:97 | joining the parts of a split gives the string back |
| Text.SplitPair | components/RecordForm.tsx:97 | splitting `"<v> <u>"` at the space gives `v` and `u` |
| Text.ParseIntToString | components/CollectionForm.tsx:114 | a written integer parses back to itself |
| Calendar.IsoDateRoundTrip | components/CollectionForm.tsx:51 | the ISO form of a date with a four-digit year parses back to the date |
| Calendar.ParseIsoDate | App.tsx:268-273 | a date is returned only for text of the form YYYY-MM-DD, and it is a valid calendar day |
| Calendar.IsoDate | components/CollectionForm.tsx:51 | the ISO form of a date in years 0 to 9999 has ten characters with dashes at positions 4 and 7 and a four-digit year |
| Calendar.AddMonths | App.tsx:275 | adding months moves the month index by that many, keeps the day when it is at most 28, never raises it, and adding 0 changes nothing |
| Calendar.AddYears | App.tsx:274 | adding years moves the month index by twelve per year, keeps the day when it is at most 28, never raises it, and adding 0 changes nothing |
| Calendar.AddDays | App.tsx:276 | adding a positive number of days gives a later date, a negative one an earlier date, and 0 the same date |
| Calendar.AddYearsIsTwelveMonths | App.tsx:274-275 | adding years is adding twelve months per year |
| Calendar.MonthPrefixDeterminesMonth | components/CollectionForm.tsx:52 | equal `YYYY-MM` prefixes mean the same year and month |
| Seqs.FilterIsSubsequence | App.tsx:288 | a filter returns an order-preserving subsequence |
| Seqs.FilterMembership | App.tsx:288 | an element is kept exactly when it is present and passes the test |

## Left out

- **Cloud I/O.** This covers the `fetch` calls of the sync and load routines, the polling
  timer, the print URL and the AI service. A sync is modelled only as the action it would
  send (`Store.Outbox`). A load is modelled only as the replacement rule applied to what
  came back (`Store.Ledger.ApplyFetched`).
- **Local storage.** Persistence is left out. The ledger starts from given saved records.
- **UI state.** Notifications, the confirm dialog, loading and syncing flags, timeouts, the
  preview step of both forms and all rendering are left out.
- **Random values.** `generateId` is an argument, because it is random. The receipt number
  is left out because it is only displayed.
- **JavaScript `Date`.** Time zones, time of day and `toISOString`'s UTC shift are left out.
  Adding months to the 29th–31st clamps to the month's last day in the model, where
  JavaScript rolls over into the next month. The collection form's date is used as typed.
- **Floating-point parsing.** `parseInt`, `parseFloat` and `Number` are an integer-prefix
  parser. Fractions, exponents and `Infinity` are left out, and `NaN` is the absent case.
  The profit percentage is an integer.
- **Case mapping.** Lower- and upper-casing map ASCII letters only.
- **Locale formatting.** The preview is a date, not its `bn-BD` text.
- **Extra payload keys.** The form's `durationValue` and `durationUnit` keys, which the
  record payload also carries, are not stored.
- **When the stats are computed.** The dashboard stats are a function of the records and
  "now". The app recomputes them only when the records change.
- **The edit entry point.** No button in the app sets the record being edited, so the
  record form opens empty in practice. The edit path of the form is modelled anyway.
- CollectionForm.FinalSubmit: requires the SINGLE-mode amount to be what a number input
  can hold (empty or a number), as the form's input enforces. A non-numeric amount, which
  would pass validation as `NaN`, is not modelled.
- RecordForm.LoadForm: an absent start date and an empty one are treated alike, and both
  become today.
- **Unguarded reads.** Some readers do not guard against an absent field, and the model
  takes those fields as present. A record without `title`, `ownerName` or `mobile` makes
  the search filter throw a TypeError (`App.tsx:291`). A record without `collectionAmount`
  makes the collection form throw when it opens (`components/CollectionForm.tsx:18`). An
  entry without `date` makes the bulk preview throw (`components/CollectionForm.tsx:52`).
  A record without `duration` makes an extending submit throw
  (`components/CollectionForm.tsx:113`).
- Calendar.ParseIsoDate: accepts only `YYYY-MM-DD`. `new Date` also parses full
  timestamps such as `2024-01-01T00:00:00.000Z`, which records from the cloud or from
  local storage may carry; the model treats those as invalid dates (never expired, no
  bulk preview).
- Calendar.AddYears: clamps 29 February to 28 February in a year that is not a leap year,
  where `setFullYear` rolls it over to 1 March.
- Text.ParseNumber: reads decimal digits only. `parseInt("0x10")` is 16, where the model
  reads the leading `0` and gives 0 (as `parseFloat` does).
- StatCard and the AI service are not part of this model: they have no ledger behaviour.
