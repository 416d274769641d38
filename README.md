# Patient notes service: a verified model of its core

The service stores patients and free-text clinical notes about them, validates
what clients send (patient fields, uploaded note files), and builds an
AI-written summary of a patient's latest notes through a pluggable language
model provider. A seeding utility fills a development database with five
patients and twelve notes, and another utility clears it.

This Dafny project models that core and proves what it does:

- `patient_schemas.dfy` (`PatientSchemas`): the `PatientCreate` and
  `PatientUpdate` field constraints and the two validators of `PatientBase`.
  The date of birth is checked month first, then day, then year. The name is
  whitespace-normalised.
- `text.dfy` (`Text`): Python's `str.strip`, `str.split()`, `str.join`,
  `int()` on digit strings and `str()` on integers, with Python 3's
  whitespace set.
- `utf8.dfy` (`Utf8`): the strict UTF-8 decoder behind `bytes.decode("utf-8")`
  (sections 3 and 4 of RFC 3629), and the encoder.
- `prompts.dfy` (`Prompts`): the summary prompt template and `str.format`
  over it.
- `llm.dfy` (`Llm`): provider selection and `datetime.strptime(s, "%Y-%m-%d")`.
  Also the year-only age, the numbered notes text, prompt assembly,
  and a summary request with its error wrapping. The provider is an oracle
  that answers a prompt with a summary or a failure.
- `store.dfy` (`Store`): the two tables as a `Database` class. It holds
  `patients` and `notes` maps, the next id of each table, and a ghost log of
  session calls (add, delete, bulk delete, commit, refresh). Its invariant:
  every row sits under its own id, below the table's counter, and every note
  belongs to a live patient. Deletion cascades from a patient to its notes.
- `ordering.dfy` (`Ordering`): the `sort_by` parameter, the `ORDER BY` of the
  listings (a sort proved sorted and a permutation), the patient filter and
  the limit of five.
- `note_service.dfy`, `patient_service.dfy`, `summary_service.dfy`: the
  `NoteService`, `PatientService` and `PatientSummaryService` classes over one
  `Database`.
- `note_routes.dfy` (`NoteRoutes`): the upload validator, the ownership guard
  of the single-note routes, and the mapping of service outcomes to HTTP
  errors.
- `seed.dfy` (`Seed`): `seed_database` and `clear_database` as loops of
  session calls over the store.

Clocks are parameters: `now`, the current year, and the instant the notes
model was imported. Times are integers. `datetime.isoformat` is a parameter
`iso`, and `generated_at` is an opaque input.

## Model

| member | source | states |
|---|---|---|
| PatientSchemas.DateOfBirthAcceptance | app/schemas/patients.py:19-32 | A value matching `\d{4}-\d{2}-\d{2}` is accepted exactly when 1 ≤ month ≤ 12, 1 ≤ day ≤ 31 and 1900 ≤ year ≤ current year; an accepted value comes back unchanged |
| PatientSchemas.DateOfBirthErrorOrder | app/schemas/patients.py:26-31 | The month error exactly when the month is out of range; the day error exactly when the month is good and the day is not; the year error exactly when month and day are good and the year is not |
| PatientSchemas.YearMessageDistinct | app/schemas/patients.py:27-31 | The month, day and year messages are pairwise different |
| PatientSchemas.NoCalendarCheck | app/schemas/patients.py:28-29 | "2001-02-31" matches the pattern and is accepted unchanged |
| PatientSchemas.YearBoundsInclusive | app/schemas/patients.py:30-31 | Years 1900 and the current year are accepted; 1899 and the current year plus one get "Year must be between 1900 and N" |
| PatientSchemas.PatternFirst | app/schemas/patients.py:48 | A value is refused by the pattern constraint exactly when it does not match it, before the validator runs |
| PatientSchemas.NonePasses | app/schemas/patients.py:51-57 | An absent optional name or date passes both validators unchanged, and an update with neither field is valid |
| PatientSchemas.NameRejectsBlank | app/schemas/patients.py:39-40 | The name validator fails exactly for an empty or all-whitespace name, with "Name cannot be empty or whitespace" |
| PatientSchemas.NormalisedName | app/schemas/patients.py:41 | An accepted name is single-spaced, has no whitespace at its ends, no two adjacent spaces, the input's words in order, and is non-empty and no longer than the input |
| PatientSchemas.NameIdempotent | app/schemas/patients.py:41 | Normalising a normalised name gives it back |
| PatientSchemas.NameLengthOnRawText | app/schemas/patients.py:47 | The 1 to 100 length limits apply to the raw text before the validator: too long and empty get the length errors, in range goes to the validator |
| Text.StripShape | app/routes/notes.py:47-50 | `strip()` leaves no whitespace at the ends, is empty exactly for all-whitespace text, and is a contiguous piece of the input |
| Text.SplitJoin | app/schemas/patients.py:41 | Splitting words joined by single spaces gives the words back |
| Text.IntToStringRoundTrip | app/llm/service.py:47 | `str(i)` starts with "-" exactly for negative `i`, and its digits read back as `abs(i)` |
| Utf8.DecodeEncode | app/routes/notes.py:41-44 | Every text's UTF-8 encoding is accepted by the strict decoder and decodes back to the text |
| Utf8.EncodeDecode | app/routes/notes.py:41-44 | Bytes the strict decoder accepts are exactly the encoding of the decoded text |
| Utf8.RejectedExamples | app/routes/notes.py:41-44 | A lone continuation byte, an overlong form, a surrogate, a code point above U+10FFFF and a truncated sequence are all refused |
| Prompts.SummaryPromptText | app/llm/prompts.py:1-21 | The prompt is the template's literal text with name, age, date of birth and notes text in their places |
| Prompts.SummaryPromptContains | app/llm/prompts.py:1-21 | Each of the four substituted values occurs verbatim in the prompt |
| Llm.ProviderSelection | app/llm/service.py:19-26 | "openai" with a non-empty key selects the OpenAI provider and nothing else does; any other name fails with "Unknown LLM provider: <name>"; "openai" without a key fails with the key message |
| Llm.ParseDateSound | app/llm/service.py:31 | What `strptime` accepts is a real calendar date whose year is the first four characters |
| Llm.AgeOfShapedDate | app/llm/service.py:28-37 | For a date of the schema's shape the age is current year minus birth year when it names a real date, else 0 |
| Llm.AgeOfUnparseable | app/llm/service.py:35-37 | A value `strptime` rejects gets age 0 |
| Llm.AgeExample | app/llm/service.py:28-34 | "2000-01-01" gives the current year minus 2000 |
| Llm.ValidatedButUnparseable | app/llm/service.py:30-37 | "2001-02-31" passes the date-of-birth validator yet gets age 0 |
| Llm.NotesTextEmpty | app/llm/service.py:45-50 | The notes text is empty exactly for an empty list |
| Llm.NotesTextSingle | app/llm/service.py:45-50 | One note gives "Note 1 (ts):\ncontent" |
| Llm.NotesTextSnoc | app/llm/service.py:45-50 | One more note appends a blank line and its entry, numbered after the others |
| Llm.NotesTextContains | app/llm/service.py:45-50 | Every entry, and every note's content, occurs in the notes text |
| Llm.BuildPromptText | app/llm/service.py:39-59 | The prompt is the template with the name, the age text, the date of birth and the notes text substituted |
| Llm.BuildPromptContains | app/llm/service.py:52-57 | The name, the date of birth and the notes text occur verbatim in the prompt |
| Llm.Provider.GenerateSummary | app/llm/backends/base.py:7-10 | The reply is the provider's answer to the prompt, and the prompt is recorded as sent |
| Llm.SummaryOutcomeCases | app/llm/service.py:61-76 | Empty list: the fixed no-notes message. Otherwise success exactly when the provider succeeds, with its text unchanged; a failure is wrapped with "Failed to generate patient summary" and keeps the provider's error as cause |
| Llm.LlmService.GeneratePatientSummary | app/llm/service.py:61-76 | Returns that outcome; no provider call for an empty list, exactly one call with the built prompt otherwise |
| Llm.NewLlmService | app/llm/service.py:16-26 | Building the service succeeds exactly when provider selection does, with a fresh provider that has been sent nothing; otherwise it fails with the selection's message |
| Store.CreatedAtAsWrittenIgnoresInsertTime | app/models/notes.py:24-26 | With the default as declared, notes inserted at different times get the same `created_at` |
| Store.CreatedAtFollowsInsertTime | app/models/notes.py:24-26 | With a per-insert default, a later insert gets a later `created_at` |
| Store.Database.AddPatient | app/models/patients.py:14-24 | A new patient goes under the next id, which was free; nothing else changes but the counter and the log |
| Store.Database.AddNote | app/models/notes.py:15-23 | A new note of a live patient goes under the next id, which was free; the invariant is kept |
| Store.Database.DeletePatientRow | app/models/patients.py:27-29 | Deleting a patient removes it and all its notes (the cascade); every other row stays and the invariant is kept |
| Store.Database.DeleteNoteRow | app/models/notes.py:15-23 | Deleting a note removes that row alone |
| Store.Database.ReplacePatient | app/services/patients.py:28-30 | Flushing a changed patient replaces that row alone; ids, counters, notes and the invariant stay |
| Store.Database.BulkDeleteNotes | app/services/notes.py:94-96 | The bulk delete removes exactly the patient's notes, keeps every other row and reports how many it removed |
| Store.WithoutPatientShape | app/models/patients.py:27-29 | The cascade keeps exactly the notes of other patients, unchanged, and leaves the deleted patient none |
| Store.PatientRowsShape | app/services/patients.py:11-12 | Listing a valid table gives every patient once, as many rows as patients, in the model's scan order (ascending id) |
| Store.NoteRowsShape | app/services/notes.py:57-58 | Listing a valid notes table gives every note once, in the model's scan order (ascending id) |
| Ordering.SortPermutation | app/services/notes.py:57-59 | The sorted listing holds exactly the notes it was given (a permutation) |
| Ordering.SortSorted | app/services/notes.py:57-59 | The sorted listing is in the requested order |
| Ordering.ReverseSorted | app/services/notes.py:45-53 | Reversing an ascending listing gives a descending one, and the other way round |
| Ordering.SortedUnique | app/services/notes.py:57-59 | Without ties there is only one listing of a collection in a given order |
| Ordering.OldestIsReverseOfNewest | app/services/notes.py:45-53 | With distinct timestamps, "timestamp" lists exactly the reverse of "-timestamp" |
| Ordering.ParseSortByRoundTrip | app/services/notes.py:45-53 | No key or an empty key: newest first. A column's name sorts ascending on that column and "-" and the name descending; each such order is chosen by exactly that spelling, so any other key falls back to newest first |
| Ordering.ParseSortByExamples | app/services/notes.py:45-53 | "timestamp", "-timestamp", "content", "-", "--timestamp" and "name" give the orders the parsing rules say |
| Ordering.FilterMembers | app/services/notes.py:58 | The filter keeps exactly the patient's notes |
| Ordering.TakeSpec | app/services/notes.py:69 | `limit(k)` keeps at most `k` of the sorted notes, still in order; every kept note comes no later than every note left out; fewer than `k` only when nothing was left out |
| Ordering.SortFilterSpec | app/services/notes.py:55-60 | The listing holds exactly the patient's notes, in the requested order, as a permutation of the filtered rows |
| Ordering.LatestNotesSpec | app/services/notes.py:62-71 | At most five of the patient's notes, newest first; no omitted note of the patient is newer than a returned one; fewer than five only when that is all of them |
| NoteServices.NoteService.CreateNote | app/services/notes.py:19-37 | Missing patient: the "Patient with id N not found" error and nothing changes. Otherwise exactly one note with the given patient, content and timestamp under a fresh id, other notes untouched; add, commit and refresh are logged |
| NoteServices.NoteService.GetPatientNotes | app/services/notes.py:39-60 | Exactly the patient's notes, each once, in the order `sort_by` asks for |
| NoteServices.NoteService.GetLatestPatientNotes | app/services/notes.py:62-71 | The latest-five listing: at most five notes of the patient, newest first, none omitted newer than one returned, all of them when fewer than five |
| NoteServices.NoteService.GetNote | app/services/notes.py:73-79 | The note with that id, or `None` exactly when there is none |
| NoteServices.NoteService.DeleteNote | app/services/notes.py:81-89 | `true` exactly when the note existed; only that note is removed; nothing changes otherwise |
| NoteServices.NoteService.DeletePatientNotes | app/services/notes.py:91-98 | Returns the number of the patient's notes; none remain, every other note stays; one bulk delete and a commit |
| PatientServices.SetFieldsValues | app/services/patients.py:26-27 | After the `setattr` loop each column holds the last value given for it, or its old value; id and timestamps untouched |
| PatientServices.NoUpdatesNoChange | app/services/patients.py:26-27 | An empty update changes nothing |
| PatientServices.UpdateKeepsOtherColumns | app/services/patients.py:24-32 | An update keeps id, `created_at` and every column it was not given; a given column ends with its last value |
| PatientServices.UpdatedAtOnChange | app/models/patients.py:22-24 | `updated_at` moves to the clock exactly when a column's value changed |
| PatientServices.PatientService.ListPatients | app/services/patients.py:11-12 | Every stored patient exactly once, no filtering, in the model's scan order (ascending id) |
| PatientServices.PatientService.GetPatient | app/services/patients.py:14-15 | The patient with that id, or `None` exactly when there is none |
| PatientServices.PatientService.CreatePatient | app/services/patients.py:17-22 | One new patient with the given fields under a fresh id, others unchanged |
| PatientServices.PatientService.UpdatePatient | app/services/patients.py:24-32 | Missing id: `None` and no change. Otherwise the pairs applied in order, then flushed, only that row replaced; commit and refresh logged |
| PatientServices.PatientService.DeletePatient | app/services/patients.py:34-40 | `true` exactly when the patient existed; it is removed with all its notes, no other row touched; no change otherwise |
| SummaryServices.NotesDataShape | app/services/summary.py:40-43 | The notes handed over are the fetched notes rearranged into non-decreasing timestamp order, one entry per note, carrying only its ISO timestamp and content |
| SummaryServices.PatientSummaryService.Build | app/services/summary.py:22-27 | Both collaborators are new and share the one session |
| SummaryServices.PatientSummaryService.GenerateSummary | app/services/summary.py:29-61 | With the lookup corrected (see Findings), the result is `SummaryFor`. Missing patient: the not-found error and no LLM call. Otherwise the latest five notes, oldest first, go to the LLM once (or not at all when there are none) with the patient's name and date of birth, and the response is built from its result |
| SummaryServices.Await | app/services/summary.py:34 | `await` gives a coroutine's result and raises `TypeError` ("object T can't be used in 'await' expression") for any other object |
| SummaryServices.GenerateSummaryAsWrittenFails | app/services/summary.py:34 | As written, awaiting the plain `Patient` or `None` from the synchronous `get_patient` raises `TypeError` for every patient id, present or not; the route answers 500, and the corrected service never gives that result |
| SummaryServices.SummaryRouteCases | app/routes/summary.py:31-41 | With the lookup awaited correctly: 404 with the not-found text exactly for a missing patient; a summary exactly when the patient exists and the LLM succeeds; otherwise 500 "Failed to generate summary: " and the LLM service's message |
| SummaryServices.ResponseShape | app/services/summary.py:52-61 | A produced summary carries the patient's id, name and date of birth, at most five notes counted, the LLM text unchanged and the given `generated_at`; it fails exactly when the LLM does |
| SummaryServices.NoNotesSummary | app/services/summary.py:38-61 | A patient without notes gets the fixed no-notes summary and a count of zero |
| NoteRoutes.InvalidTypeMessageText | app/routes/notes.py:27-33 | The type error reads "Invalid file type. Allowed types: text/plain" |
| NoteRoutes.UploadErrorsInOrder | app/routes/notes.py:25-48 | Each error occurs exactly when every earlier check passed and its own failed: type, then size, then decoding, then emptiness |
| NoteRoutes.UploadSuccess | app/routes/notes.py:25-50 | The upload is accepted exactly when the type is "text/plain", the size is within the limit, the bytes decode, and the text is not all whitespace |
| NoteRoutes.UploadResult | app/routes/notes.py:47-50 | An accepted upload is the decoded text stripped: non-empty, no whitespace at its ends, a contiguous piece of the text |
| NoteRoutes.AtLimitNotTooLarge | app/routes/notes.py:37-38 | Content exactly at the size limit is not refused as too large |
| NoteRoutes.UploadOfEncodedText | app/routes/notes.py:41-50 | Uploading the encoding of a text that is not all whitespace yields that text stripped |
| NoteRoutes.OwnedNoteSpec | app/routes/notes.py:87-89 | The guard passes exactly an existing note of the path's patient, unchanged; anything else is 404 "Note not found" |
| NoteRoutes.GuardAsWrittenRefusesOwner | app/routes/notes.py:88 | As written, the guard answers a server error even for the owner's own note |
| NoteRoutes.CreateNoteFile | app/routes/notes.py:53-67 | A validation error is answered as raised; a missing patient becomes 400 with the service's message; otherwise the stripped text is stored as one new note; nothing is stored on any error |
| NoteRoutes.GetNote | app/routes/notes.py:80-90 | The note exactly when it exists and belongs to the path's patient, otherwise 404 |
| NoteRoutes.DeleteNote | app/routes/notes.py:93-105 | 404 and no change unless the note exists and belongs to the patient; only then is that note alone deleted |
| NoteRoutes.DeleteNoteAsWritten | app/routes/notes.py:93-105 | As written, the route never deletes: an existing note answers 500 and a missing one 404, and the tables and the session log are unchanged |
| Seed.SeedDatabase | app/core/seed.py:15-194 | Patients present and no `force`: nothing changes. Otherwise the wipe, if there was anything, then exactly the five seed patients and twelve seed notes, with the counters and the session log as seeding makes them |
| Seed.AddSeedData | app/core/seed.py:36-192 | From empty tables: the five patients, a commit, their refreshes, the twelve notes, a commit |
| Seed.DeleteAllPatients | app/core/seed.py:30-34 | Deletes each listed patient once, in the model's scan order; both tables end empty |
| Seed.AddSeedPatients | app/core/seed.py:62-66 | Adds the five seed patients under consecutive fresh ids, in list order |
| Seed.RefreshPatients | app/core/seed.py:71-72 | Refreshes each new patient once, in order, and changes no row |
| Seed.AddSeedNotes | app/core/seed.py:176-190 | Adds every note of every group, group by group, for its patient; `total_notes` ends at the number of notes added |
| Seed.SeededPatientsFacts | app/core/seed.py:39-68 | Exactly five patients under consecutive ids, with the listed names and dates of birth |
| Seed.SeedNoteTotal | app/core/seed.py:79-174 | The note groups hold twelve notes |
| Seed.SeededNotesFacts | app/core/seed.py:176-190 | Exactly twelve notes under consecutive ids, each stored under its own id and owned by one of the five seed patients |
| Seed.SeededNoteAt | app/core/seed.py:77-190 | Each seed note is stored under the id after the seed notes before it, for its group's patient, with its text, the time `base_time` plus its day offset, and the `created_at` default |
| Seed.SeededNotesPerPatient | app/core/seed.py:79-190 | The seed patients get 3, 3, 2, 2 and 2 notes |
| Seed.SeedLogCounts | app/core/seed.py:63-192 | Seeding commits twice, refreshes five patients, adds seventeen rows and deletes nothing |
| Seed.WipeLogCounts | app/core/seed.py:30-34 | The wipe deletes each existing patient once and commits once, or does nothing when there are none |
| Seed.WipeBeforeSeed | app/core/seed.py:30-68 | Every delete of the wipe comes before every add of the seeding |
| Seed.ClearDatabase | app/core/seed.py:197-218 | Both tables end empty, and the log gains the note deletions, then the patient deletions, then one commit |
| Seed.DeleteAllNotes | app/core/seed.py:206-209 | Deletes each listed note once, in the model's scan order; the patients stay |
| Seed.ClearLogFacts | app/core/seed.py:205-217 | Every note delete comes before every patient delete; deletions number notes plus patients; one commit; so an empty store gets no delete and one commit |

## Left out

- Sessions, engines, pools and transactions are not modelled; the store is
  in memory. Awaited coroutines are plain calls; the one `await` of a
  value that is not a coroutine is modelled (see Findings). A commit or refresh is only
  recorded in the ghost log, since no other writer can change a row in
  between.
- Row ids are handed out at `add` from the table's counter. The ORM
  assigns them at flush. Ids are unbounded integers, not 32-bit serials.
- `fastapi_pagination.apaginate`: a listing is the full filtered, sorted
  sequence, without the page envelope.
- FastAPI routing, dependency injection, request parsing (the form
  timestamp, `UploadFile.read`), response models and status codes of
  success (201, 204) are not modelled. The patient routes are not part of
  this model. Of the summary route only its mapping of exceptions to
  status codes is modelled.
- `PatientService` is written against a synchronous `Session` (`query`).
  The summary route hands it an `AsyncSession`, which has no `query`, so
  there the lookup would raise `AttributeError` even before the `await`.
  The model gives `PatientService` a working session.
- Trigram name search and patient sorting: the code has neither in
  `list_patients`.
- Logging, the middlewares, the demo item endpoints and the seed command
  line are not part of this model.
- The OpenAI backend's network call: the provider is an oracle whose
  answer to a prompt is a summary or a failure. Any exception it raises is
  a failure.
- Clocks: `datetime.now()`, the current year, `func.now()` and the import
  instant are parameters. Times are integer seconds without time zones.
  `isoformat` is a parameter, and `generated_at` is an input.
- Patient updates carry only the two schema columns, `name` and
  `date_of_birth`. Other dictionary keys are not modelled.
- `PatientSchemas.DateOfBirthAcceptance`: the pattern's `\d` is taken as an
  ASCII digit. The regular-expression engine that pydantic checks `pattern`
  with also matches other Unicode decimal digits, and `int()` accepts them.
- `Llm.ParseDateSound`: the `strptime` model likewise reads only ASCII
  digits.
- `Ordering.ParseSortByRoundTrip`: a `sort_by` that names a non-column attribute
  of the model class (the `patient` relationship, `metadata`) passes
  `hasattr` in the code and goes to the database. The model treats such a
  name as unknown and falls back to newest first.
- `Ordering.SortSorted`: text columns are ordered by code point, not by the
  database collation.
- `NoteServices.NoteService.GetPatientNotes`: notes whose sort keys tie come
  back by ascending id in the model. The database promises no order among
  ties, so the contract states only sortedness and membership.
- `NoteServices.NoteService.GetLatestPatientNotes`: equal timestamps come
  back by ascending id in the model, and this decides which equal-timestamp
  notes survive `limit(5)` and reach the summary. The database promises no
  order among ties.
- `Store.PatientRowsShape`: a query without `ORDER BY` comes back by
  ascending id in the model. The database promises no order.
- `Store.NoteRowsShape`: a query without `ORDER BY` comes back by ascending
  id in the model. The database promises no order.
- `PatientServices.PatientService.ListPatients`: `query(Patient).all()` has
  no `ORDER BY`. The model returns ascending id, which the database does
  not promise.
- `Seed.DeleteAllPatients`: `select(Patient)` has no `ORDER BY`. The logged
  deletes follow ascending id in the model, which the database does not
  promise. The final state does not depend on the order.
- `Seed.DeleteAllNotes`: `select(PatientNote)` has no `ORDER BY`. The logged
  deletes follow ascending id in the model, which the database does not
  promise. The final state does not depend on the order.
- `NoteServices.NoteService.CreateNote`: the new note's `created_at` is the
  corrected per-insert default `Store.CreatedAt`, not the import instant
  that the declared default gives (see Findings).
- `NoteRoutes.CreateNoteFile`: the stored note's `created_at` is the
  corrected per-insert default, not the import instant (see Findings).
- `Seed.SeedDatabase`: the seeded notes' `created_at` is the corrected
  per-insert default, not the import instant (see Findings).
- `Seed.AddSeedData`: the twelve notes' `created_at` is the corrected
  per-insert default, not the import instant (see Findings).
- `NoteRoutes.GetNote`: uses the corrected guard `OwnedNote`. As written,
  every existing note answers 500 (see Findings).
- `NoteRoutes.DeleteNote`: uses the corrected guard `OwnedNote`. As written,
  every existing note answers 500 and nothing is deleted
  (`NoteRoutes.DeleteNoteAsWritten`, see Findings).
- `SummaryServices.SummaryRouteCases`: assumes that
  `SummaryGenerationError` is not a subclass of `ValueError`, so that the
  route answers it with 500 and not 404, and that `str(e)` is the message
  it was raised with. `app/llm/exceptions.py` is not part of this model.
- `Seed.SeedDatabase`: one clock value `now` stands for both the
  database's `func.now()` (the patients' `created_at` and `updated_at`)
  and the host's `datetime.now()` (the notes' base time). The two clocks
  may differ.
- `Seed.AddSeedData`: one clock value `now` stands for both the
  database's `func.now()` and the host's `datetime.now()`, which may
  differ.
- `SummaryServices.PatientSummaryService.GenerateSummary`: models the
  corrected lookup (the result of `get_patient` used without `await`). As
  written, every call raises `TypeError` (see Findings).
- `Seed.AddSeedNotes`: `if not patient_id: continue` is modelled as a test
  for id 0. Ids start at 1, so it never skips a seed patient.
- The seed's log messages ("Created N notes ...") are not modelled;
  `total_notes` is the count `AddSeedNotes` returns.

## Findings

| source | as written | input that shows it | evidently intended | confidence | as-written member | corrected member |
|---|---|---|---|---|---|---|
| app/models/notes.py:24-26 | `default=datetime.now(timezone.utc)` is evaluated once, when the class is defined, so every note gets that one instant as `created_at` | two notes inserted at times t1 < t2 | each note's `created_at` is the time of its insert (a callable default) | high, not executed | Store.CreatedAtAsWrittenIgnoresInsertTime | Store.CreatedAtFollowsInsertTime |
| app/routes/notes.py:88, app/routes/notes.py:101 | the guard of `get_note` and of `delete_note` calls `note.get("patient_id")` on the ORM object, which has no `get`, so any existing note raises `AttributeError` (a server error) | `GET /patients/1/notes/7` where note 7 belongs to patient 1 | compare `note.patient_id` with the path's patient id and answer 404 on a mismatch | high, not executed | NoteRoutes.GuardAsWrittenRefusesOwner, NoteRoutes.DeleteNoteAsWritten | NoteRoutes.OwnedNoteSpec |
| app/services/summary.py:34 | `await self.patients_service.get_patient(patient_id)` awaits the plain `Patient` or `None` that the synchronous `get_patient` (app/services/patients.py:14-15) returns, which raises `TypeError`; the route answers 500 | `GET /patients/1/summary` with patient 1 stored | use the lookup's result without `await` (or make `get_patient` a coroutine over the async session), giving the summary or the 404 | high, not executed | SummaryServices.GenerateSummaryAsWrittenFails | SummaryServices.SummaryRouteCases |
