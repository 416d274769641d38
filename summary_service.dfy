/** `PatientSummaryService`: fetches a patient and their latest notes,
    hands the notes oldest first to the LLM service and assembles the
    summary response. */
module SummaryServices {
  import opened Wrappers
  import opened Store
  import opened Ordering
  import opened Llm
  import opened NoteServices
  import opened PatientServices
  import opened NoteRoutes

  /** `PatientHeading`. */
  datatype Heading = Heading(patientId: int, name: string, dateOfBirth: string, totalNotes: nat)

  /** `PatientSummary`, the response body. */
  datatype PatientSummary = PatientSummary(heading: Heading, summary: string, generatedAt: string)

  /** Why no summary was produced: the `ValueError` for a missing patient,
      the LLM service's `SummaryGenerationError`, or any other exception,
      with its text. */
  datatype SummaryFailure =
    | PatientMissing(message: string)
    | GenerationFailed(error: SummaryError)
    | Raised(message: string)

  /** The notes handed to the LLM: sorted by timestamp (stably), each
      reduced to its ISO timestamp text and its content. `iso` stands for
      `datetime.isoformat`. */
  function NotesData(notes: seq<Note>, iso: int -> string): seq<NoteData> {
    var s := Sort(notes, OldestFirst);
    seq(|s|, i requires 0 <= i < |s| => NoteData(iso(s[i].timestamp), s[i].content))
  }

  /** The notes handed over are the fetched notes rearranged into
      non-decreasing timestamp order, one entry per fetched note, each
      carrying that note's timestamp text and content only. */
  lemma NotesDataShape(notes: seq<Note>, iso: int -> string)
    ensures |NotesData(notes, iso)| == |notes|
    ensures var s := Sort(notes, OldestFirst);
      multiset(s) == multiset(notes)
      && (forall i, j :: 0 <= i < j < |s| ==> s[i].timestamp <= s[j].timestamp)
      && |NotesData(notes, iso)| == |s|
      && (forall i :: 0 <= i < |s| ==> NotesData(notes, iso)[i] == NoteData(iso(s[i].timestamp), s[i].content))
  {
    var s := Sort(notes, OldestFirst);
    SortPermutation(notes, OldestFirst);
    SortSorted(notes, OldestFirst);
    assert |s| == |multiset(s)| == |multiset(notes)| == |notes|;
  }

  /** The response for a present patient: the heading copied from the
      patient with the count of fetched notes, the LLM's text as the
      summary, or the LLM's failure. */
  function Response(p: Patient, fetched: seq<Note>, outcome: Result<string, SummaryError>, generatedAt: string)
    : Result<PatientSummary, SummaryFailure>
  {
    match outcome
    case Ok(text) => Ok(PatientSummary(Heading(p.id, p.name, p.dateOfBirth, |fetched|), text, generatedAt))
    case Err(e) => Err(GenerationFailed(e))
  }

  /** What `generate_summary` answers once the patient lookup has given
      `Patient | None`: the not-found `ValueError`, or the response built
      from the latest notes and the LLM's outcome. */
  function SummaryFor(db: Database, patientId: int, respond: string -> ProviderReply,
                      currentYear: int, iso: int -> string, generatedAt: string)
    : Result<PatientSummary, SummaryFailure>
    reads db
  {
    if patientId !in db.patients then Err(PatientMissing(PatientNotFound(patientId)))
    else
      var p := db.patients[patientId];
      var fetched := LatestNotes(Rows(db.notes, db.nextNoteId), patientId);
      Response(p, fetched, SummaryOutcome(respond, p.name, p.dateOfBirth, NotesData(fetched, iso), currentYear), generatedAt)
  }

  class PatientSummaryService {
    const patientsService: PatientService
    const notesService: NoteService

    constructor (patientsService: PatientService, notesService: NoteService)
      ensures this.patientsService == patientsService && this.notesService == notesService
    {
      this.patientsService := patientsService;
      this.notesService := notesService;
    }

    /** `build`: both collaborators over the same session. */
    static method Build(db: Database) returns (s: PatientSummaryService)
      ensures fresh(s) && fresh(s.patientsService) && fresh(s.notesService)
      ensures s.patientsService.db == db && s.notesService.db == db
    {
      var ps := new PatientService(db);
      var ns := new NoteService(db);
      s := new PatientSummaryService(ps, ns);
    }

    /** `generate_summary`. A missing patient fails with the not-found
        message and the LLM is not used. Otherwise the latest notes are
        fetched, handed over oldest first, and the response carries the
        patient's heading and the LLM's result. */
    method GenerateSummary(patientId: int, llm: LlmService, currentYear: int, iso: int -> string, generatedAt: string)
      returns (r: Result<PatientSummary, SummaryFailure>)
      requires patientsService.db == notesService.db && patientsService.db.Valid()
      modifies llm.provider
      ensures r == SummaryFor(patientsService.db, patientId, llm.provider.respond, currentYear, iso, generatedAt)
      ensures patientId !in patientsService.db.patients ==>
        r == Err(PatientMissing(PatientNotFound(patientId)))
        && llm.provider.prompts == old(llm.provider.prompts)
      ensures patientId in patientsService.db.patients ==>
        var db := patientsService.db;
        var p := db.patients[patientId];
        var fetched := LatestNotes(Rows(db.notes, db.nextNoteId), patientId);
        var data := NotesData(fetched, iso);
        r == Response(p, fetched, SummaryOutcome(llm.provider.respond, p.name, p.dateOfBirth, data, currentYear), generatedAt)
        && llm.provider.prompts == old(llm.provider.prompts)
             + (if data == [] then [] else [BuildPrompt(p.name, p.dateOfBirth, data, currentYear)])
    {
      var found := patientsService.GetPatient(patientId);
      if found.None? {
        return Err(PatientMissing(PatientNotFound(patientId)));
      }
      var p := found.value;
      var fetched := notesService.GetLatestPatientNotes(patientId);
      var data := NotesData(fetched, iso);
      var outcome := llm.GeneratePatientSummary(p.name, p.dateOfBirth, data, currentYear);
      r := Response(p, fetched, outcome, generatedAt);
    }
  }

  /** A produced summary carries the patient's own id, name and date of
      birth, the LLM's text unchanged, and at most five notes counted;
      it fails exactly when the LLM call fails. */
  lemma ResponseShape(db: Database, patientId: int, respond: string -> ProviderReply,
                      currentYear: int, iso: int -> string, generatedAt: string)
    requires db.Valid() && patientId in db.patients
    ensures var p := db.patients[patientId];
      var fetched := LatestNotes(Rows(db.notes, db.nextNoteId), patientId);
      var outcome := SummaryOutcome(respond, p.name, p.dateOfBirth, NotesData(fetched, iso), currentYear);
      var r := Response(p, fetched, outcome, generatedAt);
      (r.Ok? <==> outcome.Ok?)
      && (r.Ok? ==>
            r.value.heading.patientId == patientId && r.value.heading.name == p.name
            && r.value.heading.dateOfBirth == p.dateOfBirth
            && r.value.heading.totalNotes == |fetched| <= 5
            && r.value.summary == outcome.value && r.value.generatedAt == generatedAt)
      && (r.Err? ==> r.error == GenerationFailed(outcome.error))
  {
    NoteRowsShape(db);
    LatestNotesSpec(Rows(db.notes, db.nextNoteId), patientId);
  }

  /** A patient without notes has nothing fetched. */
  lemma NothingFetched(db: Database, patientId: int)
    requires db.Valid() && NoteIdsOf(db.notes, patientId) == {}
    ensures LatestNotes(Rows(db.notes, db.nextNoteId), patientId) == []
  {
    var rows := Rows(db.notes, db.nextNoteId);
    var fetched := LatestNotes(rows, patientId);
    if fetched != [] {
      LatestNotesSpec(rows, patientId);
      NoteUnderOwnId(db, fetched[0]);
    }
  }

  /** A patient without notes gets the fixed no-notes summary and a zero
      count. */
  lemma NoNotesSummary(db: Database, patientId: int, respond: string -> ProviderReply,
                       currentYear: int, iso: int -> string, generatedAt: string)
    requires db.Valid() && patientId in db.patients
    requires NoteIdsOf(db.notes, patientId) == {}
    ensures var p := db.patients[patientId];
      var fetched := LatestNotes(Rows(db.notes, db.nextNoteId), patientId);
      Response(p, fetched, SummaryOutcome(respond, p.name, p.dateOfBirth, NotesData(fetched, iso), currentYear), generatedAt)
        == Ok(PatientSummary(Heading(patientId, p.name, p.dateOfBirth, 0), NoNotesMessage, generatedAt))
  {
    NothingFetched(db, patientId);
    assert NotesData([], iso) == [];
  }

  // ---------------------------------------------------------------------
  // `generate_summary` as written

  /** The operand of an `await`: the coroutine an `async def` returns, or
      any other object, named by its type. */
  datatype Awaitable<T> = Coroutine(result: T) | PlainObject(obj: T, typeName: string)

  /** `await a`: a coroutine gives its result; any other object raises
      `TypeError`. */
  function Await<T>(a: Awaitable<T>): (r: Result<T, string>)
    ensures r.Ok? <==> a.Coroutine?
    ensures a.PlainObject? ==> r.error == "object " + a.typeName + " can't be used in 'await' expression"
  {
    match a
    case Coroutine(v) => Ok(v)
    case PlainObject(_, t) => Err("object " + t + " can't be used in 'await' expression")
  }

  /** What the synchronous `PatientService.get_patient` returns, as the
      object `await` receives. */
  function GetPatientAwaitable(db: Database, patientId: int): Awaitable<Option<Patient>>
    reads db
  {
    if patientId in db.patients then PlainObject(Some(db.patients[patientId]), "Patient")
    else PlainObject(None, "NoneType")
  }

  /** `generate_summary` as written: it awaits the plain value
      `get_patient` returns, and only a coroutine would get past that
      step to the lookup's result. */
  function GenerateSummaryAsWritten(db: Database, patientId: int, respond: string -> ProviderReply,
                                    currentYear: int, iso: int -> string, generatedAt: string)
    : Result<PatientSummary, SummaryFailure>
    reads db
  {
    match Await(GetPatientAwaitable(db, patientId))
    case Err(e) => Err(Raised(e))
    case Ok(_) => SummaryFor(db, patientId, respond, currentYear, iso, generatedAt)
  }

  const SummaryRouteFailure: string := "Failed to generate summary: "

  /** The summary route's answer: a `ValueError` becomes 404 with its
      text, every other exception 500 with its text after the route's
      prefix. */
  function SummaryRoute(r: Result<PatientSummary, SummaryFailure>): Result<PatientSummary, HttpError> {
    match r
    case Ok(summary) => Ok(summary)
    case Err(PatientMissing(m)) => Err(HttpError(404, m))
    case Err(GenerationFailed(e)) => Err(HttpError(500, SummaryRouteFailure + e.message))
    case Err(Raised(m)) => Err(HttpError(500, SummaryRouteFailure + m))
  }

  /** As written, every request fails with a `TypeError` naming the
      lookup's type, which the route answers with 500, whether the patient
      exists or not; the corrected service differs from it on every
      input. */
  lemma GenerateSummaryAsWrittenFails(db: Database, patientId: int, respond: string -> ProviderReply,
                                       currentYear: int, iso: int -> string, generatedAt: string)
    ensures var typeName := if patientId in db.patients then "Patient" else "NoneType";
      GenerateSummaryAsWritten(db, patientId, respond, currentYear, iso, generatedAt)
        == Err(Raised("object " + typeName + " can't be used in 'await' expression"))
    ensures SummaryRoute(GenerateSummaryAsWritten(db, patientId, respond, currentYear, iso, generatedAt)).Err?
    ensures SummaryRoute(GenerateSummaryAsWritten(db, patientId, respond, currentYear, iso, generatedAt)).error.status == 500
    ensures GenerateSummaryAsWritten(db, patientId, respond, currentYear, iso, generatedAt)
      != SummaryFor(db, patientId, respond, currentYear, iso, generatedAt)
  {
  }

  /** With the lookup awaited correctly, the route answers 404 with the
      not-found text exactly for a missing patient, a summary exactly when
      the patient exists and the LLM succeeds, and 500 with the LLM
      service's message otherwise. */
  lemma SummaryRouteCases(db: Database, patientId: int, respond: string -> ProviderReply,
                          currentYear: int, iso: int -> string, generatedAt: string)
    requires db.Valid()
    ensures var r := SummaryRoute(SummaryFor(db, patientId, respond, currentYear, iso, generatedAt));
      (r == Err(HttpError(404, PatientNotFound(patientId))) <==> patientId !in db.patients)
      && (r.Ok? <==>
            (patientId in db.patients
             && SummaryOutcome(respond, db.patients[patientId].name, db.patients[patientId].dateOfBirth,
                  NotesData(LatestNotes(Rows(db.notes, db.nextNoteId), patientId), iso), currentYear).Ok?))
      && (r.Err? && patientId in db.patients ==>
            r.error == HttpError(500, SummaryRouteFailure + FailureMessage))
  {
    if patientId in db.patients {
      var p := db.patients[patientId];
      var fetched := LatestNotes(Rows(db.notes, db.nextNoteId), patientId);
      SummaryOutcomeCases(respond, p.name, p.dateOfBirth, NotesData(fetched, iso), currentYear);
    }
  }
}
