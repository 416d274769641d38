/** The note routes: the upload validator's ordered checks, the ownership
    guard of the single-note routes, and the mapping of service outcomes
    to HTTP errors. */
module NoteRoutes {
  import opened Wrappers
  import opened Text
  import opened Utf8
  import opened Store
  import opened NoteServices

  /** An `HTTPException`: status code and detail text. */
  datatype HttpError = HttpError(status: int, detail: string)

  /** `settings.allowed_upload_types` as the validator spells it out. */
  const AllowedUploadTypes: seq<string> := ["text/plain"]

  /** `settings.max_upload_size`: 10 MiB. */
  const MaxUploadSize: int := 10 * 1024 * 1024

  function InvalidTypeMessage(): string {
    "Invalid file type. Allowed types: " + Join(", ", AllowedUploadTypes)
  }

  const TooLargeMessage: string := "File too large."
  const NotUtf8Message: string := "File must be valid UTF-8 text"
  const EmptyMessage: string := "File content cannot be empty"
  const NoteNotFoundMessage: string := "Note not found"

  /** `validate_upload_file`: content type, then size, then strict UTF-8
      decoding, then emptiness after stripping; the first failing check
      decides the error. A missing content type is not an allowed one. */
  function ValidateUploadFile(contentType: Option<string>, content: seq<byte>, maxUploadSize: int)
    : Result<string, HttpError>
  {
    if contentType.None? || contentType.value !in AllowedUploadTypes then
      Err(HttpError(400, InvalidTypeMessage()))
    else if |content| > maxUploadSize then
      Err(HttpError(413, TooLargeMessage))
    else
      match Decode(content)
      case None => Err(HttpError(400, NotUtf8Message))
      case Some(text) =>
        if Strip(text) == [] then Err(HttpError(400, EmptyMessage)) else Ok(Strip(text))
  }

  /** The type error names the allowed type. */
  lemma InvalidTypeMessageText()
    ensures InvalidTypeMessage() == "Invalid file type. Allowed types: text/plain"
  {
  }

  /** Each error arises exactly when every earlier check passed and its
      own check failed. */
  lemma UploadErrorsInOrder(contentType: Option<string>, content: seq<byte>, maxUploadSize: int)
    ensures var r := ValidateUploadFile(contentType, content, maxUploadSize);
      var typeOk := contentType == Some("text/plain");
      var sizeOk := |content| <= maxUploadSize;
      (r == Err(HttpError(400, InvalidTypeMessage())) <==> !typeOk)
      && (r == Err(HttpError(413, TooLargeMessage)) <==> typeOk && !sizeOk)
      && (r == Err(HttpError(400, NotUtf8Message)) <==> typeOk && sizeOk && Decode(content).None?)
      && (r == Err(HttpError(400, EmptyMessage)) <==>
            typeOk && sizeOk && Decode(content).Some? && AllSpace(Decode(content).value))
  {
    InvalidTypeMessageText();
    match Decode(content)
    case None =>
    case Some(text) =>
      StripShape(text);
  }

  /** Success exactly when all checks pass. */
  lemma UploadSuccess(contentType: Option<string>, content: seq<byte>, maxUploadSize: int)
    ensures ValidateUploadFile(contentType, content, maxUploadSize).Ok? <==>
      contentType == Some("text/plain") && |content| <= maxUploadSize
      && Decode(content).Some? && !AllSpace(Decode(content).value)
  {
    match Decode(content)
    case None =>
    case Some(text) =>
      StripShape(text);
  }

  /** An accepted upload is the decoded text stripped: non-empty, without
      surrounding whitespace, and a contiguous part of the decoded text. */
  lemma UploadResult(contentType: Option<string>, content: seq<byte>, maxUploadSize: int)
    requires ValidateUploadFile(contentType, content, maxUploadSize).Ok?
    ensures Decode(content).Some?
    ensures var r := ValidateUploadFile(contentType, content, maxUploadSize).value;
      r == Strip(Decode(content).value) && r != [] && Unpadded(r) && IsInfix(r, Decode(content).value)
  {
    StripShape(Decode(content).value);
  }

  /** A file exactly at the size limit is not refused for its size. */
  lemma AtLimitNotTooLarge(content: seq<byte>, maxUploadSize: int)
    requires |content| == maxUploadSize
    ensures ValidateUploadFile(Some("text/plain"), content, maxUploadSize) != Err(HttpError(413, TooLargeMessage))
  {
  }

  /** Uploading the UTF-8 encoding of a text that is not all whitespace,
      within the limit, yields that text stripped. */
  lemma UploadOfEncodedText(text: string, maxUploadSize: int)
    requires |Encode(text)| <= maxUploadSize && !AllSpace(text)
    ensures ValidateUploadFile(Some("text/plain"), Encode(text), maxUploadSize) == Ok(Strip(text))
  {
    DecodeEncode(text);
    StripShape(text);
  }

  /** The guard of `get_note` and `delete_note` as written: for a note
      that exists, `note.get("patient_id")` is called on the ORM object,
      which has no `get`; the `AttributeError` is not caught, so the
      answer is a server error whoever owns the note. */
  function GuardAsWritten(note: Option<Note>, patientId: int): Result<Note, HttpError> {
    if note.None? then Err(HttpError(404, NoteNotFoundMessage))
    else Err(HttpError(500, "Internal Server Error"))
  }

  /** Even the owner's own note is never served by the guard as written. */
  lemma GuardAsWrittenRefusesOwner(n: Note)
    ensures GuardAsWritten(Some(n), n.patientId) == Err(HttpError(500, "Internal Server Error"))
  {
  }

  /** The evidently intended guard: the note passes exactly when it exists
      and belongs to the patient of the path; otherwise 404. */
  function OwnedNote(note: Option<Note>, patientId: int): Result<Note, HttpError> {
    if note.Some? && note.value.patientId == patientId then Ok(note.value)
    else Err(HttpError(404, NoteNotFoundMessage))
  }

  lemma OwnedNoteSpec(note: Option<Note>, patientId: int)
    ensures OwnedNote(note, patientId).Ok? <==> note.Some? && note.value.patientId == patientId
    ensures OwnedNote(note, patientId).Ok? ==> OwnedNote(note, patientId).value == note.value
    ensures OwnedNote(note, patientId).Err? ==> OwnedNote(note, patientId).error == HttpError(404, NoteNotFoundMessage)
    ensures note.Some? ==> GuardAsWritten(note, patientId) != OwnedNote(note, patientId)
  {
  }

  /** `POST /patients/{patient_id}/notes/upload`: the validated text
      becomes a note of the patient (answered with 201); a validation
      error is answered as raised, and the service's `ValueError` for a
      missing patient becomes 400 with its message. Nothing is stored
      unless a note is returned. */
  method CreateNoteFile(service: NoteService, patientId: int, contentType: Option<string>, file: seq<byte>,
                        timestamp: int, importTime: int, now: int)
    returns (r: Result<Note, HttpError>)
    requires service.db.Valid()
    modifies service.db
    ensures service.db.Valid()
    ensures ValidateUploadFile(contentType, file, MaxUploadSize).Err? ==>
      r == Err(ValidateUploadFile(contentType, file, MaxUploadSize).error)
    ensures ValidateUploadFile(contentType, file, MaxUploadSize).Ok? && patientId !in old(service.db.patients) ==>
      r == Err(HttpError(400, PatientNotFound(patientId)))
    ensures r.Err? ==>
      service.db.notes == old(service.db.notes) && service.db.nextNoteId == old(service.db.nextNoteId)
      && service.db.log == old(service.db.log)
    ensures ValidateUploadFile(contentType, file, MaxUploadSize).Ok? && patientId in old(service.db.patients) ==>
      var text := ValidateUploadFile(contentType, file, MaxUploadSize).value;
      r == Ok(Note(old(service.db.nextNoteId), patientId, text, timestamp, CreatedAt(importTime, now)))
      && service.db.notes == old(service.db.notes)[r.value.id := r.value]
      && service.db.nextNoteId == old(service.db.nextNoteId) + 1
      && service.db.log == old(service.db.log) + [Added(NotesTable, r.value.id), Committed, Refreshed(NotesTable, r.value.id)]
    ensures service.db.patients == old(service.db.patients) && service.db.nextPatientId == old(service.db.nextPatientId)
  {
    var content := ValidateUploadFile(contentType, file, MaxUploadSize);
    if content.Err? {
      return Err(content.error);
    }
    var created := service.CreateNote(patientId, content.value, timestamp, importTime, now);
    match created
    case Err(message) =>
      r := Err(HttpError(400, message));
    case Ok(note) =>
      r := Ok(note);
  }

  /** `GET /patients/{patient_id}/notes/{note_id}` with the corrected
      guard `OwnedNote`: the note when it exists and belongs to the
      patient, otherwise 404. */
  method GetNote(service: NoteService, patientId: int, noteId: int) returns (r: Result<Note, HttpError>)
    requires service.db.Valid()
    ensures r.Ok? <==> noteId in service.db.notes && service.db.notes[noteId].patientId == patientId
    ensures r.Ok? ==> r.value == service.db.notes[noteId]
    ensures r.Err? ==> r.error == HttpError(404, NoteNotFoundMessage)
  {
    var note := service.GetNote(noteId);
    r := OwnedNote(note, patientId);
  }

  /** `DELETE /patients/{patient_id}/notes/{note_id}` with the corrected
      guard `OwnedNote`: 404 and no change unless the note exists and
      belongs to the patient; only then is it deleted (answered with
      204). */
  method DeleteNote(service: NoteService, patientId: int, noteId: int) returns (r: Result<(), HttpError>)
    requires service.db.Valid()
    modifies service.db
    ensures service.db.Valid()
    ensures r.Ok? <==> noteId in old(service.db.notes) && old(service.db.notes)[noteId].patientId == patientId
    ensures r.Err? ==>
      r.error == HttpError(404, NoteNotFoundMessage)
      && service.db.notes == old(service.db.notes) && service.db.log == old(service.db.log)
    ensures r.Ok? ==>
      service.db.notes == old(service.db.notes) - {noteId}
      && service.db.log == old(service.db.log) + [Deleted(NotesTable, noteId), Committed]
    ensures service.db.patients == old(service.db.patients)
    ensures service.db.nextNoteId == old(service.db.nextNoteId) && service.db.nextPatientId == old(service.db.nextPatientId)
  {
    var note := service.GetNote(noteId);
    var guard := OwnedNote(note, patientId);
    if guard.Err? {
      return Err(guard.error);
    }
    var deleted := service.DeleteNote(noteId);
    r := Ok(());
  }

  /** `DELETE /patients/{patient_id}/notes/{note_id}` as written: the guard
      raises for every note that exists, so the route answers 404 for a
      missing note, 500 for any other, and never deletes anything. */
  method DeleteNoteAsWritten(service: NoteService, patientId: int, noteId: int) returns (r: Result<(), HttpError>)
    requires service.db.Valid()
    modifies service.db
    ensures r.Err?
    ensures r.error.status == 500 <==> noteId in old(service.db.notes)
    ensures r.error.status == 404 <==> noteId !in old(service.db.notes)
    ensures service.db.notes == old(service.db.notes) && service.db.patients == old(service.db.patients)
    ensures service.db.log == old(service.db.log)
  {
    var note := service.GetNote(noteId);
    match GuardAsWritten(note, patientId)
    case Err(e) =>
      r := Err(e);
    case Ok(_) =>
      // The guard as written never lets a note through to the delete.
      assert false;
  }
}
