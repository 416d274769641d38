/** `NoteService`: creating, listing, fetching and deleting a patient's
    notes over the store. */
module NoteServices {
  import opened Wrappers
  import opened Text
  import opened Store
  import opened Ordering

  /** The message of the `ValueError` raised for a missing patient. */
  function PatientNotFound(patientId: int): string {
    "Patient with id " + IntToString(patientId) + " not found"
  }

  class NoteService {
    const db: Database

    constructor (db: Database)
      ensures this.db == db
    {
      this.db := db;
    }

    /** `create_note`: a missing patient is refused and nothing is added;
        otherwise exactly one note with a fresh id is added (add, commit,
        refresh). Its `created_at` is the corrected per-insert default
        `CreatedAt`, not the import-time value the declared default gives. */
    method CreateNote(patientId: int, content: string, timestamp: int, importTime: int, now: int)
      returns (r: Result<Note, string>)
      requires db.Valid()
      modifies db
      ensures db.Valid()
      ensures patientId !in old(db.patients) ==>
        r == Err(PatientNotFound(patientId))
        && db.notes == old(db.notes) && db.patients == old(db.patients)
        && db.nextNoteId == old(db.nextNoteId) && db.nextPatientId == old(db.nextPatientId)
        && db.log == old(db.log)
      ensures patientId in old(db.patients) ==>
        r.Ok?
        && r.value == Note(old(db.nextNoteId), patientId, content, timestamp, CreatedAt(importTime, now))
        && r.value.id !in old(db.notes)
        && db.notes == old(db.notes)[r.value.id := r.value]
        && db.patients == old(db.patients)
        && db.nextNoteId == old(db.nextNoteId) + 1 && db.nextPatientId == old(db.nextPatientId)
        && db.log == old(db.log) + [Added(NotesTable, r.value.id), Committed, Refreshed(NotesTable, r.value.id)]
    {
      if patientId !in db.patients {
        return Err(PatientNotFound(patientId));
      }
      var id := db.nextNoteId;
      var note := Note(id, patientId, content, timestamp, CreatedAt(importTime, now));
      db.AddNote(note);
      db.Record(Committed);
      db.Record(Refreshed(NotesTable, id));
      r := Ok(note);
    }

    /** `get_patient_notes`, without the page envelope: exactly the
        patient's notes, each once, in the order `sort_by` asks for. */
    method GetPatientNotes(patientId: int, sortBy: Option<string>) returns (r: seq<Note>)
      requires db.Valid()
      ensures forall n :: n in r <==> n in db.notes.Values && n.patientId == patientId
      ensures |r| == |NoteIdsOf(db.notes, patientId)|
      ensures Sorted(r, ParseSortBy(sortBy))
    {
      var rows := Rows(db.notes, db.nextNoteId);
      var order := ParseSortBy(sortBy);
      r := Sort(Filter(rows, patientId), order);
      NoteRowsShape(db);
      SortFilterSpec(rows, patientId, order);
      FilterRowsCount(db.notes, db.nextNoteId, patientId);
      assert NoteIdsBelow(db.notes, db.nextNoteId, patientId) == NoteIdsOf(db.notes, patientId);
      assert |r| == |multiset(r)| == |multiset(Filter(rows, patientId))| == |Filter(rows, patientId)|;
    }

    /** `get_latests_patient_notes`: at most five of the patient's notes,
        newest first, none left out newer than one returned, and fewer
        than five only when that is all of them. */
    method GetLatestPatientNotes(patientId: int) returns (r: seq<Note>)
      requires db.Valid()
      ensures r == LatestNotes(Rows(db.notes, db.nextNoteId), patientId)
      ensures |r| <= 5
      ensures forall n :: n in r ==> n in db.notes.Values && n.patientId == patientId
      ensures Sorted(r, NewestFirst)
      ensures forall n, x ::
        n in db.notes.Values && n.patientId == patientId && n !in r && x in r ==> n.timestamp <= x.timestamp
      ensures |r| < 5 ==> forall n :: n in db.notes.Values && n.patientId == patientId ==> n in r
    {
      var rows := Rows(db.notes, db.nextNoteId);
      r := LatestNotes(rows, patientId);
      NoteRowsShape(db);
      LatestNotesSpec(rows, patientId);
    }

    /** `get_note`: the note with that id, or `None`. */
    method GetNote(noteId: int) returns (r: Option<Note>)
      requires db.Valid()
      ensures r.Some? <==> noteId in db.notes
      ensures r.Some? ==> r.value == db.notes[noteId] && r.value.id == noteId && r.value.patientId in db.patients
    {
      if noteId in db.notes {
        r := Some(db.notes[noteId]);
      } else {
        r := None;
      }
    }

    /** `delete_note`: `false` and no change for a missing id; otherwise
        `true`, with that note alone removed. */
    method DeleteNote(noteId: int) returns (deleted: bool)
      requires db.Valid()
      modifies db
      ensures db.Valid()
      ensures deleted <==> noteId in old(db.notes)
      ensures db.notes == old(db.notes) - {noteId}
      ensures db.patients == old(db.patients)
      ensures db.nextNoteId == old(db.nextNoteId) && db.nextPatientId == old(db.nextPatientId)
      ensures db.log == old(db.log) + if deleted then [Deleted(NotesTable, noteId), Committed] else []
    {
      var note := GetNote(noteId);
      if note.None? {
        assert db.notes - {noteId} == db.notes;
        return false;
      }
      db.DeleteNoteRow(noteId);
      db.Record(Committed);
      deleted := true;
    }

    /** `delete_patient_notes`: one bulk delete and a commit; the count is
        the number of the patient's notes, none of which remain, and every
        other note stays. */
    method DeletePatientNotes(patientId: int) returns (count: nat)
      requires db.Valid()
      modifies db
      ensures db.Valid()
      ensures count == |NoteIdsOf(old(db.notes), patientId)|
      ensures db.notes == WithoutPatient(old(db.notes), patientId)
      ensures db.patients == old(db.patients)
      ensures db.nextNoteId == old(db.nextNoteId) && db.nextPatientId == old(db.nextPatientId)
      ensures db.log == old(db.log) + [BulkDeleted(NotesTable, count), Committed]
    {
      count := db.BulkDeleteNotes(patientId);
      db.Record(Committed);
    }
  }
}
