/** The two tables behind the services, held in memory: patients and their
    notes, keyed by id, with the next id each table's autoincrement will
    give. Cascade deletion is what keeps every note's patient alive. A
    ghost log records the session calls (add, delete, commit, refresh) in
    the order they are made. Times are integers (seconds). */
module Store {

  /** A row of `patients`. */
  datatype Patient = Patient(id: int, name: string, dateOfBirth: string, createdAt: int, updatedAt: int)

  /** A row of `patient_notes`. */
  datatype Note = Note(id: int, patientId: int, content: string, timestamp: int, createdAt: int)

  datatype Table = PatientsTable | NotesTable

  /** One session call. */
  datatype SessionOp =
    | Added(table: Table, id: int)
    | Deleted(table: Table, id: int)
    | BulkDeleted(table: Table, count: nat)
    | Committed
    | Refreshed(table: Table, id: int)

  /** The `created_at` default of a note as declared: the default value is
      computed once, when the model class is defined, so every note
      inserted afterwards gets that same instant. */
  function CreatedAtAsWritten(importTime: int, insertTime: int): int {
    importTime
  }

  /** Notes inserted at different times get the same `created_at`. */
  lemma CreatedAtAsWrittenIgnoresInsertTime(importTime: int, t1: int, t2: int)
    requires t1 < t2
    ensures CreatedAtAsWritten(importTime, t1) == CreatedAtAsWritten(importTime, t2)
  {
  }

  /** The evidently intended default: the time of the insert (a callable
      default evaluated per row). The store uses this one. */
  function CreatedAt(importTime: int, insertTime: int): int {
    insertTime
  }

  /** A later insert gets a later `created_at`. */
  lemma CreatedAtFollowsInsertTime(importTime: int, t1: int, t2: int)
    requires t1 < t2
    ensures CreatedAt(importTime, t1) < CreatedAt(importTime, t2)
  {
  }

  /** The rows of a table whose keys lie in `[1, n)`, in ascending key
      order: the order in which the autoincrement handed the keys out. */
  function Rows<T>(m: map<int, T>, n: int): seq<T>
    decreases n
  {
    if n <= 1 then [] else Rows(m, n - 1) + (if n - 1 in m then [m[n - 1]] else [])
  }

  /** The keys in `[1, n)`. */
  function KeysBelow<T>(m: map<int, T>, n: int): set<int> {
    set k | k in m && 1 <= k < n
  }

  /** Every row below `n` is listed. */
  lemma {:induction false} RowsComplete<T>(m: map<int, T>, n: int)
    ensures forall k :: k in m && 1 <= k < n ==> m[k] in Rows(m, n)
    decreases n
  {
    if n > 1 {
      RowsComplete(m, n - 1);
    }
  }

  /** Every listed row is the row stored under its key, and the keys
      strictly ascend (so no row is listed twice). */
  lemma {:induction false} RowsSound<T>(m: map<int, T>, n: int, key: T -> int)
    requires forall k :: k in m ==> key(m[k]) == k
    ensures forall i :: 0 <= i < |Rows(m, n)| ==>
      var k := key(Rows(m, n)[i]); k in m && 1 <= k < n && m[k] == Rows(m, n)[i]
    ensures forall i, j :: 0 <= i < j < |Rows(m, n)| ==> key(Rows(m, n)[i]) < key(Rows(m, n)[j])
    decreases n
  {
    if n > 1 {
      RowsSound(m, n - 1, key);
      var r := Rows(m, n - 1);
      var t := Rows(m, n);
      assert forall i :: 0 <= i < |r| ==> t[i] == r[i];
    }
  }

  /** One row per key below `n`. */
  lemma {:induction false} RowsCount<T>(m: map<int, T>, n: int)
    ensures |Rows(m, n)| == |KeysBelow(m, n)|
    decreases n
  {
    if n > 1 {
      RowsCount(m, n - 1);
      var extra: set<int> := if n - 1 in m then {n - 1} else {};
      assert KeysBelow(m, n) == KeysBelow(m, n - 1) + extra;
      assert KeysBelow(m, n - 1) !! extra;
    }
  }

  /** The ids of the notes of one patient. */
  function NoteIdsOf(notes: map<int, Note>, patientId: int): set<int> {
    set k | k in notes && notes[k].patientId == patientId
  }

  /** The notes table with every note of one patient removed. */
  function WithoutPatient(notes: map<int, Note>, patientId: int): map<int, Note> {
    map k | k in notes && notes[k].patientId != patientId :: notes[k]
  }

  /** The database: both tables, their id counters and the session log. */
  class Database {
    var patients: map<int, Patient>
    var notes: map<int, Note>
    var nextPatientId: int
    var nextNoteId: int
    ghost var log: seq<SessionOp>

    /** Every row sits under its own id, below the table's next id, and
        every note belongs to a patient that exists. */
    ghost predicate Valid()
      reads this
    {
      nextPatientId >= 1 && nextNoteId >= 1
      && (forall k :: k in patients ==> 1 <= k < nextPatientId && patients[k].id == k)
      && (forall k :: k in notes ==> 1 <= k < nextNoteId && notes[k].id == k && notes[k].patientId in patients)
    }

    /** An empty database. */
    constructor ()
      ensures Valid()
      ensures patients == map[] && notes == map[]
      ensures nextPatientId == 1 && nextNoteId == 1 && log == []
    {
      patients := map[];
      notes := map[];
      nextPatientId := 1;
      nextNoteId := 1;
      log := [];
    }

    /** `session.add` of a new patient row under the next id. */
    method AddPatient(p: Patient)
      requires Valid() && p.id == nextPatientId
      modifies this
      ensures Valid()
      ensures patients == old(patients)[p.id := p] && p.id !in old(patients)
      ensures notes == old(notes)
      ensures nextPatientId == old(nextPatientId) + 1 && nextNoteId == old(nextNoteId)
      ensures log == old(log) + [Added(PatientsTable, p.id)]
    {
      patients := patients[p.id := p];
      nextPatientId := nextPatientId + 1;
      log := log + [Added(PatientsTable, p.id)];
    }

    /** `session.add` of a new note row under the next id, for a patient
        that exists. */
    method AddNote(n: Note)
      requires Valid() && n.id == nextNoteId && n.patientId in patients
      modifies this
      ensures Valid()
      ensures notes == old(notes)[n.id := n] && n.id !in old(notes)
      ensures patients == old(patients)
      ensures nextPatientId == old(nextPatientId) && nextNoteId == old(nextNoteId) + 1
      ensures log == old(log) + [Added(NotesTable, n.id)]
    {
      notes := notes[n.id := n];
      nextNoteId := nextNoteId + 1;
      log := log + [Added(NotesTable, n.id)];
    }

    /** `session.delete` of a patient, its notes going with it (the
        delete-orphan cascade). */
    method DeletePatientRow(id: int)
      requires Valid()
      modifies this
      ensures Valid()
      ensures patients == old(patients) - {id}
      ensures notes == WithoutPatient(old(notes), id)
      ensures nextPatientId == old(nextPatientId) && nextNoteId == old(nextNoteId)
      ensures log == old(log) + [Deleted(PatientsTable, id)]
    {
      WithoutPatientShape(notes, id);
      notes := WithoutPatient(notes, id);
      patients := patients - {id};
      log := log + [Deleted(PatientsTable, id)];
    }

    /** `session.delete` of a note. */
    method DeleteNoteRow(id: int)
      requires Valid()
      modifies this
      ensures Valid()
      ensures notes == old(notes) - {id}
      ensures patients == old(patients)
      ensures nextPatientId == old(nextPatientId) && nextNoteId == old(nextNoteId)
      ensures log == old(log) + [Deleted(NotesTable, id)]
    {
      notes := notes - {id};
      log := log + [Deleted(NotesTable, id)];
    }

    /** The flush of a changed patient row that already exists. */
    method ReplacePatient(p: Patient)
      requires Valid() && p.id in patients
      modifies this
      ensures Valid()
      ensures patients == old(patients)[p.id := p]
      ensures notes == old(notes)
      ensures nextPatientId == old(nextPatientId) && nextNoteId == old(nextNoteId)
      ensures log == old(log)
    {
      patients := patients[p.id := p];
    }

    /** A bulk `DELETE` of one patient's notes; the count is the number of
        rows it removed. */
    method BulkDeleteNotes(patientId: int) returns (count: nat)
      requires Valid()
      modifies this
      ensures Valid()
      ensures count == |NoteIdsOf(old(notes), patientId)|
      ensures notes == WithoutPatient(old(notes), patientId)
      ensures patients == old(patients)
      ensures nextPatientId == old(nextPatientId) && nextNoteId == old(nextNoteId)
      ensures log == old(log) + [BulkDeleted(NotesTable, count)]
    {
      count := |NoteIdsOf(notes, patientId)|;
      notes := WithoutPatient(notes, patientId);
      log := log + [BulkDeleted(NotesTable, count)];
    }

    /** `session.commit` (and `session.refresh`): the rows are unchanged,
        the call is recorded. */
    method Record(op: SessionOp)
      requires Valid() && (op.Committed? || op.Refreshed?)
      modifies this
      ensures Valid()
      ensures patients == old(patients) && notes == old(notes)
      ensures nextPatientId == old(nextPatientId) && nextNoteId == old(nextNoteId)
      ensures log == old(log) + [op]
    {
      log := log + [op];
    }
  }

  /** In a valid database the keys below the counter are all the keys. */
  lemma AllKeysBelow(db: Database)
    requires db.Valid()
    ensures KeysBelow(db.patients, db.nextPatientId) == db.patients.Keys
    ensures KeysBelow(db.notes, db.nextNoteId) == db.notes.Keys
  {
  }

  /** The note rows of a valid database are its notes, by ascending id,
      one row per note. */
  lemma NoteRowsShape(db: Database)
    requires db.Valid()
    ensures forall n :: n in Rows(db.notes, db.nextNoteId) <==> n in db.notes.Values
    ensures forall i, j :: 0 <= i < j < |Rows(db.notes, db.nextNoteId)| ==>
      Rows(db.notes, db.nextNoteId)[i].id < Rows(db.notes, db.nextNoteId)[j].id
    ensures |Rows(db.notes, db.nextNoteId)| == |db.notes|
  {
    var key := (n: Note) => n.id;
    RowsComplete(db.notes, db.nextNoteId);
    RowsSound(db.notes, db.nextNoteId, key);
    RowsCount(db.notes, db.nextNoteId);
    AllKeysBelow(db);
    assert |db.notes| == |db.notes.Keys|;
  }

  /** The patient rows of a valid database are its patients, by ascending
      id, one row per patient. */
  lemma PatientRowsShape(db: Database)
    requires db.Valid()
    ensures forall p :: p in Rows(db.patients, db.nextPatientId) <==> p in db.patients.Values
    ensures forall i, j :: 0 <= i < j < |Rows(db.patients, db.nextPatientId)| ==>
      Rows(db.patients, db.nextPatientId)[i].id < Rows(db.patients, db.nextPatientId)[j].id
    ensures |Rows(db.patients, db.nextPatientId)| == |db.patients|
  {
    var key := (p: Patient) => p.id;
    RowsComplete(db.patients, db.nextPatientId);
    RowsSound(db.patients, db.nextPatientId, key);
    RowsCount(db.patients, db.nextPatientId);
    AllKeysBelow(db);
    assert |db.patients| == |db.patients.Keys|;
  }

  /** The ids of listed patients, and of listed notes. */
  function IdsOf(ps: seq<Patient>): set<int> {
    set p | p in ps :: p.id
  }

  function NoteIdsIn(ns: seq<Note>): set<int> {
    set n | n in ns :: n.id
  }

  /** Listing a valid database's patients (or notes) lists every id. */
  lemma PatientIdsListed(db: Database)
    requires db.Valid()
    ensures IdsOf(Rows(db.patients, db.nextPatientId)) == db.patients.Keys
  {
    RowsComplete(db.patients, db.nextPatientId);
    RowsSound(db.patients, db.nextPatientId, (p: Patient) => p.id);
  }

  lemma NoteIdsListed(db: Database)
    requires db.Valid()
    ensures NoteIdsIn(Rows(db.notes, db.nextNoteId)) == db.notes.Keys
  {
    RowsComplete(db.notes, db.nextNoteId);
    RowsSound(db.notes, db.nextNoteId, (n: Note) => n.id);
  }

  /** A listed note of a valid database is stored under its own id. */
  lemma NoteUnderOwnId(db: Database, n: Note)
    requires db.Valid() && n in Rows(db.notes, db.nextNoteId)
    ensures n.id in db.notes && db.notes[n.id] == n
    ensures n.id in NoteIdsOf(db.notes, n.patientId)
  {
    var rows := Rows(db.notes, db.nextNoteId);
    RowsSound(db.notes, db.nextNoteId, (x: Note) => x.id);
    var i :| 0 <= i < |rows| && rows[i] == n;
  }

  /** Removing one patient's notes keeps the other notes, and only them. */
  lemma WithoutPatientShape(notes: map<int, Note>, patientId: int)
    ensures WithoutPatient(notes, patientId).Keys == notes.Keys - NoteIdsOf(notes, patientId)
    ensures forall k :: k in WithoutPatient(notes, patientId) ==>
      WithoutPatient(notes, patientId)[k] == notes[k] && notes[k].patientId != patientId
    ensures NoteIdsOf(WithoutPatient(notes, patientId), patientId) == {}
  {
  }
}
