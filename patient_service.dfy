/** `PatientService`: listing, fetching, creating, updating and deleting
    patients over the store. */
module PatientServices {
  import opened Wrappers
  import opened Store
  import PatientSchemas

  /** One `key: value` pair of the update dictionary: the column it sets
      and the value it sets it to. */
  type Update = (PatientSchemas.Field, string)

  /** `setattr(patient, key, value)` for one pair. */
  function SetField(p: Patient, u: Update): Patient {
    match u.0
    case NameField => p.(name := u.1)
    case DateOfBirthField => p.(dateOfBirth := u.1)
  }

  /** The `for key, value in patient_data.items()` loop, pair by pair. */
  function SetFields(p: Patient, us: seq<Update>): Patient
    decreases |us|
  {
    if us == [] then p else SetField(SetFields(p, us[..|us| - 1]), us[|us| - 1])
  }

  /** The last value the pairs give a column, if any. */
  function LastValue(us: seq<Update>, f: PatientSchemas.Field): Option<string>
    decreases |us|
  {
    if us == [] then None
    else if us[|us| - 1].0 == f then Some(us[|us| - 1].1)
    else LastValue(us[..|us| - 1], f)
  }

  /** After the loop each column holds the last value supplied for it, or
      its old value when none was; id and timestamps are untouched. */
  lemma {:induction false} SetFieldsValues(p: Patient, us: seq<Update>)
    ensures SetFields(p, us).name ==
      (if LastValue(us, PatientSchemas.NameField).Some? then LastValue(us, PatientSchemas.NameField).value else p.name)
    ensures SetFields(p, us).dateOfBirth ==
      (if LastValue(us, PatientSchemas.DateOfBirthField).Some? then LastValue(us, PatientSchemas.DateOfBirthField).value else p.dateOfBirth)
    ensures SetFields(p, us).id == p.id
    ensures SetFields(p, us).createdAt == p.createdAt && SetFields(p, us).updatedAt == p.updatedAt
    decreases |us|
  {
    if us != [] {
      SetFieldsValues(p, us[..|us| - 1]);
    }
  }

  /** An empty update dictionary changes nothing. */
  lemma NoUpdatesNoChange(p: Patient)
    ensures SetFields(p, []) == p
  {
  }

  /** The row after the update is flushed: `updated_at` is set to the
      database's clock when a column actually changed, and only then. */
  function Flushed(before: Patient, after: Patient, now: int): Patient {
    if after.name != before.name || after.dateOfBirth != before.dateOfBirth then after.(updatedAt := now) else after
  }

  class PatientService {
    const db: Database

    constructor (db: Database)
      ensures this.db == db
    {
      this.db := db;
    }

    /** `list_patients`: every patient once, listed by ascending id. */
    method ListPatients() returns (r: seq<Patient>)
      requires db.Valid()
      ensures forall p :: p in r <==> p in db.patients.Values
      ensures forall i, j :: 0 <= i < j < |r| ==> r[i].id < r[j].id
      ensures |r| == |db.patients|
    {
      r := Rows(db.patients, db.nextPatientId);
      PatientRowsShape(db);
    }

    /** `get_patient`: the patient with that id, or `None`. */
    method GetPatient(patientId: int) returns (r: Option<Patient>)
      requires db.Valid()
      ensures r.Some? <==> patientId in db.patients
      ensures r.Some? ==> r.value == db.patients[patientId] && r.value.id == patientId
    {
      if patientId in db.patients {
        r := Some(db.patients[patientId]);
      } else {
        r := None;
      }
    }

    /** `create_patient`: one new patient under a fresh id, both timestamps
        set to the database's clock (add, commit, refresh). */
    method CreatePatient(name: string, dateOfBirth: string, now: int) returns (r: Patient)
      requires db.Valid()
      modifies db
      ensures db.Valid()
      ensures r == Patient(old(db.nextPatientId), name, dateOfBirth, now, now)
      ensures r.id !in old(db.patients)
      ensures db.patients == old(db.patients)[r.id := r]
      ensures db.notes == old(db.notes)
      ensures db.nextPatientId == old(db.nextPatientId) + 1 && db.nextNoteId == old(db.nextNoteId)
      ensures db.log == old(db.log) + [Added(PatientsTable, r.id), Committed, Refreshed(PatientsTable, r.id)]
    {
      var id := db.nextPatientId;
      r := Patient(id, name, dateOfBirth, now, now);
      db.AddPatient(r);
      db.Record(Committed);
      db.Record(Refreshed(PatientsTable, id));
    }

    /** `update_patient`: `None` and no change for a missing id; otherwise
        each pair is applied in order, then commit and refresh. */
    method UpdatePatient(patientId: int, updates: seq<Update>, now: int) returns (r: Option<Patient>)
      requires db.Valid()
      modifies db
      ensures db.Valid()
      ensures r.Some? <==> patientId in old(db.patients)
      ensures r.None? ==> db.patients == old(db.patients) && db.log == old(db.log)
      ensures r.Some? ==>
        var before := old(db.patients)[patientId];
        r.value == Flushed(before, SetFields(before, updates), now)
        && db.patients == old(db.patients)[patientId := r.value]
        && db.log == old(db.log) + [Committed, Refreshed(PatientsTable, patientId)]
      ensures db.notes == old(db.notes)
      ensures db.nextPatientId == old(db.nextPatientId) && db.nextNoteId == old(db.nextNoteId)
    {
      var found := GetPatient(patientId);
      if found.None? {
        return None;
      }
      var p := found.value;
      var i := 0;
      while i < |updates|
        invariant 0 <= i <= |updates|
        invariant p == SetFields(found.value, updates[..i])
      {
        assert updates[..i + 1][..i] == updates[..i];
        p := SetField(p, updates[i]);
        i := i + 1;
      }
      assert updates[..i] == updates;
      p := Flushed(found.value, p, now);
      SetFieldsValues(found.value, updates);
      db.ReplacePatient(p);
      db.Record(Committed);
      db.Record(Refreshed(PatientsTable, patientId));
      r := Some(p);
    }

    /** `delete_patient`: `false` and no change for a missing id; otherwise
        `true`, the patient removed together with all of its notes (the
        relationship's delete-orphan cascade) and no other row touched. */
    method DeletePatient(patientId: int) returns (deleted: bool)
      requires db.Valid()
      modifies db
      ensures db.Valid()
      ensures deleted <==> patientId in old(db.patients)
      ensures db.patients == old(db.patients) - {patientId}
      ensures db.notes == if deleted then WithoutPatient(old(db.notes), patientId) else old(db.notes)
      ensures db.nextPatientId == old(db.nextPatientId) && db.nextNoteId == old(db.nextNoteId)
      ensures db.log == old(db.log) + if deleted then [Deleted(PatientsTable, patientId), Committed] else []
    {
      var found := GetPatient(patientId);
      if found.None? {
        assert db.patients - {patientId} == db.patients;
        return false;
      }
      db.DeletePatientRow(patientId);
      db.Record(Committed);
      deleted := true;
    }
  }

  /** An update keeps every column it was not given, and a column given
      a value ends with the last such value. */
  lemma UpdateKeepsOtherColumns(before: Patient, updates: seq<Update>, now: int)
    ensures var after := Flushed(before, SetFields(before, updates), now);
      after.id == before.id && after.createdAt == before.createdAt
      && (LastValue(updates, PatientSchemas.NameField).None? ==> after.name == before.name)
      && (LastValue(updates, PatientSchemas.DateOfBirthField).None? ==> after.dateOfBirth == before.dateOfBirth)
      && (LastValue(updates, PatientSchemas.NameField).Some? ==> after.name == LastValue(updates, PatientSchemas.NameField).value)
      && (LastValue(updates, PatientSchemas.DateOfBirthField).Some? ==>
            after.dateOfBirth == LastValue(updates, PatientSchemas.DateOfBirthField).value)
  {
    SetFieldsValues(before, updates);
  }

  /** `updated_at` moves to the clock exactly when a column's value
      changed; writing back the values a row already has leaves it. */
  lemma UpdatedAtOnChange(before: Patient, updates: seq<Update>, now: int)
    ensures var after := SetFields(before, updates);
      Flushed(before, after, now).updatedAt ==
        (if after.name != before.name || after.dateOfBirth != before.dateOfBirth then now else before.updatedAt)
    ensures SetFields(before, [(PatientSchemas.NameField, before.name)]) == before
  {
    SetFieldsValues(before, updates);
    assert [(PatientSchemas.NameField, before.name)][..0] == [];
  }
}
